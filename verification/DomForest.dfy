/**
 The DOM node record and the mathematics of document order.

 A node of src/dom.h carries five link pointers.  A `Forest` is the shape those pointers are meant to
 encode: an ordered list of children for every node.  Document order (WHATWG DOM, section 1.1) is
 defined here on the ancestor chains of two nodes, independently of any traversal, and the lemmas of
 this module show that it is a strict total order on every tree, that a preorder traversal lists the
 nodes of a tree in exactly that order, and that moving one subtree never reorders the other nodes.
 */
module DomForest {
  import opened Common

  datatype Kind = Document | Doctype | Element | Text | Comment

  /** A hash table from keys to pointer arrays: the type of a class index or a tag index. */
  class KeyTable {
    var arrays: map<string, seq<Node>>

    constructor ()
      ensures arrays == map[]
    {
      arrays := map[];
    }
  }

  /** The two hash tables of an id index: from an id to an element, and from an id to the number of
      elements that carry it.  The second one is created when it is first needed. */
  class IdTables {
    var index: map<string, Node>
    var counts: Option<map<string, nat>>

    constructor ()
      ensures index == map[] && counts == None
    {
      index, counts := map[], None;
    }
  }

  /** struct ns_node, with the two attributes that the indexes look at. */
  class Node {
    const kind: Kind
    const name: string

    var idAttr: Option<string>
    var classAttr: Option<string>

    var parent: Node?
    var firstChild: Node?
    var lastChild: Node?
    var prevSibling: Node?
    var nextSibling: Node?

    var idTables: IdTables?
    var classIndex: KeyTable?
    var tagIndex: KeyTable?

    constructor (kind: Kind, name: string)
      ensures this.kind == kind && this.name == name
      ensures idAttr == None && classAttr == None
      ensures parent == null && firstChild == null && lastChild == null
      ensures prevSibling == null && nextSibling == null
      ensures idTables == null && classIndex == null && tagIndex == null
    {
      this.kind, this.name := kind, name;
      idAttr, classAttr := None, None;
      parent, firstChild, lastChild, prevSibling, nextSibling := null, null, null, null, null;
      idTables, classIndex, tagIndex := null, null, null;
    }

    predicate IsTemplate() {
      kind == Element && name == "template"
    }
  }

  /** The ordered children of every node, the parent of every node that has one, and a rank that grows
      from parent to child and stays below a bound, so that every chain of parents and every descent
      is finite. */
  datatype Forest = Forest(kids: map<Node, seq<Node>>, up: map<Node, Node>, rank: map<Node, nat>, bound: nat)

  ghost predicate Distinct(s: seq<Node>) {
    forall i, j :: 0 <= i < j < |s| ==> s[i] != s[j]
  }

  ghost predicate KidsOk(f: Forest, n: Node)
    requires n in f.kids
  {
    && Distinct(f.kids[n])
    && forall i :: 0 <= i < |f.kids[n]| ==>
         f.kids[n][i] in f.kids && f.kids[n][i] in f.up && f.up[f.kids[n][i]] == n
  }

  ghost predicate UpOk(f: Forest, c: Node)
    requires c in f.up
  {
    && c in f.kids && c in f.rank
    && f.up[c] in f.kids && f.up[c] in f.rank
    && c in f.kids[f.up[c]]
    && f.rank[f.up[c]] < f.rank[c]
  }

  ghost predicate Wf(f: Forest) {
    && f.kids.Keys == f.rank.Keys
    && (forall n {:trigger KidsOk(f, n)} :: n in f.kids ==> KidsOk(f, n))
    && (forall c {:trigger UpOk(f, c)} :: c in f.up ==> UpOk(f, c))
    && (forall n :: n in f.rank ==> f.rank[n] < f.bound)
  }

  /** The nodes from the root down to `n`. */
  ghost function Chain(f: Forest, n: Node): (r: seq<Node>)
    requires Wf(f) && n in f.kids
    ensures |r| >= 1 && r[|r| - 1] == n && n in r
    decreases f.rank[n]
  {
    if n in f.up then assert UpOk(f, n); Chain(f, f.up[n]) + [n] else [n]
  }

  /** `r` is `n` or one of its ancestors. */
  ghost predicate Under(f: Forest, r: Node, n: Node)
    requires Wf(f) && n in f.kids
  {
    r in Chain(f, n)
  }

  ghost predicate SiblingBefore(f: Forest, x: Node, y: Node) {
    && x in f.up && y in f.up && f.up[x] == f.up[y] && f.up[x] in f.kids
    && exists i, j :: 0 <= i < j < |f.kids[f.up[x]]| && f.kids[f.up[x]][i] == x && f.kids[f.up[x]][j] == y
  }

  /** The chains agree up to position `k`, where `x` ends or turns into an earlier sibling. */
  ghost predicate SplitsAt(f: Forest, x: seq<Node>, y: seq<Node>, k: nat) {
    && k <= |x| && k < |y|
    && (forall t :: 0 <= t < k ==> x[t] == y[t])
    && (k < |x| ==> SiblingBefore(f, x[k], y[k]))
  }

  /** Document order. */
  ghost predicate Before(f: Forest, a: Node, b: Node)
    requires Wf(f) && a in f.kids && b in f.kids
  {
    exists k: nat :: SplitsAt(f, Chain(f, a), Chain(f, b), k)
  }

  // ---------- chains ----------

  /** Every member of a chain has the corresponding prefix as its own chain. */
  lemma {:induction false} ChainPrefix(f: Forest, n: Node, i: nat)
    requires Wf(f) && n in f.kids && i < |Chain(f, n)|
    ensures Chain(f, n)[i] in f.kids
    ensures Chain(f, Chain(f, n)[i]) == Chain(f, n)[..i + 1]
    decreases f.rank[n]
  {
    if n in f.up {
      assert UpOk(f, n);
      if i < |Chain(f, n)| - 1 {
        ChainPrefix(f, f.up[n], i);
        assert Chain(f, n)[..i + 1] == Chain(f, f.up[n])[..i + 1];
      } else {
        assert Chain(f, n)[..i + 1] == Chain(f, n);
      }
    } else {
      assert Chain(f, n)[..i + 1] == Chain(f, n);
    }
  }

  lemma ChainLink(f: Forest, n: Node, i: nat)
    requires Wf(f) && n in f.kids && i + 1 < |Chain(f, n)|
    ensures var c := Chain(f, n); c[i + 1] in f.up && f.up[c[i + 1]] == c[i]
  {
    ChainPrefix(f, n, i + 1);
    ChainPrefix(f, n, i);
    var m := Chain(f, n)[i + 1];
    assert |Chain(f, m)| == i + 2;
    assert m in f.up;
    assert UpOk(f, m);
    assert Chain(f, m) == Chain(f, f.up[m]) + [m];
    assert Chain(f, m)[i] == f.up[m];
  }

  lemma ChainRoot(f: Forest, n: Node)
    requires Wf(f) && n in f.kids
    ensures Chain(f, n)[0] in f.kids && Chain(f, n)[0] !in f.up
  {
    ChainPrefix(f, n, 0);
    var r := Chain(f, n)[0];
    assert |Chain(f, r)| == 1;
  }

  /** The position of an ancestor in a chain is its own depth, so no node occurs twice. */
  lemma ChainPosition(f: Forest, n: Node, i: nat)
    requires Wf(f) && n in f.kids && i < |Chain(f, n)|
    ensures Chain(f, n)[i] in f.kids && |Chain(f, Chain(f, n)[i])| == i + 1
  {
    ChainPrefix(f, n, i);
  }

  lemma UnderStep(f: Forest, r: Node, n: Node)
    requires Wf(f) && n in f.kids
    ensures n in f.up ==> f.up[n] in f.kids
    ensures Under(f, r, n) <==> r == n || (n in f.up && Under(f, r, f.up[n]))
  {
    if n in f.up {
      assert UpOk(f, n);
      assert Chain(f, n) == Chain(f, f.up[n]) + [n];
    }
  }

  lemma UnderTransitive(f: Forest, a: Node, b: Node, c: Node)
    requires Wf(f) && b in f.kids && c in f.kids && Under(f, a, b) && Under(f, b, c)
    ensures Under(f, a, c)
  {
    var j :| 0 <= j < |Chain(f, c)| && Chain(f, c)[j] == b;
    ChainPrefix(f, c, j);
    var i :| 0 <= i < |Chain(f, b)| && Chain(f, b)[i] == a;
    assert Chain(f, c)[i] == a;
  }

  lemma UnderAntisymmetric(f: Forest, a: Node, b: Node)
    requires Wf(f) && a in f.kids && b in f.kids && Under(f, a, b) && Under(f, b, a)
    ensures a == b
  {
    var i :| 0 <= i < |Chain(f, b)| && Chain(f, b)[i] == a;
    ChainPosition(f, b, i);
    var j :| 0 <= j < |Chain(f, a)| && Chain(f, a)[j] == b;
    ChainPosition(f, a, j);
  }

  // ---------- document order is a strict total order on every tree ----------

  lemma SiblingAsymmetric(f: Forest, x: Node, y: Node)
    requires Wf(f) && SiblingBefore(f, x, y)
    ensures x != y && !SiblingBefore(f, y, x)
  {
    assert KidsOk(f, f.up[x]);
  }

  lemma SiblingTransitive(f: Forest, x: Node, y: Node, z: Node)
    requires Wf(f) && SiblingBefore(f, x, y) && SiblingBefore(f, y, z)
    ensures SiblingBefore(f, x, z)
  {
    assert KidsOk(f, f.up[x]);
    var s := f.kids[f.up[x]];
    var i, j :| 0 <= i < j < |s| && s[i] == x && s[j] == y;
    var j', k :| 0 <= j' < k < |s| && s[j'] == y && s[k] == z;
    assert j == j';
  }

  lemma BeforeAsymmetric(f: Forest, a: Node, b: Node)
    requires Wf(f) && a in f.kids && b in f.kids && Before(f, a, b)
    ensures a != b && !Before(f, b, a)
  {
    var x, y := Chain(f, a), Chain(f, b);
    var k: nat :| SplitsAt(f, x, y, k);
    if k < |x| { SiblingAsymmetric(f, x[k], y[k]); }
    if Before(f, b, a) {
      var l: nat :| SplitsAt(f, y, x, l);
      if k < |x| { SiblingAsymmetric(f, x[k], y[k]); }
      if l < |y| { SiblingAsymmetric(f, y[l], x[l]); }
    }
  }

  lemma BeforeTransitive(f: Forest, a: Node, b: Node, c: Node)
    requires Wf(f) && a in f.kids && b in f.kids && c in f.kids
    requires Before(f, a, b) && Before(f, b, c)
    ensures Before(f, a, c)
  {
    var x, y, z := Chain(f, a), Chain(f, b), Chain(f, c);
    var k: nat :| SplitsAt(f, x, y, k);
    var l: nat :| SplitsAt(f, y, z, l);
    if k == l && k < |x| { SiblingTransitive(f, x[k], y[k], z[k]); }
    assert SplitsAt(f, x, z, if k < l then k else l);
  }

  lemma KidsOfOneParent(f: Forest, x: Node, y: Node)
    requires Wf(f) && x in f.up && y in f.up && f.up[x] == f.up[y] && x != y
    ensures SiblingBefore(f, x, y) || SiblingBefore(f, y, x)
  {
    assert UpOk(f, x) && UpOk(f, y);
    var s := f.kids[f.up[x]];
    var i :| 0 <= i < |s| && s[i] == x;
    var j :| 0 <= j < |s| && s[j] == y;
    assert i < j || j < i;
  }

  lemma BeforeTotal(f: Forest, a: Node, b: Node)
    requires Wf(f) && a in f.kids && b in f.kids && a != b
    requires Chain(f, a)[0] == Chain(f, b)[0]
    ensures Before(f, a, b) || Before(f, b, a)
  {
    var x, y := Chain(f, a), Chain(f, b);
    var k: nat := 1;
    while k < |x| && k < |y| && x[k] == y[k]
      invariant 1 <= k <= |x| && k <= |y|
      invariant forall t :: 0 <= t < k ==> x[t] == y[t]
    {
      k := k + 1;
    }
    if k < |x| && k < |y| {
      ChainLink(f, a, k - 1);
      ChainLink(f, b, k - 1);
      KidsOfOneParent(f, x[k], y[k]);
    } else {
      assert x[|x| - 1] == a && y[|y| - 1] == b;
    }
    assert SplitsAt(f, x, y, k) || SplitsAt(f, y, x, k);
  }

  /** Nodes of different trees are not ordered. */
  lemma BeforeSameRoot(f: Forest, a: Node, b: Node)
    requires Wf(f) && a in f.kids && b in f.kids && Before(f, a, b)
    ensures Chain(f, a)[0] == Chain(f, b)[0]
  {
    var x, y := Chain(f, a), Chain(f, b);
    var k: nat :| SplitsAt(f, x, y, k);
    if k == 0 {
      ChainRoot(f, a);
      assert false;
    }
  }

  lemma AncestorBefore(f: Forest, a: Node, b: Node)
    requires Wf(f) && a in f.kids && b in f.kids && Under(f, a, b) && a != b
    ensures Before(f, a, b)
  {
    var y := Chain(f, b);
    var i :| 0 <= i < |y| && y[i] == a;
    ChainPrefix(f, b, i);
    assert SplitsAt(f, Chain(f, a), y, i + 1);
  }

  /** Everything below an earlier sibling comes before everything below a later one. */
  lemma SiblingSubtreesBefore(f: Forest, x: Node, y: Node, a: Node, b: Node)
    requires Wf(f) && a in f.kids && b in f.kids && SiblingBefore(f, x, y)
    requires Under(f, x, a) && Under(f, y, b)
    ensures Before(f, a, b)
  {
    assert UpOk(f, x) && UpOk(f, y);
    var i :| 0 <= i < |Chain(f, a)| && Chain(f, a)[i] == x;
    var j :| 0 <= j < |Chain(f, b)| && Chain(f, b)[j] == y;
    ChainPrefix(f, a, i);
    ChainPrefix(f, b, j);
    var p := Chain(f, f.up[x]);
    assert Chain(f, x) == p + [x] && Chain(f, y) == p + [y];
    assert i == |p| && j == |p|;
    forall t | 0 <= t < i ensures Chain(f, a)[t] == Chain(f, b)[t] {
      assert Chain(f, x)[t] == p[t] == Chain(f, y)[t];
      assert Chain(f, a)[..i + 1][t] == Chain(f, b)[..j + 1][t];
    }
    assert SplitsAt(f, Chain(f, a), Chain(f, b), i);
  }

  /** What precedes a node without being above it precedes its whole subtree. */
  lemma BeforeSubtree(f: Forest, a: Node, n: Node, b: Node)
    requires Wf(f) && a in f.kids && n in f.kids && b in f.kids
    requires Before(f, a, n) && Under(f, n, b)
    ensures Before(f, a, b)
  {
    if n != b {
      AncestorBefore(f, n, b);
      BeforeTransitive(f, a, n, b);
    }
  }

  // ---------- the preorder traversal ----------

  /** `n`, then the subtrees of its children from left to right. */
  ghost function Preorder(f: Forest, n: Node): seq<Node>
    requires Wf(f) && n in f.kids
    decreases f.bound - f.rank[n], |f.kids[n]| + 1
  {
    [n] + PreorderKids(f, n, 0)
  }

  ghost function PreorderKids(f: Forest, n: Node, i: nat): seq<Node>
    requires Wf(f) && n in f.kids && i <= |f.kids[n]|
    decreases f.bound - f.rank[n], |f.kids[n]| - i
  {
    if i == |f.kids[n]| then []
    else
      assert KidsOk(f, n);
      assert UpOk(f, f.kids[n][i]);
      Preorder(f, f.kids[n][i]) + PreorderKids(f, n, i + 1)
  }

  /** `m` is under the `i`-th or a later child of `n`. */
  ghost predicate UnderKid(f: Forest, n: Node, i: nat, m: Node)
    requires Wf(f) && n in f.kids && m in f.kids
  {
    exists j :: i <= j < |f.kids[n]| && Under(f, f.kids[n][j], m)
  }

  lemma UnderSplit(f: Forest, n: Node, m: Node)
    requires Wf(f) && n in f.kids && m in f.kids
    ensures Under(f, n, m) <==> m == n || UnderKid(f, n, 0, m)
  {
    if Under(f, n, m) && m != n {
      var i :| 0 <= i < |Chain(f, m)| && Chain(f, m)[i] == n;
      ChainLink(f, m, i);
      var c := Chain(f, m)[i + 1];
      assert UpOk(f, c);
      var j :| 0 <= j < |f.kids[n]| && f.kids[n][j] == c;
      assert Under(f, f.kids[n][j], m);
    }
    if UnderKid(f, n, 0, m) {
      var j :| 0 <= j < |f.kids[n]| && Under(f, f.kids[n][j], m);
      var c := f.kids[n][j];
      assert KidsOk(f, n);
      assert UpOk(f, c);
      assert n == Chain(f, n)[|Chain(f, n)| - 1];
      assert Chain(f, c)[|Chain(f, n)| - 1] == n;
      assert Under(f, n, c);
      UnderTransitive(f, n, c, m);
    }
  }

  ghost predicate Sorted(f: Forest, s: seq<Node>)
    requires Wf(f)
  {
    && (forall i :: 0 <= i < |s| ==> s[i] in f.kids)
    && (forall i, j :: 0 <= i < j < |s| ==> Before(f, s[i], s[j]))
  }

  lemma SortedConcat(f: Forest, s: seq<Node>, t: seq<Node>)
    requires Wf(f) && Sorted(f, s) && Sorted(f, t)
    requires forall a, b :: a in s && b in t ==> Before(f, a, b)
    ensures Sorted(f, s + t)
  {
    var u := s + t;
    forall i, j | 0 <= i < j < |u| ensures Before(f, u[i], u[j]) {
      if i < |s| && j >= |s| { assert u[i] in s && u[j] in t; }
    }
  }

  /** The traversal lists the subtree of `n`, every node once, in document order. */
  lemma {:induction false} PreorderIsDocumentOrder(f: Forest, n: Node)
    requires Wf(f) && n in f.kids
    ensures Sorted(f, Preorder(f, n))
    ensures forall m :: m in Preorder(f, n) <==> m in f.kids && Under(f, n, m)
    decreases f.bound - f.rank[n], |f.kids[n]| + 1
  {
    PreorderKidsIsDocumentOrder(f, n, 0);
    var rest := PreorderKids(f, n, 0);
    forall a, b | a in [n] && b in rest ensures Before(f, a, b) {
      UnderSplit(f, n, b);
      var j :| 0 <= j < |f.kids[n]| && Under(f, f.kids[n][j], b);
      if b == n {
        var c := f.kids[n][j];
        assert KidsOk(f, n);
        assert UpOk(f, c);
        var i :| 0 <= i < |Chain(f, n)| && Chain(f, n)[i] == c;
        ChainPosition(f, n, i);
        assert false;
      }
      AncestorBefore(f, n, b);
    }
    SortedConcat(f, [n], rest);
    forall m ensures m in Preorder(f, n) <==> m in f.kids && Under(f, n, m) {
      if m in f.kids { UnderSplit(f, n, m); }
    }
  }

  lemma {:induction false} PreorderKidsIsDocumentOrder(f: Forest, n: Node, i: nat)
    requires Wf(f) && n in f.kids && i <= |f.kids[n]|
    ensures Sorted(f, PreorderKids(f, n, i))
    ensures forall m :: m in PreorderKids(f, n, i) <==> m in f.kids && UnderKid(f, n, i, m)
    decreases f.bound - f.rank[n], |f.kids[n]| - i
  {
    if i < |f.kids[n]| {
      var c := f.kids[n][i];
      assert KidsOk(f, n);
      assert UpOk(f, c);
      PreorderIsDocumentOrder(f, c);
      PreorderKidsIsDocumentOrder(f, n, i + 1);
      KidThenLaterKids(f, n, i, Preorder(f, c), PreorderKids(f, n, i + 1));
    }
  }

  lemma KidThenLaterKids(f: Forest, n: Node, i: nat, s: seq<Node>, t: seq<Node>)
    requires Wf(f) && n in f.kids && i < |f.kids[n]| && Sorted(f, s) && Sorted(f, t)
    requires forall m :: m in s <==> m in f.kids && Under(f, f.kids[n][i], m)
    requires forall m :: m in t <==> m in f.kids && UnderKid(f, n, i + 1, m)
    ensures Sorted(f, s + t)
    ensures forall m :: m in s + t <==> m in f.kids && UnderKid(f, n, i, m)
  {
    forall a, b | a in s && b in t ensures Before(f, a, b) {
      LaterKidAfter(f, n, i, a, b);
    }
    SortedConcat(f, s, t);
    forall m ensures m in s + t <==> m in f.kids && UnderKid(f, n, i, m) {
      if m in f.kids { UnderKidSplit(f, n, i, m); }
    }
  }

  lemma LaterKidAfter(f: Forest, n: Node, i: nat, a: Node, b: Node)
    requires Wf(f) && n in f.kids && a in f.kids && b in f.kids && i < |f.kids[n]|
    requires Under(f, f.kids[n][i], a) && UnderKid(f, n, i + 1, b)
    ensures Before(f, a, b)
  {
    assert KidsOk(f, n);
    var j :| i + 1 <= j < |f.kids[n]| && Under(f, f.kids[n][j], b);
    assert SiblingBefore(f, f.kids[n][i], f.kids[n][j]);
    SiblingSubtreesBefore(f, f.kids[n][i], f.kids[n][j], a, b);
  }

  lemma UnderKidSplit(f: Forest, n: Node, i: nat, m: Node)
    requires Wf(f) && n in f.kids && m in f.kids && i < |f.kids[n]|
    ensures UnderKid(f, n, i, m) <==> Under(f, f.kids[n][i], m) || UnderKid(f, n, i + 1, m)
  {
    if UnderKid(f, n, i, m) {
      var j :| i <= j < |f.kids[n]| && Under(f, f.kids[n][j], m);
      assert j == i || UnderKid(f, n, i + 1, m);
    }
  }

  /** A sorted array is determined by its elements. */
  lemma {:induction false} SortedUnique(f: Forest, s: seq<Node>, t: seq<Node>)
    requires Wf(f) && Sorted(f, s) && Sorted(f, t)
    requires forall n :: n in s <==> n in t
    ensures s == t
  {
    if s == [] {
      assert forall i :: 0 <= i < |t| ==> t[i] in t;
    } else {
      assert s[0] in t && t[0] in s;
      if s[0] != t[0] {
        var i :| 0 <= i < |t| && t[i] == s[0];
        var j :| 0 <= j < |s| && s[j] == t[0];
        BeforeAsymmetric(f, s[0], t[0]);
        assert false;
      }
      forall n ensures n in s[1..] <==> n in t[1..] {
        if n in s[1..] {
          var i :| 0 < i < |s| && s[i] == n;
          BeforeAsymmetric(f, s[0], n);
          assert n in t;
        }
        if n in t[1..] {
          var i :| 0 < i < |t| && t[i] == n;
          BeforeAsymmetric(f, t[0], n);
          assert n in s;
        }
      }
      SortedUnique(f, s[1..], t[1..]);
    }
  }
}
