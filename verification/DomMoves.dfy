/**
 What linking and unlinking one subtree does to a forest: the moved subtree aside, every chain of
 ancestors and the document order of every two nodes stay as they were.
 */
module DomMoves {
  import opened DomForest

  /** The forest after `c` is taken out of its parent's children. */
  ghost function Cut(f: Forest, c: Node): Forest
    requires Wf(f) && c in f.up
  {
    assert UpOk(f, c);
    f.(kids := f.kids[f.up[c] := Without(f.kids[f.up[c]], c)], up := f.up - {c})
  }

  ghost function Without(s: seq<Node>, c: Node): seq<Node> {
    if s == [] then [] else if s[0] == c then s[1..] else [s[0]] + Without(s[1..], c)
  }

  /** The forest after the root `c` becomes the `i`-th child of `p`. */
  ghost function Graft(f: Forest, p: Node, i: nat, c: Node): Forest
    requires Wf(f) && p in f.kids && c in f.kids && i <= |f.kids[p]|
  {
    Forest(f.kids[p := f.kids[p][..i] + [c] + f.kids[p][i..]],
           f.up[c := p],
           map n | n in f.rank :: f.rank[n] + (if Under(f, c, n) then f.rank[p] + 1 else 0),
           f.bound + f.rank[p] + 1)
  }

  lemma {:induction false} WithoutSplit(s: seq<Node>, c: Node, i: nat)
    requires Distinct(s) && i < |s| && s[i] == c
    ensures Without(s, c) == s[..i] + s[i + 1..]
  {
    if s[0] == c {
      assert i == 0;
    } else {
      WithoutSplit(s[1..], c, i - 1);
      assert s[..i] == [s[0]] + s[1..][..i - 1];
    }
  }

  lemma CutWf(f: Forest, c: Node)
    requires Wf(f) && c in f.up
    ensures Wf(Cut(f, c)) && Cut(f, c).kids.Keys == f.kids.Keys
  {
    assert UpOk(f, c);
    var g := Cut(f, c);
    forall n | n in g.kids ensures KidsOk(g, n) {
      CutKids(f, c, n);
    }
    forall x | x in g.up ensures UpOk(g, x) {
      CutUp(f, c, x);
    }
  }

  lemma WithoutMembers(s: seq<Node>, c: Node, x: Node)
    requires Distinct(s) && c in s
    ensures Distinct(Without(s, c))
    ensures x in Without(s, c) <==> x in s && x != c
  {
    var i :| 0 <= i < |s| && s[i] == c;
    WithoutSplit(s, c, i);
    if x in s && x != c {
      var j :| 0 <= j < |s| && s[j] == x;
      assert x == Without(s, c)[if j < i then j else j - 1];
    }
  }

  lemma CutKids(f: Forest, c: Node, n: Node)
    requires Wf(f) && c in f.up && n in f.kids
    ensures n in Cut(f, c).kids && KidsOk(Cut(f, c), n)
  {
    assert UpOk(f, c);
    assert KidsOk(f, n);
    if n == f.up[c] {
      var s := f.kids[n];
      WithoutMembers(s, c, c);
      forall i | 0 <= i < |Without(s, c)|
        ensures Without(s, c)[i] in s && Without(s, c)[i] != c {
        WithoutMembers(s, c, Without(s, c)[i]);
      }
    }
  }

  lemma CutUp(f: Forest, c: Node, x: Node)
    requires Wf(f) && c in f.up && x in f.up && x != c
    ensures UpOk(Cut(f, c), x)
  {
    assert UpOk(f, c);
    assert UpOk(f, x);
    assert KidsOk(f, f.up[c]);
    WithoutMembers(f.kids[f.up[c]], c, x);
  }

  lemma GraftWf(f: Forest, p: Node, i: nat, c: Node)
    requires Wf(f) && p in f.kids && c in f.kids && i <= |f.kids[p]|
    requires c !in f.up && !Under(f, c, p)
    ensures Wf(Graft(f, p, i, c)) && Graft(f, p, i, c).kids.Keys == f.kids.Keys
  {
    var g := Graft(f, p, i, c);
    forall n | n in g.kids ensures KidsOk(g, n) {
      assert KidsOk(f, n);
      assert KidsOk(f, p);
    }
    assert g.kids[p][i] == c;
    forall x | x in g.up ensures UpOk(g, x) {
      if x != c { GraftUp(f, p, i, c, x); }
    }
  }

  lemma GraftUp(f: Forest, p: Node, i: nat, c: Node, x: Node)
    requires Wf(f) && p in f.kids && c in f.kids && i <= |f.kids[p]|
    requires c !in f.up && !Under(f, c, p) && x in f.up
    ensures UpOk(Graft(f, p, i, c), x)
  {
    var g := Graft(f, p, i, c);
    assert UpOk(f, x);
    UnderStep(f, c, x);
    if f.up[x] == p {
      var j :| 0 <= j < |f.kids[p]| && f.kids[p][j] == x;
      assert x == g.kids[p][if j < i then j else j + 1];
    }
  }

  /** One forest arises from the other by grafting the root `c`. */
  ghost predicate Grafted(f: Forest, g: Forest, c: Node) {
    && Wf(f) && Wf(g)
    && c in f.kids && c !in f.up && c in g.up && f.kids.Keys == g.kids.Keys
    && g.up.Keys == f.up.Keys + {c}
    && (forall x :: x in f.up ==> g.up[x] == f.up[x])
    && (forall x, y :: x in f.kids && y in f.kids && x != c && y != c ==>
          (SiblingBefore(f, x, y) <==> SiblingBefore(g, x, y)))
  }

  lemma SiblingsKept(f: Forest, g: Forest, p: Node, i: nat, c: Node, x: Node, y: Node)
    requires p in f.kids && p in g.kids && i <= |f.kids[p]| && x != c && y != c
    requires g.kids[p] == f.kids[p][..i] + [c] + f.kids[p][i..]
    requires SiblingPair(f, x, y) <==> SiblingPair(g, x, y)
    requires SiblingPair(f, x, y) ==> f.up[x] == g.up[x]
    requires SiblingPair(f, x, y) && f.up[x] != p ==> f.kids[f.up[x]] == g.kids[f.up[x]]
    ensures SiblingBefore(f, x, y) <==> SiblingBefore(g, x, y)
  {
    if SiblingPair(f, x, y) && f.up[x] == p {
      var s, t := f.kids[p], g.kids[p];
      if SiblingBefore(f, x, y) {
        var a, b :| 0 <= a < b < |s| && s[a] == x && s[b] == y;
        assert t[if a < i then a else a + 1] == x && t[if b < i then b else b + 1] == y;
      }
      if SiblingBefore(g, x, y) {
        var a, b :| 0 <= a < b < |t| && t[a] == x && t[b] == y;
        assert s[if a < i then a else a - 1] == x && s[if b < i then b else b - 1] == y;
      }
    }
  }

  ghost predicate SiblingPair(f: Forest, x: Node, y: Node) {
    x in f.up && y in f.up && f.up[x] == f.up[y] && f.up[x] in f.kids
  }

  lemma GraftGrafts(f: Forest, p: Node, i: nat, c: Node)
    requires Wf(f) && p in f.kids && c in f.kids && i <= |f.kids[p]|
    requires c !in f.up && !Under(f, c, p)
    ensures Grafted(f, Graft(f, p, i, c), c)
  {
    var g := Graft(f, p, i, c);
    GraftWf(f, p, i, c);
    forall x, y | x in f.kids && y in f.kids && x != c && y != c
      ensures SiblingBefore(f, x, y) <==> SiblingBefore(g, x, y) {
      SiblingsKept(f, g, p, i, c, x, y);
    }
  }

  lemma CutShape(f: Forest, p: Node, x: nat)
    requires Wf(f) && p in f.kids && x < |f.kids[p]|
    ensures f.kids[p][x] in f.up && f.up[f.kids[p][x]] == p && f.kids[p][x] in f.kids
    ensures Cut(f, f.kids[p][x]).kids[p] == f.kids[p][..x] + f.kids[p][x + 1..]
    ensures var t := Cut(f, f.kids[p][x]).kids[p]; f.kids[p] == t[..x] + [f.kids[p][x]] + t[x..]
  {
    assert KidsOk(f, p);
    WithoutSplit(f.kids[p], f.kids[p][x], x);
  }

  lemma CutSiblings(f: Forest, p: Node, i: nat, x: Node, y: Node)
    requires Wf(f) && p in f.kids && i < |f.kids[p]|
    requires var c := f.kids[p][i]; c in f.up && x != c && y != c
    ensures SiblingBefore(Cut(f, f.kids[p][i]), x, y) <==> SiblingBefore(f, x, y)
  {
    CutShape(f, p, i);
    SiblingsKept(Cut(f, f.kids[p][i]), f, p, i, f.kids[p][i], x, y);
  }

  lemma CutUngrafts(f: Forest, c: Node)
    requires Wf(f) && c in f.up
    ensures Grafted(Cut(f, c), f, c)
  {
    CutWf(f, c);
    assert UpOk(f, c);
    var p := f.up[c];
    var i :| 0 <= i < |f.kids[p]| && f.kids[p][i] == c;
    forall x, y | x in f.kids && y in f.kids && x != c && y != c
      ensures SiblingBefore(Cut(f, c), x, y) <==> SiblingBefore(f, x, y) {
      CutSiblings(f, p, i, x, y);
    }
  }

  /** The chain of a node outside the moved subtree is the same in both forests. */
  lemma {:induction false} ChainKept(f: Forest, g: Forest, c: Node, n: Node)
    requires Grafted(f, g, c) && n in f.kids && (!Under(f, c, n) || !Under(g, c, n))
    ensures Chain(g, n) == Chain(f, n)
    decreases g.rank[n]
  {
    assert n in g.rank;
    if n in f.up {
      assert UpOk(f, n) && UpOk(g, n);
      ChainKept(f, g, c, f.up[n]);
    }
  }

  lemma SplitKept(f: Forest, g: Forest, c: Node, x: seq<Node>, y: seq<Node>, k: nat)
    requires Grafted(f, g, c) && c !in x && c !in y
    requires forall i :: 0 <= i < |x| ==> x[i] in f.kids
    requires forall i :: 0 <= i < |y| ==> y[i] in f.kids
    ensures SplitsAt(f, x, y, k) <==> SplitsAt(g, x, y, k)
  {
    if k < |x| && k < |y| {
      assert x[k] in x && y[k] in y;
      assert SiblingBefore(f, x[k], y[k]) <==> SiblingBefore(g, x[k], y[k]);
    }
  }

  /** Moving a subtree does not reorder the nodes outside it. */
  lemma OrderKept(f: Forest, g: Forest, c: Node, a: Node, b: Node)
    requires Grafted(f, g, c) && a in f.kids && b in f.kids
    requires (!Under(f, c, a) || !Under(g, c, a)) && (!Under(f, c, b) || !Under(g, c, b))
    ensures Before(f, a, b) <==> Before(g, a, b)
  {
    ChainKept(f, g, c, a);
    ChainKept(f, g, c, b);
    var x, y := Chain(f, a), Chain(f, b);
    forall i | 0 <= i < |x| ensures x[i] in f.kids { ChainPrefix(f, a, i); }
    forall i | 0 <= i < |y| ensures y[i] in f.kids { ChainPrefix(f, b, i); }
    forall k: nat ensures SplitsAt(f, x, y, k) <==> SplitsAt(g, x, y, k) {
      SplitKept(f, g, c, x, y, k);
    }
  }

  /** Which nodes lie in the moved subtree does not change. */
  lemma {:induction false} MovedSubtreeKept(f: Forest, g: Forest, c: Node, n: Node)
    requires Grafted(f, g, c) && n in f.kids
    ensures Under(f, c, n) <==> Under(g, c, n)
    decreases g.rank[n]
  {
    UnderStep(f, c, n);
    UnderStep(g, c, n);
    if n in f.up {
      assert UpOk(g, n);
      MovedSubtreeKept(f, g, c, f.up[n]);
    }
  }

  // ---------- inside the moved subtree ----------

  /** The chain of a node inside grows by the chain of the new parent. */
  lemma {:induction false} ChainInside(f: Forest, g: Forest, c: Node, n: Node)
    requires Grafted(f, g, c) && n in f.kids && Under(f, c, n)
    ensures g.up[c] in g.kids && Chain(g, n) == Chain(g, g.up[c]) + Chain(f, n)
    ensures Chain(f, n)[0] == c
    decreases f.rank[n]
  {
    assert UpOk(g, c);
    UnderStep(f, c, n);
    if n == c {
      assert Chain(f, c) == [c];
    } else {
      assert UpOk(f, n) && UpOk(g, n);
      ChainInside(f, g, c, f.up[n]);
      assert Chain(g, g.up[c]) + (Chain(f, f.up[n]) + [n]) == Chain(g, g.up[c]) + Chain(f, f.up[n]) + [n];
    }
  }

  lemma SplitInside(f: Forest, g: Forest, c: Node, above: seq<Node>, x: seq<Node>, y: seq<Node>, k: nat)
    requires Grafted(f, g, c) && x != [] && y != [] && x[0] == c && y[0] == c
    requires forall i :: 1 <= i < |x| ==> x[i] in f.kids && x[i] != c
    requires forall i :: 1 <= i < |y| ==> y[i] in f.kids && y[i] != c
    ensures SplitsAt(f, x, y, k) <==> SplitsAt(g, above + x, above + y, |above| + k)
  {
    var u, w := above + x, above + y;
    assert forall t :: 0 <= t < |x| ==> u[|above| + t] == x[t];
    assert forall t :: 0 <= t < |y| ==> w[|above| + t] == y[t];
    if SplitsAt(g, u, w, |above| + k) {
      forall t | 0 <= t < k ensures x[t] == y[t] { assert u[|above| + t] == w[|above| + t]; }
    }
    if SplitsAt(f, x, y, k) {
      forall t | 0 <= t < |above| + k ensures u[t] == w[t] {
        if t >= |above| { assert x[t - |above|] == y[t - |above|]; }
      }
    }
    if k == 0 {
      if SiblingBefore(f, c, c) { SiblingAsymmetric(f, c, c); }
      if SiblingBefore(g, c, c) { SiblingAsymmetric(g, c, c); }
    }
  }

  /** Nor does moving a subtree reorder the nodes inside it. */
  lemma OrderKeptInside(f: Forest, g: Forest, c: Node, a: Node, b: Node)
    requires Grafted(f, g, c) && a in f.kids && b in f.kids && Under(f, c, a) && Under(f, c, b)
    ensures Before(f, a, b) <==> Before(g, a, b)
  {
    ChainInside(f, g, c, a);
    ChainInside(f, g, c, b);
    var above, x, y := Chain(g, g.up[c]), Chain(f, a), Chain(f, b);
    OnlyFirst(f, a, c);
    OnlyFirst(f, b, c);
    forall k: nat ensures SplitsAt(f, x, y, k) <==> SplitsAt(g, above + x, above + y, |above| + k) {
      SplitInside(f, g, c, above, x, y, k);
    }
    if Before(g, a, b) {
      var m: nat :| SplitsAt(g, above + x, above + y, m);
      if m < |above| {
        assert (above + x)[m] == above[m] && (above + y)[m] == above[m];
        SiblingAsymmetric(g, above[m], above[m]);
      } else {
        var k: nat := m - |above|;
        assert m == |above| + k;
        assert SplitsAt(f, x, y, k);
      }
    }
  }

  lemma OnlyFirst(f: Forest, n: Node, c: Node)
    requires Wf(f) && n in f.kids && Chain(f, n)[0] == c
    ensures forall i :: 1 <= i < |Chain(f, n)| ==> Chain(f, n)[i] in f.kids && Chain(f, n)[i] != c
  {
    ChainPosition(f, n, 0);
    forall i | 1 <= i < |Chain(f, n)| ensures Chain(f, n)[i] in f.kids && Chain(f, n)[i] != c { ChainPosition(f, n, i); }
  }
}
