/**
 The link pointers of DOM nodes: unlinking, appending, inserting, and comparing two nodes by document
 order.  `Linked(f)` says that the five pointers of every node encode the forest `f`; each operation
 is proved to turn the encoding of one forest into the encoding of another.
 */
module DomTree {
  import opened Common
  import opened Locks
  import opened DomForest
  import opened DomMoves

  /** The values of the link pointers of a set of nodes. */
  datatype Links = Links(parent: map<Node, Node?>, first: map<Node, Node?>, last: map<Node, Node?>,
                         prev: map<Node, Node?>, next: map<Node, Node?>)

  ghost function LinksOf(s: set<Node>): Links
    reads s`parent, s`firstChild, s`lastChild, s`prevSibling, s`nextSibling
  {
    Links(map n | n in s :: n.parent, map n | n in s :: n.firstChild, map n | n in s :: n.lastChild,
          map n | n in s :: n.prevSibling, map n | n in s :: n.nextSibling)
  }

  /** The two attributes of every node of a set. */
  datatype Attrs = Attrs(cls: map<Node, Option<string>>, id: map<Node, Option<string>>)

  ghost function AttrsOf(s: set<Node>): Attrs
    reads s`classAttr, s`idAttr
  {
    Attrs(map n | n in s :: n.classAttr, map n | n in s :: n.idAttr)
  }

  ghost predicate Over(k: Links, s: set<Node>) {
    k.parent.Keys == s && k.first.Keys == s && k.last.Keys == s && k.prev.Keys == s && k.next.Keys == s
  }

  /** The children `s` of `n` are chained to one another in this order, and `n` knows both ends. */
  ghost predicate ListOk(k: Links, n: Node, s: seq<Node>)
    requires n in k.first && n in k.last
  {
    && k.first[n] == (if s == [] then null else s[0])
    && k.last[n] == (if s == [] then null else s[|s| - 1])
    && ChainedOk(k, s)
  }

  ghost predicate ChainedOk(k: Links, s: seq<Node>) {
    forall i :: 0 <= i < |s| ==> At(k, s, i)
  }

  ghost predicate At(k: Links, s: seq<Node>, i: nat)
    requires i < |s|
  {
    && s[i] in k.prev && s[i] in k.next
    && k.prev[s[i]] == (if i == 0 then null else s[i - 1])
    && k.next[s[i]] == (if i == |s| - 1 then null else s[i + 1])
  }

  ghost predicate ParentOk(k: Links, f: Forest, n: Node)
    requires Over(k, f.kids.Keys) && n in f.kids
  {
    && k.parent[n] == (if n in f.up then f.up[n] else null)
    && (n !in f.up ==> k.prev[n] == null && k.next[n] == null)
  }

  ghost predicate Encodes(k: Links, f: Forest)
    requires Over(k, f.kids.Keys)
  {
    && (forall n {:trigger ParentOk(k, f, n)} :: n in f.kids ==> ParentOk(k, f, n))
    && (forall n {:trigger ListOk(k, n, f.kids[n])} :: n in f.kids ==> ListOk(k, n, f.kids[n]))
  }

  ghost predicate Linked(f: Forest)
    reads f.kids.Keys`parent, f.kids.Keys`firstChild, f.kids.Keys`lastChild
    reads f.kids.Keys`prevSibling, f.kids.Keys`nextSibling
  {
    Wf(f) && forall key {:trigger Open(key)} :: Key(key) ==> Encodes(LinksOf(f.kids.Keys), f)
  }

  lemma OpenLinks(f: Forest)
    requires Linked(f)
    ensures Encodes(LinksOf(f.kids.Keys), f)
  {
    assert Open(true);
  }

  ghost function Detached(f: Forest, c: Node): (g: Forest)
    requires Wf(f) && c in f.kids
    ensures Wf(g) && g.kids.Keys == f.kids.Keys && c !in g.up
    ensures forall n :: n in f.kids && (c !in f.up || n != f.up[c]) ==> g.kids[n] == f.kids[n]
  {
    if c in f.up then CutWf(f, c); Cut(f, c) else f
  }

  /** The forest in which `c`, wherever it was, is the `i`-th child of `p`. */
  ghost function Moved(f: Forest, p: Node, i: nat, c: Node): (g: Forest)
    requires Wf(f) && p in f.kids && c in f.kids && !Under(f, c, p)
    requires i <= |Detached(f, c).kids[p]|
    ensures Wf(g) && g.kids.Keys == f.kids.Keys
  {
    DetachedUnder(f, c, p);
    GraftWf(Detached(f, c), p, i, c);
    Graft(Detached(f, c), p, i, c)
  }

  lemma DetachedUnder(f: Forest, c: Node, p: Node)
    requires Wf(f) && c in f.kids && p in f.kids
    ensures Under(Detached(f, c), c, p) <==> Under(f, c, p)
  {
    if c in f.up {
      CutUngrafts(f, c);
      MovedSubtreeKept(Cut(f, c), f, c, p);
    }
  }

  /** The pointer updates that take `c` out of the child list of `p` turn `k` into `l`. */
  ghost predicate Unlinked(k: Links, l: Links, p: Node, c: Node) {
    && Over(k, k.parent.Keys) && Over(l, k.parent.Keys) && c in k.next
    && (forall n :: n in l.parent ==> l.parent[n] == if n == c then null else k.parent[n])
    && (forall n :: n in l.first ==>
          l.first[n] == if n == p && k.prev[c] == null then k.next[c] else k.first[n])
    && (forall n :: n in l.last ==>
          l.last[n] == if n == p && k.next[c] == null then k.prev[c] else k.last[n])
    && (forall n :: n in l.prev ==>
          l.prev[n] == if n == c then null else if n == k.next[c] then k.prev[c] else k.prev[n])
    && (forall n :: n in l.next ==>
          l.next[n] == if n == c then null else if n == k.prev[c] then k.next[c] else k.next[n])
  }

  /** `t` is `s` with the element at position `x` left out. */
  ghost predicate LacksAt(s: seq<Node>, x: nat, t: seq<Node>) {
    && x < |s| && |t| == |s| - 1
    && (forall i :: 0 <= i < x ==> t[i] == s[i])
    && (forall i :: x <= i < |t| ==> t[i] == s[i + 1])
  }

  lemma SliceLacks(s: seq<Node>, x: nat)
    requires x < |s|
    ensures LacksAt(s, x, s[..x] + s[x + 1..])
  {
  }

  lemma UnlinkList(k: Links, l: Links, p: Node, s: seq<Node>, x: nat, t: seq<Node>)
    requires LacksAt(s, x, t) && Unlinked(k, l, p, s[x])
    requires p in k.first && ListOk(k, p, s) && Distinct(s)
    ensures ListOk(l, p, t)
  {
    assert At(k, s, x);
    forall i | 0 <= i < |t| ensures At(l, t, i) {
      assert At(k, s, if i < x then i else i + 1);
      UnlinkPrev(k, l, p, s, x, t, i);
      UnlinkNext(k, l, p, s, x, t, i);
    }
  }

  lemma UnlinkPrev(k: Links, l: Links, p: Node, s: seq<Node>, x: nat, t: seq<Node>, i: nat)
    requires LacksAt(s, x, t) && Unlinked(k, l, p, s[x]) && Distinct(s) && At(k, s, x)
    requires i < |t| && At(k, s, if i < x then i else i + 1)
    ensures t[i] in l.prev && l.prev[t[i]] == if i == 0 then null else t[i - 1]
  {
  }

  lemma UnlinkNext(k: Links, l: Links, p: Node, s: seq<Node>, x: nat, t: seq<Node>, i: nat)
    requires LacksAt(s, x, t) && Unlinked(k, l, p, s[x]) && Distinct(s) && At(k, s, x)
    requires i < |t| && At(k, s, if i < x then i else i + 1)
    ensures t[i] in l.next && l.next[t[i]] == if i == |t| - 1 then null else t[i + 1]
  {
  }

  lemma UnlinkOtherList(k: Links, l: Links, p: Node, s: seq<Node>, x: nat, n: Node, t: seq<Node>)
    requires x < |s| && Unlinked(k, l, p, s[x])
    requires p in k.first && ListOk(k, p, s)
    requires n in k.first && ListOk(k, n, t) && n != p
    requires forall m :: m in t ==> m !in s
    ensures ListOk(l, n, t)
  {
    assert At(k, s, x);
    forall i | 0 <= i < |t| ensures At(l, t, i) {
      assert At(k, t, i);
      assert t[i] in t;
    }
  }

  lemma UnlinkParent(k: Links, l: Links, f: Forest, g: Forest, p: Node, x: nat, n: Node)
    requires Over(k, f.kids.Keys) && Over(l, g.kids.Keys) && g.kids.Keys == f.kids.Keys
    requires p in f.kids && x < |f.kids[p]| && n in f.kids && KidsOk(f, p)
    requires Unlinked(k, l, p, f.kids[p][x]) && ListOk(k, p, f.kids[p]) && ParentOk(k, f, n)
    requires g.up == f.up - {f.kids[p][x]}
    ensures ParentOk(l, g, n)
  {
    assert At(k, f.kids[p], x);
  }

  lemma KidListsDisjoint(f: Forest, p: Node, n: Node)
    requires p in f.kids && n in f.kids && KidsOk(f, p) && KidsOk(f, n) && n != p
    ensures forall m :: m in f.kids[n] ==> m !in f.kids[p]
  {
  }

  lemma DetachedShape(f: Forest, p: Node, x: nat)
    requires Wf(f) && p in f.kids && x < |f.kids[p]|
    ensures var c := f.kids[p][x]; var s := f.kids[p];
            c in f.kids && Detached(f, c).up == f.up - {c} && Detached(f, c).kids == f.kids[p := s[..x] + s[x + 1..]]
  {
    assert KidsOk(f, p);
    WithoutSplit(f.kids[p], f.kids[p][x], x);
  }

  lemma UnlinkAt(k: Links, l: Links, f: Forest, g: Forest, p: Node, x: nat, n: Node)
    requires p in f.kids && x < |f.kids[p]| && n in f.kids && KidsOk(f, p) && KidsOk(f, n)
    requires Over(k, f.kids.Keys) && ListOk(k, p, f.kids[p]) && ListOk(k, n, f.kids[n]) && ParentOk(k, f, n)
    requires p in g.kids && LacksAt(f.kids[p], x, g.kids[p])
    requires g.up == f.up - {f.kids[p][x]} && g.kids == f.kids[p := g.kids[p]]
    requires Unlinked(k, l, p, f.kids[p][x]) && Over(l, g.kids.Keys)
    ensures ParentOk(l, g, n) && ListOk(l, n, g.kids[n])
  {
    UnlinkParent(k, l, f, g, p, x, n);
    if n != p {
      KidListsDisjoint(f, p, n);
      UnlinkOtherList(k, l, p, f.kids[p], x, n, f.kids[n]);
    } else {
      UnlinkList(k, l, p, f.kids[p], x, g.kids[p]);
    }
  }

  lemma UnlinkEncodes(k: Links, l: Links, f: Forest, c: Node)
    requires Wf(f) && c in f.up && Over(k, f.kids.Keys) && Encodes(k, f)
    requires Unlinked(k, l, f.up[c], c)
    ensures Over(l, Detached(f, c).kids.Keys) && Encodes(l, Detached(f, c))
  {
    assert UpOk(f, c) && KidsOk(f, f.up[c]);
    var p := f.up[c];
    var x :| 0 <= x < |f.kids[p]| && f.kids[p][x] == c;
    DetachedShape(f, p, x);
    SliceLacks(f.kids[p], x);
    forall n | n in f.kids ensures ParentOk(l, Detached(f, c), n) && ListOk(l, n, Detached(f, c).kids[n]) {
      assert KidsOk(f, n) && ListOk(k, n, f.kids[n]) && ParentOk(k, f, n);
      assert ListOk(k, p, f.kids[p]);
      UnlinkAt(k, l, f, Detached(f, c), p, x, n);
    }
  }

  /** The pointer updates of ns_node_detach, for a child that has a parent. */
  method UnlinkPointers(p: Node, child: Node, ghost s: set<Node>)
    requires p in s && child in s && p != child && child.parent == p
    requires child.prevSibling != null ==> child.prevSibling in s && child.prevSibling != child
    requires child.nextSibling != null ==> child.nextSibling in s && child.nextSibling != child
    requires child.prevSibling != null ==> child.prevSibling != child.nextSibling
    modifies s`parent, s`firstChild, s`lastChild, s`prevSibling, s`nextSibling
    ensures AttrsOf(s) == old(AttrsOf(s))
    ensures forall n :: n in s ==> n.parent == if n == child then null else old(n.parent)
    ensures forall n :: n in s ==>
      n.firstChild == if n == p && old(child.prevSibling) == null then old(child.nextSibling) else old(n.firstChild)
    ensures forall n :: n in s ==>
      n.lastChild == if n == p && old(child.nextSibling) == null then old(child.prevSibling) else old(n.lastChild)
    ensures forall n :: n in s ==>
      n.prevSibling ==
      if n == child then null else if n == old(child.nextSibling) then old(child.prevSibling) else old(n.prevSibling)
    ensures forall n :: n in s ==>
      n.nextSibling ==
      if n == child then null else if n == old(child.prevSibling) then old(child.nextSibling) else old(n.nextSibling)
  {
    if child.prevSibling != null {
      child.prevSibling.nextSibling := child.nextSibling;
    } else {
      p.firstChild := child.nextSibling;
    }
    if child.nextSibling != null {
      child.nextSibling.prevSibling := child.prevSibling;
    } else {
      p.lastChild := child.prevSibling;
    }
    child.parent := null;
    child.prevSibling := null;
    child.nextSibling := null;
  }

  /** ns_node_detach */
  method Detach(child: Node, ghost f: Forest)
    requires Linked(f) && child in f.kids
    modifies f.kids.Keys`parent, f.kids.Keys`firstChild, f.kids.Keys`lastChild
    modifies f.kids.Keys`prevSibling, f.kids.Keys`nextSibling
    ensures AttrsOf(f.kids.Keys) == old(AttrsOf(f.kids.Keys))
    ensures Linked(Detached(f, child))
  {
    OpenLinks(f);
    ghost var k := LinksOf(f.kids.Keys);
    assert ParentOk(k, f, child);
    var p := child.parent;
    if p == null { return; }
    assert UpOk(f, child) && KidsOk(f, p);
    ghost var i :| 0 <= i < |f.kids[p]| && f.kids[p][i] == child;
    assert ListOk(k, p, f.kids[p]);
    assert At(k, f.kids[p], i);
    UnlinkPointers(p, child, f.kids.Keys);
    assert Unlinked(k, LinksOf(f.kids.Keys), p, child);
    UnlinkEncodes(k, LinksOf(f.kids.Keys), f, child);
  }

  // ---------- linking ----------

  /** The pointer updates that put `c` between `before` and `after` in the child list of `p`. */
  ghost predicate Inserted(k: Links, l: Links, p: Node, c: Node, before: Node?, after: Node?) {
    && Over(k, k.parent.Keys) && Over(l, k.parent.Keys)
    && (forall n :: n in l.parent ==> l.parent[n] == if n == c then p else k.parent[n])
    && (forall n :: n in l.first ==> l.first[n] == if n == p && before == null then c else k.first[n])
    && (forall n :: n in l.last ==> l.last[n] == if n == p && after == null then c else k.last[n])
    && (forall n :: n in l.prev ==> l.prev[n] == if n == c then before else if n == after then c else k.prev[n])
    && (forall n :: n in l.next ==> l.next[n] == if n == c then after else if n == before then c else k.next[n])
  }

  ghost function NodeBefore(s: seq<Node>, i: nat): Node?
    requires i <= |s|
  {
    if i == 0 then null else s[i - 1]
  }

  ghost function NodeAfter(s: seq<Node>, i: nat): Node?
    requires i <= |s|
  {
    if i == |s| then null else s[i]
  }

  /** `t` is `s` with `c` put in at position `i`. */
  ghost predicate WithAt(s: seq<Node>, i: nat, c: Node, t: seq<Node>) {
    && i <= |s| && |t| == |s| + 1 && t[i] == c
    && (forall j :: 0 <= j < i ==> t[j] == s[j])
    && (forall j :: i < j < |t| ==> t[j] == s[j - 1])
  }

  lemma SliceWith(s: seq<Node>, i: nat, c: Node)
    requires i <= |s|
    ensures WithAt(s, i, c, s[..i] + [c] + s[i..])
  {
  }

  lemma InsertList(k: Links, l: Links, p: Node, s: seq<Node>, i: nat, c: Node, t: seq<Node>)
    requires WithAt(s, i, c, t) && Inserted(k, l, p, c, NodeBefore(s, i), NodeAfter(s, i))
    requires p in k.first && c in k.first && ListOk(k, p, s) && Distinct(s) && c !in s
    ensures ListOk(l, p, t)
  {
    forall j | 0 <= j < |t| ensures At(l, t, j) {
      if j != i { assert At(k, s, if j < i then j else j - 1); }
      InsertPrev(k, l, p, s, i, c, t, j);
      InsertNext(k, l, p, s, i, c, t, j);
    }
  }

  lemma InsertPrev(k: Links, l: Links, p: Node, s: seq<Node>, i: nat, c: Node, t: seq<Node>, j: nat)
    requires WithAt(s, i, c, t) && Inserted(k, l, p, c, NodeBefore(s, i), NodeAfter(s, i))
    requires c in k.first && Distinct(s) && c !in s
    requires j < |t| && (j != i ==> At(k, s, if j < i then j else j - 1))
    ensures t[j] in l.prev && l.prev[t[j]] == if j == 0 then null else t[j - 1]
  {
    if j < i {
      assert s[j] in s;
      assert i < |s| ==> s[j] != s[i];
    } else if j > i {
      assert s[j - 1] in s;
      assert j > i + 1 ==> s[j - 1] != s[i];
    }
  }

  lemma InsertNext(k: Links, l: Links, p: Node, s: seq<Node>, i: nat, c: Node, t: seq<Node>, j: nat)
    requires WithAt(s, i, c, t) && Inserted(k, l, p, c, NodeBefore(s, i), NodeAfter(s, i))
    requires c in k.first && Distinct(s) && c !in s
    requires j < |t| && (j != i ==> At(k, s, if j < i then j else j - 1))
    ensures t[j] in l.next && l.next[t[j]] == if j == |t| - 1 then null else t[j + 1]
  {
    if j < i {
      assert s[j] in s;
      assert j < i - 1 ==> s[j] != s[i - 1];
    } else if j > i {
      assert s[j - 1] in s;
      assert i > 0 ==> s[j - 1] != s[i - 1];
    }
  }

  lemma InsertOtherList(k: Links, l: Links, p: Node, s: seq<Node>, i: nat, c: Node, n: Node, t: seq<Node>)
    requires i <= |s| && Inserted(k, l, p, c, NodeBefore(s, i), NodeAfter(s, i))
    requires n in k.first && ListOk(k, n, t) && n != p
    requires c !in t && forall m :: m in t ==> m !in s
    ensures ListOk(l, n, t)
  {
    forall j | 0 <= j < |t| ensures At(l, t, j) {
      assert At(k, t, j);
      assert t[j] in t;
    }
  }

  lemma InsertParent(k: Links, l: Links, f: Forest, g: Forest, p: Node, i: nat, c: Node, n: Node)
    requires Over(k, f.kids.Keys) && Over(l, g.kids.Keys) && g.kids.Keys == f.kids.Keys
    requires p in f.kids && i <= |f.kids[p]| && n in f.kids && KidsOk(f, p)
    requires Inserted(k, l, p, c, NodeBefore(f.kids[p], i), NodeAfter(f.kids[p], i)) && ParentOk(k, f, n)
    requires g.up == f.up[c := p]
    ensures ParentOk(l, g, n)
  {
    if n !in g.up { NotANeighbour(f, p, i, n); }
  }

  lemma NotANeighbour(f: Forest, p: Node, i: nat, n: Node)
    requires p in f.kids && i <= |f.kids[p]| && KidsOk(f, p) && n !in f.up
    ensures n != NodeBefore(f.kids[p], i) && n != NodeAfter(f.kids[p], i)
  {
  }

  lemma InsertLists(k: Links, l: Links, f: Forest, g: Forest, p: Node, i: nat, c: Node, n: Node)
    requires p in f.kids && n in f.kids && c !in f.up && i <= |f.kids[p]| && KidsOk(f, p) && KidsOk(f, n)
    requires Over(k, f.kids.Keys) && c in f.kids
    requires ListOk(k, p, f.kids[p]) && ListOk(k, n, f.kids[n])
    requires Inserted(k, l, p, c, NodeBefore(f.kids[p], i), NodeAfter(f.kids[p], i))
    requires p in g.kids && WithAt(f.kids[p], i, c, g.kids[p]) && g.kids == f.kids[p := g.kids[p]]
    ensures ListOk(l, n, g.kids[n])
  {
    if n == p {
      InsertList(k, l, p, f.kids[p], i, c, g.kids[p]);
    } else {
      KidListsDisjoint(f, p, n);
      InsertOtherList(k, l, p, f.kids[p], i, c, n, f.kids[n]);
    }
  }

  lemma InsertAllLists(k: Links, l: Links, f: Forest, g: Forest, p: Node, i: nat, c: Node)
    requires forall n {:trigger KidsOk(f, n)} :: n in f.kids ==> KidsOk(f, n)
    requires p in f.kids && c in f.kids && c !in f.up && i <= |f.kids[p]|
    requires Over(k, f.kids.Keys) && Over(l, g.kids.Keys)
    requires forall n {:trigger ListOk(k, n, f.kids[n])} :: n in f.kids ==> ListOk(k, n, f.kids[n])
    requires Inserted(k, l, p, c, NodeBefore(f.kids[p], i), NodeAfter(f.kids[p], i))
    requires p in g.kids && WithAt(f.kids[p], i, c, g.kids[p]) && g.kids == f.kids[p := g.kids[p]]
    ensures forall n :: n in g.kids ==> ListOk(l, n, g.kids[n])
  {
    forall n | n in g.kids ensures ListOk(l, n, g.kids[n]) {
      InsertLists(k, l, f, g, p, i, c, n);
    }
  }

  lemma InsertEncodes(k: Links, l: Links, f: Forest, g: Forest, p: Node, i: nat, c: Node)
    requires forall n {:trigger KidsOk(f, n)} :: n in f.kids ==> KidsOk(f, n)
    requires p in f.kids && c in f.kids && c !in f.up && i <= |f.kids[p]|
    requires Over(k, f.kids.Keys) && Encodes(k, f)
    requires Inserted(k, l, p, c, NodeBefore(f.kids[p], i), NodeAfter(f.kids[p], i))
    requires g.kids == f.kids[p := f.kids[p][..i] + [c] + f.kids[p][i..]] && g.up == f.up[c := p]
    ensures Over(l, g.kids.Keys) && Encodes(l, g)
  {
    SameKeys(f.kids, p, g.kids[p], g.kids);
    SliceWith(f.kids[p], i, c);
    InsertAllLists(k, l, f, g, p, i, c);
    InsertAllParents(k, l, f, g, p, i, c);
  }

  lemma SameKeys(kids: map<Node, seq<Node>>, p: Node, s: seq<Node>, now: map<Node, seq<Node>>)
    requires p in kids && now == kids[p := s]
    ensures now.Keys == kids.Keys
  {
  }

  lemma InsertAllParents(k: Links, l: Links, f: Forest, g: Forest, p: Node, i: nat, c: Node)
    requires Over(k, f.kids.Keys) && Over(l, g.kids.Keys) && g.kids.Keys == f.kids.Keys
    requires p in f.kids && i <= |f.kids[p]| && KidsOk(f, p) && g.up == f.up[c := p]
    requires forall n {:trigger ParentOk(k, f, n)} :: n in f.kids ==> ParentOk(k, f, n)
    requires Inserted(k, l, p, c, NodeBefore(f.kids[p], i), NodeAfter(f.kids[p], i))
    ensures forall n {:trigger ParentOk(l, g, n)} :: n in g.kids ==> ParentOk(l, g, n)
  {
    forall n | n in g.kids ensures ParentOk(l, g, n) {
      InsertParent(k, l, f, g, p, i, c, n);
    }
  }

  ghost predicate CanMove(f: Forest, p: Node, c: Node) {
    Wf(f) && p in f.kids && c in f.kids && !Under(f, c, p)
  }

  /** ns_node_append_child */
  method AppendChild(parent: Node, child: Node, ghost f: Forest)
    requires Linked(f) && CanMove(f, parent, child)
    modifies f.kids.Keys`parent, f.kids.Keys`firstChild, f.kids.Keys`lastChild
    modifies f.kids.Keys`prevSibling, f.kids.Keys`nextSibling
    ensures AttrsOf(f.kids.Keys) == old(AttrsOf(f.kids.Keys))
    ensures Linked(Moved(f, parent, |Detached(f, child).kids[parent]|, child))
  {
    Detach(child, f);
    DetachedUnder(f, child, parent);
    AppendDetached(parent, child, Detached(f, child));
  }

  method AppendDetached(parent: Node, child: Node, ghost g: Forest)
    requires Linked(g) && CanMove(g, parent, child) && child !in g.up
    modifies g.kids.Keys`parent, g.kids.Keys`firstChild, g.kids.Keys`lastChild
    modifies g.kids.Keys`prevSibling, g.kids.Keys`nextSibling
    ensures AttrsOf(g.kids.Keys) == old(AttrsOf(g.kids.Keys))
    ensures Linked(Graft(g, parent, |g.kids[parent]|, child))
  {
    OpenLinks(g);
    ghost var k := LinksOf(g.kids.Keys);
    ghost var s := g.kids[parent];
    assert ListOk(k, parent, s) && ParentOk(k, g, child) && KidsOk(g, parent);
    LinkLast(parent, child, g.kids.Keys);
    assert Inserted(k, LinksOf(g.kids.Keys), parent, child, NodeBefore(s, |s|), NodeAfter(s, |s|));
    InsertEncodes(k, LinksOf(g.kids.Keys), g, Graft(g, parent, |s|, child), parent, |s|, child);
    GraftWf(g, parent, |s|, child);
  }

  method LinkLast(parent: Node, child: Node, ghost s: set<Node>)
    requires parent in s && child in s && parent != child
    requires child.nextSibling == null
    requires parent.lastChild != null ==> parent.lastChild in s && parent.lastChild != child
    modifies s`parent, s`firstChild, s`lastChild, s`prevSibling, s`nextSibling
    ensures AttrsOf(s) == old(AttrsOf(s))
    ensures forall n :: n in s ==> n.parent == if n == child then parent else old(n.parent)
    ensures forall n :: n in s ==>
      n.firstChild == if n == parent && old(parent.lastChild) == null then child else old(n.firstChild)
    ensures forall n :: n in s ==> n.lastChild == if n == parent then child else old(n.lastChild)
    ensures forall n :: n in s ==>
      n.prevSibling == if n == child then old(parent.lastChild) else old(n.prevSibling)
    ensures forall n :: n in s ==>
      n.nextSibling == if n == child then null else if n == old(parent.lastChild) then child else old(n.nextSibling)
  {
    child.parent := parent;
    child.prevSibling := parent.lastChild;
    if parent.lastChild != null {
      parent.lastChild.nextSibling := child;
    } else {
      parent.firstChild := child;
    }
    parent.lastChild := child;
  }

  /** ns_element_insert_before_single of src/js.c */
  method InsertBefore(parent: Node, newc: Node, ref: Node, ghost f: Forest, ghost i: nat)
    requires Linked(f) && CanMove(f, parent, newc) && ref in f.kids
    requires newc != ref ==> i < |Detached(f, newc).kids[parent]| && Detached(f, newc).kids[parent][i] == ref
    modifies f.kids.Keys`parent, f.kids.Keys`firstChild, f.kids.Keys`lastChild
    modifies f.kids.Keys`prevSibling, f.kids.Keys`nextSibling
    ensures AttrsOf(f.kids.Keys) == old(AttrsOf(f.kids.Keys))
    ensures newc == ref ==> Linked(f)
    ensures newc != ref ==> Linked(Moved(f, parent, i, newc))
  {
    if newc == ref { return; }
    LinkedParent(f, newc);
    if newc.parent != null {
      Detach(newc, f);
    }
    DetachedUnder(f, newc, parent);
    InsertDetached(parent, newc, ref, Detached(f, newc), i);
  }

  /** The place of a child among its siblings once another node is taken out. */
  lemma RefPosition(f: Forest, parent: Node, newc: Node, ref: Node) returns (i: nat)
    requires Wf(f) && newc in f.kids && ref in f.kids && ref in f.up && f.up[ref] == parent && newc != ref
    ensures parent in f.kids && i < |Detached(f, newc).kids[parent]| && Detached(f, newc).kids[parent][i] == ref
  {
    assert UpOk(f, ref);
    assert UpOk(Detached(f, newc), ref);
    i :| 0 <= i < |Detached(f, newc).kids[parent]| && Detached(f, newc).kids[parent][i] == ref;
  }

  method InsertDetached(parent: Node, newc: Node, ref: Node, ghost g: Forest, ghost i: nat)
    requires Linked(g) && CanMove(g, parent, newc) && newc !in g.up
    requires i < |g.kids[parent]| && g.kids[parent][i] == ref && newc != ref
    modifies g.kids.Keys`parent, g.kids.Keys`firstChild, g.kids.Keys`lastChild
    modifies g.kids.Keys`prevSibling, g.kids.Keys`nextSibling
    ensures AttrsOf(g.kids.Keys) == old(AttrsOf(g.kids.Keys))
    ensures Linked(Graft(g, parent, i, newc))
  {
    OpenLinks(g);
    ghost var k := LinksOf(g.kids.Keys);
    ghost var s := g.kids[parent];
    assert ListOk(k, parent, s) && ParentOk(k, g, newc) && KidsOk(g, parent);
    assert At(k, s, i);
    LinkBefore(parent, newc, ref, g.kids.Keys);
    assert Inserted(k, LinksOf(g.kids.Keys), parent, newc, NodeBefore(s, i), NodeAfter(s, i));
    InsertEncodes(k, LinksOf(g.kids.Keys), g, Graft(g, parent, i, newc), parent, i, newc);
    GraftWf(g, parent, i, newc);
  }

  method LinkBefore(parent: Node, newc: Node, ref: Node, ghost s: set<Node>)
    requires parent in s && newc in s && ref in s && newc != ref && parent != newc
    requires ref.prevSibling != null ==> ref.prevSibling in s && ref.prevSibling != newc && ref.prevSibling != ref
    modifies s`parent, s`firstChild, s`lastChild, s`prevSibling, s`nextSibling
    ensures AttrsOf(s) == old(AttrsOf(s))
    ensures forall n :: n in s ==> n.parent == if n == newc then parent else old(n.parent)
    ensures forall n :: n in s ==>
      n.firstChild == if n == parent && old(ref.prevSibling) == null then newc else old(n.firstChild)
    ensures forall n :: n in s ==> n.lastChild == old(n.lastChild)
    ensures forall n :: n in s ==>
      n.prevSibling == if n == newc then old(ref.prevSibling) else if n == ref then newc else old(n.prevSibling)
    ensures forall n :: n in s ==>
      n.nextSibling == if n == newc then ref else if n == old(ref.prevSibling) then newc else old(n.nextSibling)
  {
    newc.parent := parent;
    newc.nextSibling := ref;
    newc.prevSibling := ref.prevSibling;
    if ref.prevSibling != null {
      ref.prevSibling.nextSibling := newc;
    } else {
      parent.firstChild := newc;
    }
    ref.prevSibling := newc;
  }

  // ---------- reading the tree through its pointers ----------

  lemma LinkedParent(f: Forest, n: Node)
    requires Linked(f) && n in f.kids
    ensures n.parent == if n in f.up then f.up[n] else null
    ensures n in f.up ==> UpOk(f, n)
    ensures n !in f.up ==> n.prevSibling == null && n.nextSibling == null
  {
    OpenLinks(f);
    assert ParentOk(LinksOf(f.kids.Keys), f, n);
    if n in f.up { assert UpOk(f, n); }
  }

  lemma LinkedKids(f: Forest, n: Node)
    requires Linked(f) && n in f.kids
    ensures KidsOk(f, n)
    ensures n.firstChild == if f.kids[n] == [] then null else f.kids[n][0]
    ensures n.lastChild == if f.kids[n] == [] then null else f.kids[n][|f.kids[n]| - 1]
  {
    OpenLinks(f);
    assert ListOk(LinksOf(f.kids.Keys), n, f.kids[n]) && KidsOk(f, n);
  }

  lemma LinkedSibling(f: Forest, n: Node, i: nat)
    requires Linked(f) && n in f.kids && i < |f.kids[n]|
    ensures f.kids[n][i] in f.kids
    ensures f.kids[n][i].prevSibling == if i == 0 then null else f.kids[n][i - 1]
    ensures f.kids[n][i].nextSibling == if i == |f.kids[n]| - 1 then null else f.kids[n][i + 1]
  {
    OpenLinks(f);
    var k := LinksOf(f.kids.Keys);
    assert ListOk(k, n, f.kids[n]) && KidsOk(f, n);
    assert At(k, f.kids[n], i);
  }

  ghost function NthKid(f: Forest, n: Node, i: nat): Node?
    requires n in f.kids
  {
    if i < |f.kids[n]| then f.kids[n][i] else null
  }


  lemma FirstKid(f: Forest, n: Node)
    requires Linked(f) && n in f.kids
    ensures n.firstChild == NthKid(f, n, 0)
  {
    LinkedKids(f, n);
  }


  /** ns_node_contains */
  method Contains(ancestor: Node, node: Node, ghost f: Forest) returns (found: bool)
    requires Linked(f) && node in f.kids
    ensures found <==> Under(f, ancestor, node)
  {
    var p: Node? := node;
    while p != null
      invariant p != null ==> p in f.kids && (Under(f, ancestor, node) <==> Under(f, ancestor, p))
      invariant p == null ==> !Under(f, ancestor, node)
      decreases if p == null then 0 else f.rank[p] + 1
    {
      UnderStep(f, ancestor, p);
      if p == ancestor { return true; }
      LinkedParent(f, p);
      p := p.parent;
    }
    return false;
  }

  method Depth(n: Node, ghost f: Forest) returns (d: nat)
    requires Linked(f) && n in f.kids
    ensures d == |Chain(f, n)| && d >= 1
  {
    d := 0;
    var p: Node? := n;
    while p != null
      invariant p != null ==> p in f.kids && d + |Chain(f, p)| == |Chain(f, n)|
      invariant p == null ==> d == |Chain(f, n)|
      decreases if p == null then 0 else f.rank[p] + 1
    {
      LinkedParent(f, p);
      d := d + 1;
      p := p.parent;
    }
  }

  lemma NotBeforeItself(f: Forest, a: Node)
    requires Wf(f) && a in f.kids
    ensures !Before(f, a, a)
  {
    if Before(f, a, a) { BeforeAsymmetric(f, a, a); }
  }

  lemma StepUp(f: Forest, a: Node, i: nat)
    requires Linked(f) && a in f.kids && 1 <= i < |Chain(f, a)|
    ensures Chain(f, a)[i] in f.kids && Chain(f, a)[i].parent == Chain(f, a)[i - 1]
  {
    ChainPrefix(f, a, i);
    ChainLink(f, a, i - 1);
    LinkedParent(f, Chain(f, a)[i]);
  }

  lemma SharedAncestor(f: Forest, a: Node, b: Node, i: nat)
    requires Wf(f) && a in f.kids && b in f.kids && a != b
    requires i < |Chain(f, a)| && i < |Chain(f, b)| && Chain(f, a)[i] == Chain(f, b)[i]
    requires i == |Chain(f, a)| - 1 || i == |Chain(f, b)| - 1
    ensures |Chain(f, a)| < |Chain(f, b)| ==> Before(f, a, b) && !Before(f, b, a)
    ensures |Chain(f, a)| >= |Chain(f, b)| ==> Before(f, b, a) && !Before(f, a, b)
  {
    if i == |Chain(f, a)| - 1 {
      AncestorBefore(f, a, b);
      BeforeAsymmetric(f, a, b);
      ChainPosition(f, b, i);
    } else {
      AncestorBefore(f, b, a);
      BeforeAsymmetric(f, b, a);
    }
  }

  /** Where the chains first differ, the order of the siblings is the order of the nodes. */
  lemma BranchesDecide(f: Forest, a: Node, b: Node, i: nat)
    requires Wf(f) && a in f.kids && b in f.kids
    requires i < |Chain(f, a)| && i < |Chain(f, b)|
    requires Chain(f, a)[i] != Chain(f, b)[i]
    requires i > 0 ==> Chain(f, a)[i - 1] == Chain(f, b)[i - 1]
    ensures Before(f, a, b) <==> SiblingBefore(f, Chain(f, a)[i], Chain(f, b)[i])
  {
    var x, y := Chain(f, a), Chain(f, b);
    if i > 0 {
      ChainPrefix(f, a, i - 1);
      ChainPrefix(f, b, i - 1);
      forall t | 0 <= t < i ensures x[t] == y[t] {
        assert x[..i][t] == y[..i][t];
      }
    }
    if SiblingBefore(f, x[i], y[i]) {
      assert SplitsAt(f, x, y, i);
    }
    if Before(f, a, b) {
      var k: nat :| SplitsAt(f, x, y, k);
      if k < i { SiblingAsymmetric(f, x[k], y[k]); }
      assert k == i;
    }
  }

  /** The ancestor of `n` whose depth is `depth`, where `n` has depth `from`. */
  method Climb(n: Node, from: nat, depth: nat, ghost f: Forest) returns (m: Node)
    requires Linked(f) && n in f.kids && from == |Chain(f, n)| && 1 <= depth <= from
    ensures m == Chain(f, n)[depth - 1]
  {
    m := n;
    var x := from;
    while x > depth
      invariant depth <= x <= from && m == Chain(f, n)[x - 1]
    {
      StepUp(f, n, x - 1);
      m := m.parent;
      x := x - 1;
    }
  }

  /** The first half of ns_node_document_order_cmp: the depths of both nodes, and the ancestors of both at
      the smaller of these depths. */
  method LevelAncestors(a: Node, b: Node, ghost f: Forest)
    returns (da: nat, db: nat, ca: Node, cb: Node, ghost i: nat)
    requires Linked(f) && a in f.kids && b in f.kids
    ensures da == |Chain(f, a)| && db == |Chain(f, b)| && i < da && i < db && (i == da - 1 || i == db - 1)
    ensures ca == Chain(f, a)[i] && cb == Chain(f, b)[i]
  {
    da := Depth(a, f);
    db := Depth(b, f);
    var depth := if da < db then da else db;
    ca := Climb(a, da, depth, f);
    cb := Climb(b, db, depth, f);
    i := depth - 1;
  }

  /** ns_node_document_order_cmp: negative, positive or zero as `a` comes before `b` in document order,
      comes after it, or is not ordered relative to it. */
  method DocumentOrderCmp(a: Node, b: Node, ghost f: Forest) returns (r: int)
    requires Linked(f) && a in f.kids && b in f.kids
    ensures r < 0 <==> Before(f, a, b)
    ensures r > 0 <==> Before(f, b, a)
  {
    if a == b {
      NotBeforeItself(f, a);
      r := 0;
    } else {
      var da, db, ca, cb, i := LevelAncestors(a, b, f);
      if ca == cb {
        SharedAncestor(f, a, b, i);
        r := if da < db then -1 else 1;
      } else {
        r := CompareBranches(a, b, ca, cb, i, f);
      }
    }
  }

  /** The second half of ns_node_document_order_cmp: climb from two different ancestors at depth `i`
      until they are siblings. */
  method CompareBranches(ghost a: Node, ghost b: Node, ca0: Node, cb0: Node, ghost i0: nat, ghost f: Forest)
    returns (r: int)
    requires Linked(f) && a in f.kids && b in f.kids && ca0 != cb0
    requires i0 < |Chain(f, a)| && i0 < |Chain(f, b)| && ca0 == Chain(f, a)[i0] && cb0 == Chain(f, b)[i0]
    ensures r < 0 <==> Before(f, a, b)
    ensures r > 0 <==> Before(f, b, a)
  {
    var ca, cb := ca0, cb0;
    ghost var i := i0;
    ChainPosition(f, a, i);
    ChainPosition(f, b, i);
    while ca.parent != cb.parent
      invariant 0 <= i <= i0 && ca == Chain(f, a)[i] && cb == Chain(f, b)[i] && ca != cb
      invariant ca in f.kids && cb in f.kids
      decreases i
    {
      if i == 0 {
        ChainRoot(f, a);
        ChainRoot(f, b);
        LinkedParent(f, ca);
        LinkedParent(f, cb);
      }
      StepUp(f, a, i);
      StepUp(f, b, i);
      ca := ca.parent;
      cb := cb.parent;
      i := i - 1;
      ChainPosition(f, a, i);
      ChainPosition(f, b, i);
    }
    if i > 0 {
      StepUp(f, a, i);
      StepUp(f, b, i);
    }
    BranchesDecide(f, a, b, i);
    BranchesDecide(f, b, a, i);
    r := CompareSiblings(ca, cb, f);
  }

  /** The last part of ns_node_document_order_cmp: two nodes with the same parent are compared by looking
      at the ends of the child list and then in both directions from `ca`. */
  method CompareSiblings(ca: Node, cb: Node, ghost f: Forest) returns (r: int)
    requires Linked(f) && ca in f.kids && cb in f.kids && ca != cb && ca.parent == cb.parent
    ensures r < 0 <==> SiblingBefore(f, ca, cb)
    ensures r > 0 <==> SiblingBefore(f, cb, ca)
  {
    LinkedParent(f, ca);
    LinkedParent(f, cb);
    var par := ca.parent;
    ghost var i, j := 0, 0;
    if par != null {
      LinkedKids(f, par);
      i :| 0 <= i < |f.kids[par]| && f.kids[par][i] == ca;
      j :| 0 <= j < |f.kids[par]| && f.kids[par][j] == cb;
      SiblingIndices(f, ca, cb, par, i, j);
      if ca == par.firstChild || cb == par.lastChild { return -1; }
      if cb == par.firstChild || ca == par.lastChild { return 1; }
    }
    r := ScanSiblings(ca, cb, par, i, j, f);
  }

  /** The sibling scan: step away from `ca` in both directions at once until `cb` turns up. */
  method ScanSiblings(ca: Node, cb: Node, ghost par: Node?, ghost i: nat, ghost j: nat, ghost f: Forest) returns (r: int)
    requires Linked(f) && ca in f.kids && ca != cb
    requires par == null ==> ca.prevSibling == null && ca.nextSibling == null
    requires par != null ==> par in f.kids && i < |f.kids[par]| && j < |f.kids[par]|
    requires par != null ==> f.kids[par][i] == ca && f.kids[par][j] == cb && Distinct(f.kids[par])
    ensures r < 0 <==> par != null && i < j
    ensures r > 0 <==> par != null && j < i
  {
    ghost var s := if par == null then [] else f.kids[par];
    if par != null { LinkedSibling(f, par, i); }
    var fwd, back := ca.nextSibling, ca.prevSibling;
    ghost var t := 1;
    while fwd != null || back != null
      invariant t >= 1
      invariant par == null ==> fwd == null && back == null
      invariant par != null ==> fwd == (if i + t < |s| then s[i + t] else null)
      invariant par != null ==> back == (if t <= i then s[i - t] else null)
      invariant par != null ==> j <= i - t || i + t <= j
      decreases |s| - t
    {
      if fwd == cb { return -1; }
      if back == cb { return 1; }
      if fwd != null { LinkedSibling(f, par, i + t); fwd := fwd.nextSibling; }
      if back != null { LinkedSibling(f, par, i - t); back := back.prevSibling; }
      t := t + 1;
    }
    return 0;
  }

  lemma SiblingIndices(f: Forest, x: Node, y: Node, p: Node, i: nat, j: nat)
    requires Wf(f) && p in f.kids && x in f.up && y in f.up && f.up[x] == p && f.up[y] == p
    requires i < |f.kids[p]| && j < |f.kids[p]| && f.kids[p][i] == x && f.kids[p][j] == y
    ensures SiblingBefore(f, x, y) <==> i < j
    ensures SiblingBefore(f, y, x) <==> j < i
  {
    assert KidsOk(f, p);
  }
}
