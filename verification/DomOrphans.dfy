/**
 Ordinary scripts, step by step: creating an element, naming it and appending it, and removing elements that share an
 id. They show what the conditions of DomDocument come to.
 */
module DomOrphans {
  import opened Common
  import opened DomForest
  import opened DomMoves
  import opened DomVisible
  import opened DomTree
  import opened DomScene
  import opened DomIndex
  import opened DomIndexWalk
  import opened DomIds
  import opened DomDocument

  /** Nodes without any links */
  ghost function Roots(s: set<Node>): Forest {
    Forest(map n | n in s :: [], map[], map n | n in s :: 0, 1)
  }

  ghost function SeenAs(s: set<Node>): Views
    reads s`classAttr, s`idAttr
  {
    Views(map n | n in s :: NodeKeys(ByClass, n, n.classAttr), map n | n in s :: NodeKeys(ByTag, n, n.classAttr),
          map n | n in s :: NodeId(n, n.idAttr))
  }

  predicate Alone(n: Node)
    reads n
  {
    n.parent == null && n.firstChild == null && n.lastChild == null && n.prevSibling == null && n.nextSibling == null
  }

  lemma RootsShape(s: set<Node>)
    ensures var f := Roots(s); Wf(f) && f.kids.Keys == s && Shallow(f) && f.up == map[]
    ensures var f := Roots(s); forall n :: n in s ==> Chain(f, n) == [n] && VisibleSet(f, n) == {n}
  {
    var f := Roots(s);
    assert Wf(f);
    forall n | n in s ensures Chain(f, n) == [n] && VisibleSet(f, n) == {n} {}
  }

  lemma RootsLinked(s: set<Node>)
    requires forall n :: n in s ==> Alone(n)
    ensures Linked(Roots(s))
  {
    var f := Roots(s);
    RootsShape(s);
    var k := LinksOf(f.kids.Keys);
    forall n | n in f.kids ensures ParentOk(k, f, n) && ListOk(k, n, f.kids[n]) { assert Alone(n); }
    assert Encodes(k, f);
  }

  lemma RootsSeen(s: set<Node>)
    ensures Sees(AttrsOf(s), SeenAs(s))
  {
  }

  lemma RootsStage(doc: Node, s: set<Node>)
    requires doc in s && forall n :: n in s ==> Alone(n)
    ensures Stage(doc, Roots(s), SeenAs(s))
  {
    RootsShape(s);
    RootsLinked(s);
    RootsSeen(s);
  }

  /** Indexes for a document that is empty so far, and other nodes beside it */
  method NewIndexes(doc: Node, ghost f: Forest, ghost v: Views) returns (ct: KeyTable, tt: KeyTable, it: IdTables)
    requires Stage(doc, f, v)
    ensures fresh({ct, tt, it}) && Stage(doc, f, v)
    ensures KeysIndexed(doc, ct, tt, f, v) && IdsIndexed(doc, it, f, v) && Positive(CountsOf(it))
    ensures FromNothing(TablesOf(it), v.ids, VisibleSet(f, doc))
  {
    ct := new KeyTable();
    tt := new KeyTable();
    it := new IdTables();
    Build(ct, tt, it, doc, f, v);
  }

  // ---------- small trees ----------

  lemma {:induction false} ChainNodes(f: Forest, n: Node)
    requires Wf(f) && n in f.kids
    ensures |set m | m in Chain(f, n)| == |Chain(f, n)| && (set m | m in Chain(f, n)) <= f.kids.Keys
    decreases f.rank[n]
  {
    var all := set m | m in Chain(f, n);
    if n in f.up {
      assert UpOk(f, n);
      var p := f.up[n];
      ChainNodes(f, p);
      if n in Chain(f, p) {
        var i :| 0 <= i < |Chain(f, p)| && Chain(f, p)[i] == n;
        ChainPosition(f, p, i);
      }
      assert all == (set m | m in Chain(f, p)) + {n};
    } else {
      assert all == {n};
    }
  }

  lemma FewNodesAreShallow(f: Forest)
    requires Wf(f) && |f.kids.Keys| < MAX_DEPTH
    ensures Shallow(f)
  {
    forall n | n in f.kids ensures |Chain(f, n)| < MAX_DEPTH {
      ChainNodes(f, n);
      var above := set m | m in Chain(f, n);
      Subset(above, f.kids.Keys);
    }
  }

  lemma Subset<T>(a: set<T>, b: set<T>)
    requires a <= b
    ensures |a| <= |b|
  {
    assert a + (b - a) == b;
  }

  /** A single element is linked below a document. */
  lemma LinkedBelow(f: Forest, doc: Node, c: Node, i: nat)
    requires CanMove(f, doc, c) && i <= |Detached(f, c).kids[doc]| && |f.kids.Keys| < MAX_DEPTH
    requires doc !in f.up && c != doc && c !in f.up && doc.kind == Document && c.kind == Element && VisibleSet(f, c) == {c}
    ensures Shown(f, doc, doc) && NoFragment(f, c) && Shallow(Moved(f, doc, i, c))
    ensures Taken(f, doc, c) == {} && Put(Moved(f, doc, i, c), doc, doc, c) == {c}
    ensures VisibleSet(Moved(f, doc, i, c), doc) == VisibleSet(f, doc) + {c}
    ensures forall m :: m in f.kids && Under(f, c, m) ==> m == c || !Visible(f, c, m)
  {
    var g := Moved(f, doc, i, c);
    assert Under(f, doc, doc) && Visible(f, doc, doc);
    FewNodesAreShallow(g);
    MovedIsPending(f, doc, i, c, doc);
    MovedGrafts(f, doc, i, c);
    RootAlone(f, c, doc);
    VisibleAfterGraft(f, g, c, doc);
    assert Under(g, doc, doc);
  }

  lemma OneToken()
    ensures Tokens("a") == {"a"}
  {
    assert IsToken("a", 0, 1) && "a"[0..1] == "a";
    forall t | t in Tokens("a") ensures t == "a" {
      var i: nat, j: nat :| 0 <= i < j <= 1 && IsToken("a", i, j) && t == "a"[i..j];
    }
  }

  lemma OneStray(f: Forest, doc: Node, v: Views, n: Node)
    requires Wf(f) && n in f.kids && !Under(f, doc, n)
    requires forall m :: m in VisibleSet(f, doc) && m in v.classes ==> v.classes[m] == {}
    ensures Strays(f, doc, v, n, {"a"}) == {("a", n)}
    ensures !KeptOut(f, doc, v, n, {"a"})
  {
    assert !Carried(v, VisibleSet(f, doc), "a");
  }

  // ---------- an ordinary script ----------

  /** What the three indexes see of an empty document and an element beside it */
  ghost predicate SeenTwo(v: Views, doc: Node, n: Node, id: Option<string>, ks: set<string>) {
    && v.ids == map[doc := None, n := id] && v.classes == map[doc := {}, n := ks]
  }

  /** A document and an element beside it, with the indexes of the document */
  ghost predicate Beside(doc: Node, n: Node, ct: KeyTable, tt: KeyTable, it: IdTables, f: Forest, v: Views, o: Entries)
    reads f.kids.Keys`parent, f.kids.Keys`firstChild, f.kids.Keys`lastChild
    reads f.kids.Keys`prevSibling, f.kids.Keys`nextSibling, f.kids.Keys`classAttr, f.kids.Keys`idAttr, ct, tt, it
  {
    && doc != n && doc.kind == Document && n.kind == Element && f.kids.Keys == {doc, n} && f.up == map[]
    && Stage(doc, f, v) && KeysFiled(doc, ct, tt, f, v, o) && IdUsable(f, it, v.ids, doc) && Positive(CountsOf(it))
    && VisibleSet(f, doc) == {doc} && VisibleSet(f, n) == {n} && !Under(f, doc, n) && !Under(f, n, doc)
  }

  method NewBeside(doc: Node, n: Node, ghost f: Forest)
    returns (ct: KeyTable, tt: KeyTable, it: IdTables, ghost v: Views)
    requires doc != n && n.kind == Element && doc.kind == Document && Alone(doc) && Alone(n)
    requires n.idAttr == None && n.classAttr == None && f == Roots({doc, n})
    ensures fresh({ct, tt, it}) && Beside(doc, n, ct, tt, it, f, v, {}) && SeenTwo(v, doc, n, None, {})
    ensures IdsIndexed(doc, it, f, v)
  {
    v := SeenAs({doc, n});
    RootsStage(doc, {doc, n});
    TwoRoots(doc, n, f);
    ct, tt, it := NewIndexes(doc, f, v);
    ExactIsUsable(f, TablesOf(it), v.ids, doc);
  }

  lemma TwoRoots(doc: Node, n: Node, f: Forest)
    requires doc != n && f == Roots({doc, n})
    ensures Wf(f) && f.kids.Keys == {doc, n} && f.up == map[]
    ensures VisibleSet(f, doc) == {doc} && VisibleSet(f, n) == {n} && !Under(f, doc, n) && !Under(f, n, doc)
  {
    RootsShape({doc, n});
  }

  /** Setting the id counts the element although it is in no tree: the tables are not exact any more, but look-ups are
      right. */
  method GiveId(doc: Node, n: Node, ct: KeyTable, tt: KeyTable, it: IdTables, ghost f: Forest, ghost v: Views)
    returns (ghost w: Views)
    requires Beside(doc, n, ct, tt, it, f, v, {}) && SeenTwo(v, doc, n, None, {}) && IdsIndexed(doc, it, f, v)
    modifies n`idAttr, it
    ensures Beside(doc, n, ct, tt, it, f, w, {}) && SeenTwo(w, doc, n, Some("x"), {}) && !IdsIndexed(doc, it, f, w)
  {
    w := SetId(it, doc, n, Some("x"), f, v);
  }

  /** Setting the class files the element although it is in no tree. */
  method GiveClass(doc: Node, n: Node, ct: KeyTable, tt: KeyTable, it: IdTables, ghost f: Forest, ghost v: Views)
    returns (ghost w: Views)
    requires Beside(doc, n, ct, tt, it, f, v, {}) && SeenTwo(v, doc, n, Some("x"), {})
    modifies n`classAttr, ct
    ensures Beside(doc, n, ct, tt, it, f, w, {("a", n)}) && SeenTwo(w, doc, n, Some("x"), {"a"})
    ensures !KeysIndexed(doc, ct, tt, f, w)
  {
    OneToken();
    OneStray(f, doc, v, n);
    w := SetClass(ct, tt, doc, n, Some("a"), f, v, {});
  }

  lemma ClassesRight(g: Forest, doc: Node, n: Node, v: Views)
    requires Wf(g) && doc != n && SeenTwo(v, doc, n, Some("x"), {"a"}) && VisibleSet(g, doc) == {doc, n}
    ensures {("a", n)} - EntriesOf(v.classes, {}) <= EntriesOf(v.classes, VisibleSet(g, doc))
  {
    assert ("a", n) in EntriesOf(v.classes, {doc, n});
  }

  lemma IdsFound(f: Forest, g: Forest, doc: Node, n: Node, v: Views, a: Tables)
    requires Wf(f) && Wf(g) && doc != n && SeenTwo(v, doc, n, Some("x"), {"a"}) && f.kids.Keys == {doc, n} == g.kids.Keys
    requires f.up == map[] && VisibleSet(f, doc) == {doc} && !Under(f, n, doc) && Put(g, doc, doc, n) == {n}
    requires VisibleSet(g, doc) == {doc, n}
    ensures FoundAfterMove(f, g, doc, doc, n, v.ids, a) && WithId(v.ids, VisibleSet(g, doc), "x") == {n}
  {
    assert forall id :: WithId(v.ids, {doc}, id) == {};
  }

  /** Appending makes the class and tag indexes right again, and keeps look-ups of ids right. */
  method AppendNamed(doc: Node, n: Node, ct: KeyTable, tt: KeyTable, it: IdTables, ghost f: Forest, ghost v: Views)
    returns (ghost g: Forest)
    requires Beside(doc, n, ct, tt, it, f, v, {("a", n)}) && SeenTwo(v, doc, n, Some("x"), {"a"})
    modifies ct, tt, it, f.kids.Keys`parent, f.kids.Keys`firstChild, f.kids.Keys`lastChild
    modifies f.kids.Keys`prevSibling, f.kids.Keys`nextSibling
    ensures Stage(doc, g, v) && KeysIndexed(doc, ct, tt, g, v) && IdUsable(g, it, v.ids, doc) && n in g.kids
    ensures WithId(v.ids, VisibleSet(g, doc), "x") == {n}
  {
    ghost var i, a := |f.kids[doc]|, TablesOf(it);
    ReadyToAppend(f, doc, n, i);
    g := Moved(f, doc, i, n);
    ghost var o: Entries := {("a", n)};
    ghost var _ := AppendIndexed(ct, tt, it, doc, doc, n, f, v, i, o);
    RightAfterAppend(ct, tt, it, doc, n, i, f, v, a);
  }

  lemma ReadyToAppend(f: Forest, doc: Node, n: Node, i: nat)
    requires Wf(f) && doc != n && doc.kind == Document && n.kind == Element && f.kids.Keys == {doc, n} && f.up == map[]
    requires VisibleSet(f, n) == {n} && !Under(f, n, doc) && !Under(f, doc, n) && i == |f.kids[doc]|
    ensures CanMove(f, doc, n) && i == |Detached(f, n).kids[doc]| && Shown(f, doc, doc) && NoFragment(f, n)
    ensures Shallow(Moved(f, doc, i, n)) && Orphans(f, doc, n, {("a", n)})
  {
    LinkedBelow(f, doc, n, i);
  }

  lemma RightAfterAppend(ct: KeyTable, tt: KeyTable, it: IdTables, doc: Node, n: Node, i: nat, f: Forest, v: Views, a: Tables)
    requires CanMove(f, doc, n) && i <= |Detached(f, n).kids[doc]| && doc != n && f.kids.Keys == {doc, n} && f.up == map[]
    requires doc.kind == Document && n.kind == Element && SeenTwo(v, doc, n, Some("x"), {"a"})
    requires VisibleSet(f, doc) == {doc} && VisibleSet(f, n) == {n} && v.ids.Keys == f.kids.Keys && Usable(f, a, v.ids, doc)
    requires MovedRight(ct, tt, it, doc, doc, n, i, f, v, {("a", n)}, a)
    ensures KeysIndexed(doc, ct, tt, Moved(f, doc, i, n), v) && IdUsable(Moved(f, doc, i, n), it, v.ids, doc)
    ensures WithId(v.ids, VisibleSet(Moved(f, doc, i, n), doc), "x") == {n}
  {
    var g := Moved(f, doc, i, n);
    LinkedBelow(f, doc, n, i);
    MovedKeys(ct, tt, it, doc, doc, n, i, f, v, {("a", n)}, a, g);
    MovedFinds(ct, tt, it, doc, doc, n, i, f, v, {("a", n)}, a, g);
    ClassesRight(g, doc, n, v);
    IdsFound(f, g, doc, n, v, a);
  }

  method NameBeside(doc: Node, n: Node, ghost f: Forest)
    returns (ct: KeyTable, tt: KeyTable, it: IdTables, ghost v: Views)
    requires doc != n && n.kind == Element && doc.kind == Document && Alone(doc) && Alone(n)
    requires n.idAttr == None && n.classAttr == None && f == Roots({doc, n})
    modifies n`idAttr, n`classAttr
    ensures fresh({ct, tt, it}) && Beside(doc, n, ct, tt, it, f, v, {("a", n)}) && SeenTwo(v, doc, n, Some("x"), {"a"})
    ensures !KeysIndexed(doc, ct, tt, f, v)
  {
    ct, tt, it, v := NewBeside(doc, n, f);
    v := GiveId(doc, n, ct, tt, it, f, v);
    v := GiveClass(doc, n, ct, tt, it, f, v);
  }

  /** createElement, id, className, appendChild, getElementById: the class index is wrong in between and right in the
      end, and the element is found. */
  method OrdinaryScript(doc: Node, n: Node) returns (r: Node?)
    requires doc != n && n.kind == Element && doc.kind == Document && Alone(doc) && Alone(n)
    requires n.idAttr == None && n.classAttr == None
    modifies doc, n
    ensures r == n
  {
    ghost var f := Roots({doc, n});
    var ct, tt, it;
    ghost var v;
    ct, tt, it, v := NameBeside(doc, n, f);
    ghost var g := AppendNamed(doc, n, ct, tt, it, f, v);
    r := FindNamed(doc, n, it, g, v);
  }

  method FindNamed(doc: Node, n: Node, it: IdTables, ghost g: Forest, ghost v: Views) returns (r: Node?)
    requires Stage(doc, g, v) && IdUsable(g, it, v.ids, doc) && WithId(v.ids, VisibleSet(g, doc), "x") == {n}
    modifies doc`idTables, it
    ensures r == n
  {
    doc.idTables := it;
    ShallowFits(g, doc);
    UsableIsRight(g, it, v.ids, doc);
    r := FindById(doc, "x", g, v);
  }
}
