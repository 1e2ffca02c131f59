/**
 A script that makes getElementById miss an element of the document. Two elements share an id; one of them is taken
 out, put below an element that is not in the document, and taken out again. Its id is uncounted twice, and then the
 other element's id has no count and no entry.
 */
module DomSharedIds {
  import opened Common
  import opened Locks
  import opened DomForest
  import opened DomMoves
  import opened DomVisible
  import opened DomTree
  import opened DomScene
  import opened DomIndex
  import opened DomIndexWalk
  import opened DomIds
  import opened DomDocument
  import opened DomOrphans

  /** Every parent is a root. */
  ghost predicate Flat(f: Forest) {
    Wf(f) && forall n :: n in f.up ==> f.up[n] in f.kids && f.up[n] !in f.up
  }

  lemma FlatVisible(f: Forest, r: Node)
    requires Flat(f) && r in f.kids && !r.IsTemplate()
    ensures VisibleSet(f, r) == {r} + set n | n in f.up && f.up[n] == r && n.kind != Document
    ensures forall n :: n in f.kids ==> (Under(f, r, n) <==> n == r || (n in f.up && f.up[n] == r))
  {
    forall n | n in f.kids
      ensures Under(f, r, n) <==> n == r || (n in f.up && f.up[n] == r)
      ensures Visible(f, r, n) <==> n == r || (n in f.up && f.up[n] == r && n.kind != Document)
    {
      UnderStep(f, r, n);
      if n in f.up {
        assert UpOk(f, n);
        UnderStep(f, r, f.up[n]);
      }
    }
    forall n | n in f.up ensures n in f.kids { assert UpOk(f, n); }
  }

  /** A document, two elements with one id, and an element without, linked as `up` says */
  ghost predicate Four(doc: Node, a: Node, b: Node, w: Node, ct: KeyTable, tt: KeyTable, it: IdTables,
                       f: Forest, v: Views, up: map<Node, Node>)
    reads f.kids.Keys`parent, f.kids.Keys`firstChild, f.kids.Keys`lastChild
    reads f.kids.Keys`prevSibling, f.kids.Keys`nextSibling, f.kids.Keys`classAttr, f.kids.Keys`idAttr, ct, tt, it
  {
    FourNodes(doc, a, b, w) && FourLinked(doc, a, b, w, f, up) && SeenFour(v, doc, a, b, w) && InOrder(doc, ct, tt, it, f, v)
  }

  ghost predicate FourLinked(doc: Node, a: Node, b: Node, w: Node, f: Forest, up: map<Node, Node>) {
    Flat(f) && f.kids.Keys == {doc, a, b, w} && f.up == up
  }

  /** What the edits need and keep; under a key */
  ghost predicate InOrder(doc: Node, ct: KeyTable, tt: KeyTable, it: IdTables, f: Forest, v: Views)
    requires Wf(f)
    reads f.kids.Keys`parent, f.kids.Keys`firstChild, f.kids.Keys`lastChild
    reads f.kids.Keys`prevSibling, f.kids.Keys`nextSibling, f.kids.Keys`classAttr, f.kids.Keys`idAttr, ct, tt, it
  {
    forall key {:trigger Open(key)} :: Key(key) ==>
      Stage(doc, f, v) && KeysIndexed(doc, ct, tt, f, v) && Positive(CountsOf(it)) && Known(f, it.index)
  }

  lemma OpenOrder(doc: Node, ct: KeyTable, tt: KeyTable, it: IdTables, f: Forest, v: Views)
    requires Wf(f) && InOrder(doc, ct, tt, it, f, v)
    ensures Stage(doc, f, v) && KeysIndexed(doc, ct, tt, f, v) && Positive(CountsOf(it)) && Known(f, it.index)
  {
    assert Open(true);
  }

  lemma KnownAfter(f: Forest, a: Tables, mid: Tables, d: Tables, ids: Ids, gone: set<Node>, come: set<Node>)
    requires Known(f, a.index) && Withdrawn(a, mid, ids, gone) && Entered(mid, d, ids, come) && come <= f.kids.Keys
    ensures Known(f, mid.index) && Known(f, d.index)
  {
    forall id | id in mid.index ensures mid.index[id] in f.kids { WithdrawnIs(a, mid, ids, gone, id); }
    forall id | id in d.index ensures d.index[id] in f.kids { EnteredIs(mid, d, ids, come, id); }
  }

  ghost predicate SeenFour(v: Views, doc: Node, a: Node, b: Node, w: Node) {
    v.ids == map[doc := None, a := Some("x"), b := Some("x"), w := None]
  }

  function To(c: Node, p: Node): map<Node, Node> {
    map[c := p]
  }

  lemma OneLeft(c: Node, p: Node, d: Node, q: Node)
    requires c != d
    ensures To(c, p)[d := q] - {c} == To(d, q) && To(c, p)[d := q] - {d} == To(c, p)
  {
  }

  predicate FourNodes(doc: Node, a: Node, b: Node, w: Node) {
    && doc.kind == Document && a.kind == Element && b.kind == Element && w.kind == Element
    && doc != a && doc != b && doc != w && a != b && a != w && b != w
    && !a.IsTemplate() && !b.IsTemplate() && !w.IsTemplate()
  }

  /** The shared id's count and entry */
  datatype Filing = Filing(count: nat, entry: Option<Node>)

  ghost function FilingOf(t: Tables): Filing {
    Filing(CountAt(t.counts, "x"), if "x" in t.index then Some(t.index["x"]) else None)
  }

  ghost predicate CanLink(up: map<Node, Node>, doc: Node, p: Node, c: Node) {
    c !in up && c != p && p !in up && (forall n :: n in up ==> up[n] != c) && c != doc
  }

  lemma LinkedFlat(f: Forest, p: Node, i: nat, c: Node, doc: Node)
    requires Flat(f) && p in f.kids && c in f.kids && CanLink(f.up, doc, p, c) && |f.kids.Keys| < MAX_DEPTH
    requires !c.IsTemplate() && c.kind == Element && i == |f.kids[p]|
    ensures CanMove(f, p, c) && i == |Detached(f, c).kids[p]| && NoFragment(f, c) && Taken(f, doc, c) == {}
    ensures var g := Moved(f, p, i, c); Flat(g) && g.up == f.up[c := p] && Shallow(g)
  {
    FlatVisible(f, c);
    assert CanMove(f, p, c);
    MovedGrafts(f, p, i, c);
    FewNodesAreShallow(Moved(f, p, i, c));
  }

  lemma ShownFlat(f: Forest, p: Node, doc: Node)
    requires Flat(f) && p in f.kids && p !in f.up && doc in f.kids && doc.kind == Document
    ensures Shown(f, doc, p)
  {
    FlatVisible(f, doc);
    assert Visible(f, doc, doc);
  }

  lemma PutFlat(g: Forest, p: Node, c: Node, doc: Node)
    requires Flat(g) && c in g.up && g.up[c] == p && p in g.kids && doc in g.kids && c in g.kids
    requires doc.kind == Document && c.kind == Element && !c.IsTemplate() && p !in g.up && forall n :: n in g.up ==> g.up[n] != c
    ensures Put(g, doc, p, c) == if p == doc then {c} else {}
  {
    FlatVisible(g, doc);
    FlatVisible(g, c);
  }

  lemma ReadyToLink(doc: Node, a: Node, b: Node, w: Node, f: Forest, p: Node, i: nat, c: Node)
    requires FourNodes(doc, a, b, w) && Flat(f) && f.kids.Keys == {doc, a, b, w} && (p == doc || p == w) && (c == a || c == b)
    requires CanLink(f.up, doc, p, c) && i == |f.kids[p]| && doc !in f.up
    ensures CanMove(f, p, c) && i == |Detached(f, c).kids[p]| && NoFragment(f, c) && Shown(f, doc, p) && c != doc
    ensures var g := Moved(f, p, i, c);
            && Flat(g) && g.up == f.up[c := p] && Shallow(g) && g.kids.Keys == f.kids.Keys
            && Taken(f, doc, c) == {} && Put(g, doc, p, c) == if p == doc then {c} else {}
  {
    LinkedFlat(f, p, i, c, doc);
    ShownFlat(f, p, doc);
    PutFlat(Moved(f, p, i, c), p, c, doc);
  }

  lemma Filed(a: Tables, mid: Tables, d: Tables, ids: Ids, c: Node, come: set<Node>)
    requires Withdrawn(a, mid, ids, {}) && Entered(mid, d, ids, come)
    requires come <= {c} && c in ids && ids[c] == Some("x")
    ensures FilingOf(d).count == FilingOf(a).count + if c in come then 1 else 0
    ensures FilingOf(a).entry.Some? || c !in come ==> FilingOf(d).entry == FilingOf(a).entry
    ensures a.counted ==> d.counted
  {
    WithdrawnIs(a, mid, ids, {}, "x");
    EnteredIs(mid, d, ids, come, "x");
    StaysPositive(a, mid, ids, {});
    StaysPositive(mid, d, ids, come);
    assert WithId(ids, {}, "x") == {};
    OneWithId(ids, c, "x");
    assert come == {} || come == {c};
  }

  method Link(doc: Node, a: Node, b: Node, w: Node, ct: KeyTable, tt: KeyTable, it: IdTables, p: Node, c: Node,
              ghost f: Forest, ghost v: Views) returns (ghost g: Forest)
    requires Four(doc, a, b, w, ct, tt, it, f, v, f.up) && (p == doc || p == w) && (c == a || c == b)
    requires CanLink(f.up, doc, p, c) && doc !in f.up
    modifies ct, tt, it, f.kids.Keys`parent, f.kids.Keys`firstChild, f.kids.Keys`lastChild
    modifies f.kids.Keys`prevSibling, f.kids.Keys`nextSibling
    ensures Four(doc, a, b, w, ct, tt, it, g, v, f.up[c := p])
    ensures FilingOf(TablesOf(it)).count == old(FilingOf(TablesOf(it))).count + if p == doc then 1 else 0
    ensures old(FilingOf(TablesOf(it))).entry.Some? || p != doc ==>
              FilingOf(TablesOf(it)).entry == old(FilingOf(TablesOf(it))).entry
    ensures old(TablesOf(it)).counted ==> TablesOf(it).counted
  {
    ghost var before := TablesOf(it);
    ReadyToLink(doc, a, b, w, f, p, |f.kids[p]|, c);
    ghost var mid;
    g, mid := LinkIn(doc, ct, tt, it, p, c, f, v, if p == doc then {c} else {});
    Filed(before, mid, TablesOf(it), v.ids, c, if p == doc then {c} else {});
  }

  method LinkIn(doc: Node, ct: KeyTable, tt: KeyTable, it: IdTables, p: Node, c: Node,
                ghost f: Forest, ghost v: Views, ghost come: set<Node>) returns (ghost g: Forest, ghost mid: Tables)
    requires Wf(f) && InOrder(doc, ct, tt, it, f, v) && CanMove(f, p, c) && NoFragment(f, c) && doc in f.kids && Shown(f, doc, p)
    requires c != doc && |f.kids[p]| == |Detached(f, c).kids[p]| && Shallow(Moved(f, p, |f.kids[p]|, c))
    requires Taken(f, doc, c) == {} && Put(Moved(f, p, |f.kids[p]|, c), doc, p, c) == come <= {c}
    modifies ct, tt, it, f.kids.Keys`parent, f.kids.Keys`firstChild, f.kids.Keys`lastChild
    modifies f.kids.Keys`prevSibling, f.kids.Keys`nextSibling
    ensures g == Moved(f, p, |f.kids[p]|, c) && InOrder(doc, ct, tt, it, g, v)
    ensures Withdrawn(old(TablesOf(it)), mid, v.ids, {}) && Entered(mid, TablesOf(it), v.ids, come)
  {
    ghost var i, before := |f.kids[p]|, TablesOf(it);
    OpenOrder(doc, ct, tt, it, f, v);
    g := Moved(f, p, i, c);
    mid := AppendIndexed(ct, tt, it, doc, p, c, f, v, i, {});
    MovedKeys(ct, tt, it, doc, p, c, i, f, v, {}, before, g);
    KnownAfter(g, before, mid, TablesOf(it), v.ids, {}, come);
  }

  lemma UnlinkedFlat(f: Forest, c: Node)
    requires Flat(f) && c in f.up && c in f.kids && !c.IsTemplate() && forall n :: n in f.up ==> f.up[n] != c
    ensures Flat(Detached(f, c)) && Detached(f, c).up == f.up - {c} && VisibleSet(f, c) == {c}
  {
    FlatVisible(f, c);
  }

  lemma Unfiled(a: Tables, d: Tables, ids: Ids, c: Node)
    requires Withdrawn(a, d, ids, {c}) && c in ids && ids[c] == Some("x")
    ensures FilingOf(d).count == Minus(FilingOf(a).count, 1)
    ensures FilingOf(d).entry == if FilingOf(a).entry == Some(c) then None else FilingOf(a).entry
    ensures a.counted ==> d.counted
  {
    WithdrawnIs(a, d, ids, {c}, "x");
    StaysPositive(a, d, ids, {c});
    OneWithId(ids, c, "x");
  }

  method Unlink(doc: Node, a: Node, b: Node, w: Node, ct: KeyTable, tt: KeyTable, it: IdTables, c: Node,
                ghost f: Forest, ghost v: Views) returns (ghost h: Forest)
    requires Four(doc, a, b, w, ct, tt, it, f, v, f.up) && (c == a || c == b)
    requires c in f.up && forall n :: n in f.up ==> f.up[n] != c
    modifies ct, tt, it, f.kids.Keys`parent, f.kids.Keys`firstChild, f.kids.Keys`lastChild
    modifies f.kids.Keys`prevSibling, f.kids.Keys`nextSibling
    ensures Four(doc, a, b, w, ct, tt, it, h, v, f.up - {c})
    ensures FilingOf(TablesOf(it)).count == Minus(old(FilingOf(TablesOf(it))).count, 1)
    ensures FilingOf(TablesOf(it)).entry ==
            if old(FilingOf(TablesOf(it))).entry == Some(c) then None else old(FilingOf(TablesOf(it))).entry
    ensures old(TablesOf(it)).counted ==> TablesOf(it).counted
  {
    ghost var before := TablesOf(it);
    UnlinkedFlat(f, c);
    h := TakeApart(doc, ct, tt, it, c, f, v);
    Unfiled(before, TablesOf(it), v.ids, c);
  }

  method TakeApart(doc: Node, ct: KeyTable, tt: KeyTable, it: IdTables, c: Node, ghost f: Forest, ghost v: Views)
    returns (ghost h: Forest)
    requires Wf(f) && InOrder(doc, ct, tt, it, f, v) && c in f.kids && c in f.up
    modifies ct, tt, it, f.kids.Keys`parent, f.kids.Keys`firstChild, f.kids.Keys`lastChild
    modifies f.kids.Keys`prevSibling, f.kids.Keys`nextSibling
    ensures h == Detached(f, c) && InOrder(doc, ct, tt, it, h, v)
    ensures Withdrawn(old(TablesOf(it)), TablesOf(it), v.ids, VisibleSet(f, c))
  {
    ghost var before := TablesOf(it);
    OpenOrder(doc, ct, tt, it, f, v);
    h := Detached(f, c);
    RemoveIndexed(ct, tt, it, doc, c, f, v, {});
    RemovedKeys(ct, tt, it, doc, c, f, v, {}, before, h);
    NothingEntered(TablesOf(it), v.ids);
    KnownAfter(h, before, TablesOf(it), TablesOf(it), v.ids, VisibleSet(f, c), {});
  }

  /** The tables of a new document in which only the first of the two is linked */
  lemma BuiltTables(d: Tables, ids: Ids, doc: Node, a: Node)
    requires FromNothing(d, ids, {doc, a}) && doc in ids && a in ids && ids[doc] == None && ids[a] == Some("x")
    ensures FilingOf(d) == Filing(1, Some(a))
  {
    EnteredIs(Tables(map[], map[], false), d, ids, {doc, a}, "x");
    assert WithId(ids, {doc, a}, "x") == {a};
  }

  /** The first element is linked, and the indexes are built. */
  method Start(doc: Node, a: Node, b: Node, w: Node)
    returns (ct: KeyTable, tt: KeyTable, it: IdTables, ghost f: Forest, ghost v: Views)
    requires FourNodes(doc, a, b, w) && Alone(doc) && Alone(a) && Alone(b) && Alone(w)
    requires a.idAttr == Some("x") && b.idAttr == Some("x") && w.idAttr == None
    modifies doc, a, b, w
    ensures fresh({ct, tt, it}) && Four(doc, a, b, w, ct, tt, it, f, v, To(a, doc))
    ensures FilingOf(TablesOf(it)) == Filing(1, Some(a)) && it.counts.Some?
  {
    f, v := LinkFirst(doc, a, b, w, {doc, a, b, w});
    ct, tt, it := IndexesFor(doc, f, v);
    OnlyA(doc, a, b, w, f);
    BuiltTables(TablesOf(it), v.ids, doc, a);
  }

  method IndexesFor(doc: Node, ghost f: Forest, ghost v: Views) returns (ct: KeyTable, tt: KeyTable, it: IdTables)
    requires Stage(doc, f, v)
    ensures fresh({ct, tt, it}) && InOrder(doc, ct, tt, it, f, v) && FromNothing(TablesOf(it), v.ids, VisibleSet(f, doc))
  {
    ct, tt, it := NewIndexes(doc, f, v);
    forall id | id in it.index ensures it.index[id] in f.kids {
      assert it.index[id] in WithId(v.ids, VisibleSet(f, doc), id);
    }
    assert KeysIndexed(doc, ct, tt, f, v) && Positive(CountsOf(it)) && Known(f, it.index);
  }

  lemma OnlyA(doc: Node, a: Node, b: Node, w: Node, f: Forest)
    requires FourNodes(doc, a, b, w) && FourLinked(doc, a, b, w, f, To(a, doc))
    ensures VisibleSet(f, doc) == {doc, a}
  {
    FlatVisible(f, doc);
  }

  method LinkFirst(doc: Node, a: Node, b: Node, w: Node, ghost s: set<Node>) returns (ghost f: Forest, ghost v: Views)
    requires FourNodes(doc, a, b, w) && s == {doc, a, b, w} && forall n :: n in s ==> Alone(n)
    requires a.idAttr == Some("x") && b.idAttr == Some("x") && w.idAttr == None
    modifies s
    ensures FourLinked(doc, a, b, w, f, To(a, doc)) && SeenFour(v, doc, a, b, w) && Stage(doc, f, v)
  {
    FourStage(doc, a, b, w, s);
    v := SeenAs(s);
    f := AppendTo(doc, a, Roots(s), v, s);
  }

  lemma FourStage(doc: Node, a: Node, b: Node, w: Node, s: set<Node>)
    requires FourNodes(doc, a, b, w) && s == {doc, a, b, w} && forall n :: n in s ==> Alone(n)
    requires a.idAttr == Some("x") && b.idAttr == Some("x") && w.idAttr == None
    ensures Stage(doc, Roots(s), SeenAs(s)) && SeenFour(SeenAs(s), doc, a, b, w)
    ensures var r := Roots(s);
            && r.kids.Keys == s && CanMove(r, doc, a) && 0 == |Detached(r, a).kids[doc]|
            && FourLinked(doc, a, b, w, Moved(r, doc, 0, a), To(a, doc)) && Shallow(Moved(r, doc, 0, a))
  {
    SeesFour(doc, a, b, w);
    RootsStage(doc, s);
    FourRoots(doc, a, b, w, Roots(s));
  }

  method AppendTo(doc: Node, a: Node, ghost r: Forest, ghost v: Views, ghost s: set<Node>) returns (ghost f: Forest)
    requires r.kids.Keys == s && Stage(doc, r, v) && CanMove(r, doc, a) && 0 == |Detached(r, a).kids[doc]|
    requires Shallow(Moved(r, doc, 0, a)) && doc !in Moved(r, doc, 0, a).up
    modifies s
    ensures f == Moved(r, doc, 0, a) && Stage(doc, f, v)
  {
    f := Moved(r, doc, 0, a);
    Append(doc, a, r, v, 0);
  }

  lemma SeesFour(doc: Node, a: Node, b: Node, w: Node)
    requires FourNodes(doc, a, b, w) && a.idAttr == Some("x") && b.idAttr == Some("x") && w.idAttr == None
    ensures SeenFour(SeenAs({doc, a, b, w}), doc, a, b, w)
  {
  }

  lemma FourRoots(doc: Node, a: Node, b: Node, w: Node, r: Forest)
    requires FourNodes(doc, a, b, w) && r == Roots({doc, a, b, w})
    ensures Flat(r) && r.kids.Keys == {doc, a, b, w} && CanMove(r, doc, a) && 0 == |Detached(r, a).kids[doc]|
    ensures var f := Moved(r, doc, 0, a); Flat(f) && f.up == To(a, doc) && Shallow(f) && f.kids.Keys == r.kids.Keys
  {
    RootsShape({doc, a, b, w});
    ReadyToLink(doc, a, b, w, r, doc, 0, a);
  }

  /** An id that nothing lists is missed. */
  method Miss(doc: Node, b: Node, it: IdTables, ghost f: Forest, ghost v: Views) returns (r: Node?)
    requires Stage(doc, f, v) && WithId(v.ids, VisibleSet(f, doc), "x") == {b}
    requires forall n :: n in f.kids && Under(f, doc, n) ==> Visible(f, doc, n)
    requires FilingOf(TablesOf(it)) == Filing(0, None) && it.counts.Some? && Positive(CountsOf(it)) && Known(f, it.index)
    modifies doc`idTables, it
    ensures r == null
  {
    doc.idTables := it;
    ShallowFits(f, doc);
    assert !Listed(TablesOf(it), "x") by { assert "x" in CountsOf(it) ==> CountAt(CountsOf(it), "x") > 0; }
    assert !IdRight(f, it, v.ids, doc, "x");
    r := FindById(doc, "x", f, v);
    if r != null { OnlyOne(f, v.ids, "x", VisibleSet(f, doc), r); }
  }

  /** The document holds `b` with its id, and getElementById finds nothing. */
  method SharedIdIsMissed(doc: Node, a: Node, b: Node, w: Node) returns (r: Node?, ghost f: Forest, ghost v: Views)
    requires FourNodes(doc, a, b, w) && Alone(doc) && Alone(a) && Alone(b) && Alone(w)
    requires a.idAttr == Some("x") && b.idAttr == Some("x") && w.idAttr == None
    modifies doc, a, b, w
    ensures Stage(doc, f, v) && WithId(v.ids, VisibleSet(f, doc), "x") == {b} && r == null
  {
    var it;
    it, f, v := Uncounted(doc, a, b, w);
    OnlyB(doc, a, b, w, f, v);
    r := Miss(doc, b, it, f, v);
  }

  method Uncounted(doc: Node, a: Node, b: Node, w: Node) returns (it: IdTables, ghost f: Forest, ghost v: Views)
    requires FourNodes(doc, a, b, w) && Alone(doc) && Alone(a) && Alone(b) && Alone(w)
    requires a.idAttr == Some("x") && b.idAttr == Some("x") && w.idAttr == None
    modifies doc, a, b, w
    ensures fresh(it) && FourLinked(doc, a, b, w, f, To(b, doc)) && SeenFour(v, doc, a, b, w) && Stage(doc, f, v)
    ensures FilingOf(TablesOf(it)) == Filing(0, None) && it.counts.Some? && Positive(CountsOf(it)) && Known(f, it.index)
  {
    var ct, tt;
    ct, tt, it, f, v := Start(doc, a, b, w);
    f := MoveAway(doc, a, b, w, ct, tt, it, f, v);
    f := UncountTwice(doc, a, b, w, ct, tt, it, f, v);
    OpenOrder(doc, ct, tt, it, f, v);
  }

  /** The second element is linked below the document, and the first one taken out. */
  method MoveAway(doc: Node, a: Node, b: Node, w: Node, ct: KeyTable, tt: KeyTable, it: IdTables,
                  ghost f: Forest, ghost v: Views) returns (ghost g: Forest)
    requires Four(doc, a, b, w, ct, tt, it, f, v, To(a, doc))
    requires FilingOf(TablesOf(it)) == Filing(1, Some(a)) && it.counts.Some?
    modifies ct, tt, it, f.kids.Keys`parent, f.kids.Keys`firstChild, f.kids.Keys`lastChild
    modifies f.kids.Keys`prevSibling, f.kids.Keys`nextSibling
    ensures Four(doc, a, b, w, ct, tt, it, g, v, To(b, doc))
    ensures FilingOf(TablesOf(it)) == Filing(1, None) && it.counts.Some?
  {
    g := Link(doc, a, b, w, ct, tt, it, doc, b, f, v);
    g := Unlink(doc, a, b, w, ct, tt, it, a, g, v);
    OneLeft(a, doc, b, doc);
  }

  /** The first one is linked below an element that is not in the document, and taken out. */
  method UncountTwice(doc: Node, a: Node, b: Node, w: Node, ct: KeyTable, tt: KeyTable, it: IdTables,
                      ghost f: Forest, ghost v: Views) returns (ghost g: Forest)
    requires Four(doc, a, b, w, ct, tt, it, f, v, To(b, doc))
    requires FilingOf(TablesOf(it)) == Filing(1, None) && it.counts.Some?
    modifies ct, tt, it, f.kids.Keys`parent, f.kids.Keys`firstChild, f.kids.Keys`lastChild
    modifies f.kids.Keys`prevSibling, f.kids.Keys`nextSibling
    ensures Four(doc, a, b, w, ct, tt, it, g, v, To(b, doc))
    ensures FilingOf(TablesOf(it)) == Filing(0, None) && it.counts.Some?
  {
    g := Link(doc, a, b, w, ct, tt, it, w, a, f, v);
    g := Unlink(doc, a, b, w, ct, tt, it, a, g, v);
    OneLeft(b, doc, a, w);
  }

  lemma OnlyB(doc: Node, a: Node, b: Node, w: Node, f: Forest, v: Views)
    requires FourNodes(doc, a, b, w) && Flat(f) && f.kids.Keys == {doc, a, b, w} && f.up == To(b, doc)
    requires SeenFour(v, doc, a, b, w)
    ensures WithId(v.ids, VisibleSet(f, doc), "x") == {b}
    ensures forall n :: n in f.kids && Under(f, doc, n) ==> Visible(f, doc, n)
  {
    FlatVisible(f, doc);
    assert VisibleSet(f, doc) == {doc, b};
    forall n | n in f.kids && Under(f, doc, n) ensures Visible(f, doc, n) { assert n in VisibleSet(f, doc); }
  }
}
