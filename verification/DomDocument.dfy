/**
 A document with its three indexes, under the edits that scripts make.  Every edit keeps the class and tag
 arrays equal to the matching elements in document order; where an edit can leave an index wrong, its
 contract says exactly when.
 */
module DomDocument {
  import opened Common
  import opened Locks
  import opened DomForest
  import opened DomMoves
  import opened DomVisible
  import opened DomTree
  import opened DomScene
  import opened DomIndex
  import opened DomIndexWalk
  import opened DomIds

  /** The class index and the tag index hold exactly the nodes of `s`, their arrays in the order of `f`, and the class
      index the entries `o` besides. */
  ghost predicate KeysHold(f: Forest, v: Views, ct: KeyTable, tt: KeyTable, s: set<Node>, o: Entries)
    requires Wf(f)
    reads ct, tt
  {
    Holds(f, ct.arrays, EntriesOf(v.classes, s) + o) && Holds(f, tt.arrays, EntriesOf(v.tags, s))
  }

  // ---------- a change of order ----------

  lemma HoldsInNewOrder(f: Forest, g: Forest, arrays: map<string, seq<Node>>, want: Entries)
    requires Wf(f) && Wf(g) && Holds(f, arrays, want)
    requires forall e :: e in want ==> e.1 in g.kids
    requires forall a, b :: a in want && b in want && a.1 in f.kids && b.1 in f.kids && Before(f, a.1, b.1) ==>
               Before(g, a.1, b.1)
    ensures Holds(g, arrays, want)
  {
    forall k | k in arrays ensures HoldsAt(g, arrays[k], k, want) {
      var arr := arrays[k];
      assert HoldsAt(f, arr, k, want);
      forall i | 0 <= i < |arr| ensures arr[i] in g.kids {
        assert (k, arr[i]) in want;
      }
      forall i, j | 0 <= i < j < |arr| ensures Before(g, arr[i], arr[j]) {
        assert (k, arr[i]) in want && (k, arr[j]) in want;
      }
    }
  }

  lemma KeysInNewOrder(f: Forest, g: Forest, v: Views, ct: KeyTable, tt: KeyTable, s: set<Node>, o: Entries)
    requires Wf(f) && Wf(g) && f.kids.Keys == g.kids.Keys && s <= f.kids.Keys && (forall e :: e in o ==> e.1 in f.kids)
    requires KeysHold(f, v, ct, tt, s, o) && forall a, b :: Mentioned(s, o, a) && Mentioned(s, o, b) ==> NoSwap(f, g, a, b)
    ensures KeysHold(g, v, ct, tt, s, o)
  {
    ArraysInNewOrder(f, g, ct.arrays, v.classes, s, o, o);
    ArraysInNewOrder(f, g, tt.arrays, v.tags, s, {}, o);
    assert EntriesOf(v.tags, s) + {} == EntriesOf(v.tags, s);
  }

  lemma ArraysInNewOrder(f: Forest, g: Forest, arrays: map<string, seq<Node>>, keys: Keys, s: set<Node>, o: Entries, all: Entries)
    requires Wf(f) && Wf(g) && f.kids.Keys == g.kids.Keys && s <= f.kids.Keys && o <= all && (forall e :: e in o ==> e.1 in f.kids)
    requires forall a, b :: Mentioned(s, all, a) && Mentioned(s, all, b) ==> NoSwap(f, g, a, b)
    requires Holds(f, arrays, EntriesOf(keys, s) + o)
    ensures Holds(g, arrays, EntriesOf(keys, s) + o)
  {
    forall a, b | a in EntriesOf(keys, s) + o && b in EntriesOf(keys, s) + o ensures NoSwap(f, g, a.1, b.1) {
      assert Mentioned(s, all, a.1) && Mentioned(s, all, b.1);
    }
    HoldsInNewOrder(f, g, arrays, EntriesOf(keys, s) + o);
  }

  ghost predicate Mentioned(s: set<Node>, o: Entries, n: Node) {
    n in s || exists k :: (k, n) in o
  }

  ghost predicate NoSwap(f: Forest, g: Forest, a: Node, b: Node)
    requires Wf(f) && Wf(g)
  {
    a in f.kids && b in f.kids && a in g.kids && b in g.kids && (Before(f, a, b) ==> Before(g, a, b))
  }

  /** The entries `o` are all in the subtree of `c`, and none of them is in the document. */
  ghost predicate Orphans(f: Forest, doc: Node, c: Node, o: Entries)
    requires Wf(f)
  {
    forall e :: e in o ==> e.1 in f.kids && Under(f, c, e.1) && !Under(f, doc, e.1)
  }

  /** Grafting or cutting the subtree of `c` leaves the class and tag indexes sorted that have entries from the
      document outside it and entries inside it that are not in the document. */
  lemma KeysAfterMove(f: Forest, g: Forest, c: Node, doc: Node, v: Views, ct: KeyTable, tt: KeyTable,
                      s: set<Node>, o: Entries)
    requires (Grafted(f, g, c) || Grafted(g, f, c)) && doc in f.kids && doc !in f.up
    requires s <= f.kids.Keys && (forall n :: n in s ==> Under(f, doc, n) && !Under(f, c, n)) && Orphans(f, doc, c, o)
    requires KeysHold(f, v, ct, tt, s, o)
    ensures KeysHold(g, v, ct, tt, s, o)
  {
    forall a, b | Mentioned(s, o, a) && Mentioned(s, o, b) ensures NoSwap(f, g, a, b) {
      if a in s && b in s {
        if Grafted(f, g, c) { OrderKept(f, g, c, a, b); } else { OrderKept(g, f, c, a, b); }
      } else if a !in s && b !in s {
        if Grafted(f, g, c) { OrderKeptInside(f, g, c, a, b); } else { OrderKeptCut(g, f, c, a, b); }
      } else if a in s {
        OtherTreeUnordered(f, doc, a, b);
      } else {
        OtherTreeUnordered(f, doc, b, a);
      }
    }
    KeysInNewOrder(f, g, v, ct, tt, s, o);
  }

  lemma OrderKeptCut(g: Forest, f: Forest, c: Node, a: Node, b: Node)
    requires Grafted(g, f, c) && a in f.kids && b in f.kids && Under(f, c, a) && Under(f, c, b)
    ensures Before(f, a, b) <==> Before(g, a, b)
  {
    MovedSubtreeKept(g, f, c, a);
    MovedSubtreeKept(g, f, c, b);
    OrderKeptInside(g, f, c, a, b);
  }

  // ---------- entering and taking out of all three indexes ----------

  lemma EntriesInTree(f: Forest, doc: Node, keys: Keys, s: set<Node>)
    requires Wf(f) && forall n :: n in s ==> n in f.kids && Under(f, doc, n)
    ensures InTree(f, doc, EntriesOf(keys, s))
  {
  }

  lemma VisibleInTree(f: Forest, doc: Node, s: set<Node>)
    requires Wf(f) && s <= VisibleSet(f, doc)
    ensures forall n :: n in s ==> n in f.kids && Under(f, doc, n)
  {
    forall n | n in s ensures Under(f, doc, n) { VisibleUnder(f, doc, n); }
  }

  ghost predicate CanWalk(f: Forest, v: Views, doc: Node, n: Node)
    reads f.kids.Keys`parent, f.kids.Keys`firstChild, f.kids.Keys`lastChild
    reads f.kids.Keys`prevSibling, f.kids.Keys`nextSibling, f.kids.Keys`classAttr, f.kids.Keys`idAttr
  {
    Scene(f, v) && n in f.kids && doc in f.kids && doc !in f.up && Fits(f, n, 0)
  }

  lemma EntriesMinus(keys: Keys, s: set<Node>, t: set<Node>, o: Entries)
    ensures EntriesOf(keys, s) - EntriesOf(keys, t) == EntriesOf(keys, s - t)
    ensures EntriesOf(keys, s) + o - EntriesOf(keys, t) == EntriesOf(keys, s - t) + (o - EntriesOf(keys, t))
  {
  }

  lemma EntriesPlus(keys: Keys, s: set<Node>, t: set<Node>, o: Entries)
    ensures EntriesOf(keys, s) + EntriesOf(keys, t) == EntriesOf(keys, s + t)
    ensures EntriesOf(keys, s) + o + EntriesOf(keys, t) == EntriesOf(keys, s + t) + o
  {
    EntriesSplit(keys, s, t);
  }

  /** The three subtree_added calls of ns_js_index_child_change (src/js.c) */
  method IndexAdded(ct: KeyTable, tt: KeyTable, it: IdTables, doc: Node, n: Node,
                    ghost f: Forest, ghost v: Views, ghost s: set<Node>, ghost o: Entries)
    requires CanWalk(f, v, doc, n) && Under(f, doc, n) && Positive(CountsOf(it))
    requires ct != tt && KeysHold(f, v, ct, tt, s, o) && s <= VisibleSet(f, doc) && InTree(f, doc, o)
    modifies ct, tt, it
    ensures CanWalk(f, v, doc, n) && KeysHold(f, v, ct, tt, s + Walked(f, doc, n), o) && Positive(CountsOf(it))
    ensures Entered(old(TablesOf(it)), TablesOf(it), v.ids, Walked(f, doc, n))
  {
    VisibleInTree(f, doc, s);
    EntriesInTree(f, doc, v.classes, s);
    EntriesInTree(f, doc, v.tags, s);
    AddIds(it, doc, n, 0, f, v);
    AddSubtree(ct, ByClass, doc, n, 0, false, doc, f, v, EntriesOf(v.classes, s) + o);
    AddSubtree(tt, ByTag, doc, n, 0, false, doc, f, v, EntriesOf(v.tags, s));
    EntriesPlus(v.classes, s, Walked(f, doc, n), o);
    EntriesPlus(v.tags, s, Walked(f, doc, n), {});
  }

  /** The three subtree_removed calls of ns_js_index_child_change; `g` is the order of the arrays, which
      may be the one before the subtree was unlinked. */
  method IndexRemoved(ct: KeyTable, tt: KeyTable, it: IdTables, doc: Node, n: Node,
                      ghost f: Forest, ghost v: Views, ghost g: Forest, ghost s: set<Node>, ghost o: Entries)
    requires CanWalk(f, v, doc, n) && Positive(CountsOf(it))
    requires Wf(g) && ct != tt && KeysHold(g, v, ct, tt, s, o)
    modifies ct, tt, it
    ensures CanWalk(f, v, doc, n) && Positive(CountsOf(it))
    ensures KeysHold(g, v, ct, tt, s - Walked(f, doc, n), o - EntriesOf(v.classes, Walked(f, doc, n)))
    ensures Withdrawn(old(TablesOf(it)), TablesOf(it), v.ids, Walked(f, doc, n))
  {
    RemoveIds(it, doc, n, 0, f, v);
    RemoveSubtree(ct, ByClass, doc, n, 0, f, v, g, EntriesOf(v.classes, s) + o);
    RemoveSubtree(tt, ByTag, doc, n, 0, f, v, g, EntriesOf(v.tags, s));
    EntriesMinus(v.classes, s, Walked(f, doc, n), o);
    EntriesMinus(v.tags, s, Walked(f, doc, n), {});
  }

  // ---------- the state that every edit keeps ----------

  /** Less than MAX_DEPTH nodes on every path from a root. */
  ghost predicate Shallow(f: Forest)
    requires Wf(f)
  {
    forall n {:trigger Chain(f, n)} :: n in f.kids ==> |Chain(f, n)| < MAX_DEPTH
  }

  lemma ShallowFits(f: Forest, n: Node)
    requires Wf(f) && Shallow(f) && n in f.kids
    ensures Fits(f, n, 0)
  {
    forall m | m in f.kids && Under(f, n, m) ensures 0 + |Chain(f, m)| - |Chain(f, n)| < MAX_DEPTH {
      assert |Chain(f, n)| > 0;
    }
  }

  /** The tree around a document `doc`, which is itself a root. */
  ghost predicate Stage(doc: Node, f: Forest, v: Views)
    reads f.kids.Keys`parent, f.kids.Keys`firstChild, f.kids.Keys`lastChild
    reads f.kids.Keys`prevSibling, f.kids.Keys`nextSibling, f.kids.Keys`classAttr, f.kids.Keys`idAttr
  {
    Scene(f, v) && doc in f.kids && doc !in f.up && Shallow(f)
  }

  /** The class and tag indexes of the document describe exactly what is visible from it. */
  ghost predicate KeysIndexed(doc: Node, ct: KeyTable, tt: KeyTable, f: Forest, v: Views)
    requires Wf(f)
    reads ct, tt
  {
    KeysFiled(doc, ct, tt, f, v, {})
  }

  /** They do, but for some entries too many in the class index. */
  ghost predicate KeysFiled(doc: Node, ct: KeyTable, tt: KeyTable, f: Forest, v: Views, o: Entries)
    requires Wf(f)
    reads ct, tt
  {
    ct != tt && KeysHold(f, v, ct, tt, VisibleSet(f, doc), o)
  }

  /** Entries that are too many do no harm if they belong there. */
  lemma FiledVerdict(doc: Node, ct: KeyTable, tt: KeyTable, f: Forest, v: Views, o: Entries)
    requires Wf(f) && KeysFiled(doc, ct, tt, f, v, o)
    ensures KeysIndexed(doc, ct, tt, f, v) <==> o <= EntriesOf(v.classes, VisibleSet(f, doc))
  {
    var e := EntriesOf(v.classes, VisibleSet(f, doc));
    assert e + {} == e;
    if o <= e {
      assert e + o == e;
    } else if Holds(f, ct.arrays, e) {
      HoldsOnce(f, ct.arrays, e + o, e);
    }
  }

  lemma HoldsOnce(f: Forest, arrays: map<string, seq<Node>>, want: Entries, other: Entries)
    requires Wf(f) && Holds(f, arrays, want) && Holds(f, arrays, other)
    ensures want == other
  {
    forall e | e in want ensures e in other { assert HoldsAt(f, arrays[e.0], e.0, want); }
    forall e | e in other ensures e in want { assert HoldsAt(f, arrays[e.0], e.0, other); }
  }

  /** So does the id index. */
  ghost predicate IdsIndexed(doc: Node, it: IdTables, f: Forest, v: Views)
    requires Wf(f)
    reads it
  {
    IdExact(it, v.ids, VisibleSet(f, doc))
  }

  // ---------- building ----------

  /** g_hash_table_remove_all */
  method ClearTable(table: KeyTable, ghost f: Forest, ghost v: Views)
    requires Scene(f, v)
    modifies table
    ensures Scene(f, v) && table.arrays == map[]
  {
    table.arrays := map[];
  }

  method ClearCounts(t: IdTables, ghost f: Forest, ghost v: Views)
    requires Scene(f, v)
    modifies t`counts
    ensures Scene(f, v) && CountsOf(t) == map[]
  {
    t.counts := if t.counts.Some? then Some(map[]) else None;
  }

  /** ns_doc_class_index_build and ns_doc_tag_index_build */
  method BuildKeys(table: KeyTable, which: Which, doc: Node, ghost f: Forest, ghost v: Views)
    requires Stage(doc, f, v)
    modifies table
    ensures Scene(f, v) && Holds(f, table.arrays, EntriesOf(KeysFor(which, v), VisibleSet(f, doc)))
  {
    ShallowFits(f, doc);
    ClearTable(table, f, v);
    AddSubtree(table, which, doc, doc, 0, true, doc, f, v, {});
    assert {} + EntriesOf(KeysFor(which, v), VisibleSet(f, doc)) == EntriesOf(KeysFor(which, v), VisibleSet(f, doc));
  }

  /** The nodes of `s` have been entered into empty tables. */
  ghost predicate FromNothing(d: Tables, ids: Ids, s: set<Node>) {
    Entered(Tables(map[], map[], false), d, ids, s)
  }

  /** ns_doc_id_index_build */
  method BuildIds(t: IdTables, doc: Node, ghost f: Forest, ghost v: Views)
    requires Stage(doc, f, v)
    modifies t
    ensures Scene(f, v) && IdsIndexed(doc, t, f, v)
    ensures FromNothing(TablesOf(t), v.ids, VisibleSet(f, doc))
  {
    ShallowFits(f, doc);
    ClearCounts(t, f, v);
    StoreId(t, map[], f, v);
    ghost var a := TablesOf(t);
    EmptyExact(a, v.ids);
    AddIds(t, doc, doc, 0, f, v);
    IsFromNothing(a, TablesOf(t), v.ids, VisibleSet(f, doc));
    EnteredExact(a, TablesOf(t), v.ids, {}, Walked(f, doc, doc));
    assert {} + VisibleSet(f, doc) == VisibleSet(f, doc);
  }

  lemma IsFromNothing(a: Tables, d: Tables, ids: Ids, s: set<Node>)
    requires a.index == map[] && a.counts == map[] && Entered(a, d, ids, s)
    ensures FromNothing(d, ids, s)
  {
    StaysPositive(a, d, ids, s);
    forall id ensures EnteredAt(Tables(map[], map[], false), d, ids, s, id) { EnteredIs(a, d, ids, s, id); }
  }

  lemma EmptyExact(a: Tables, ids: Ids)
    requires a.index == map[] && a.counts == map[]
    ensures Filed(a.index, ids, {}) && Counted(a.counts, ids, {})
  {
    forall id ensures CountAt(a.counts, id) == |WithId(ids, {}, id)| {
      assert WithId(ids, {}, id) == {};
    }
  }

  method Build(ct: KeyTable, tt: KeyTable, it: IdTables, doc: Node, ghost f: Forest, ghost v: Views)
    requires Stage(doc, f, v) && ct != tt
    modifies ct, tt, it
    ensures Stage(doc, f, v) && KeysIndexed(doc, ct, tt, f, v) && IdsIndexed(doc, it, f, v)
    ensures FromNothing(TablesOf(it), v.ids, VisibleSet(f, doc))
  {
    BuildIds(it, doc, f, v);
    BuildKeys(ct, ByClass, doc, f, v);
    BuildKeys(tt, ByTag, doc, f, v);
    assert EntriesOf(v.classes, VisibleSet(f, doc)) + {} == EntriesOf(v.classes, VisibleSet(f, doc));
  }

  // ---------- where a node may be moved ----------

  /** If `doc` contains the new parent, its children are visible. */
  ghost predicate Shown(f: Forest, doc: Node, parent: Node)
    requires Wf(f) && parent in f.kids
  {
    Under(f, doc, parent) ==> Visible(f, doc, parent) && !parent.IsTemplate()
  }

  lemma RootAlone(f: Forest, c: Node, doc: Node)
    requires Wf(f) && doc in f.kids && doc !in f.up
    ensures Under(f, c, doc) <==> c == doc
  {
    UnderStep(f, c, doc);
  }

  lemma DetachedGrafts(f: Forest, c: Node)
    requires Wf(f) && c in f.kids && c in f.up
    ensures Grafted(Detached(f, c), f, c)
  {
    assert UpOk(f, c);
    CutUngrafts(f, c);
  }

  lemma MovedGrafts(f: Forest, p: Node, i: nat, c: Node)
    requires Wf(f) && CanMove(f, p, c) && i <= |Detached(f, c).kids[p]|
    ensures Grafted(Detached(f, c), Moved(f, p, i, c), c)
    ensures Moved(f, p, i, c).up == Detached(f, c).up[c := p]
  {
    DetachedUnder(f, c, p);
    GraftGrafts(Detached(f, c), p, i, c);
  }

  /** What the removal walk of an edit covers: nothing, if the node is in no tree. */
  ghost function Taken(f: Forest, doc: Node, c: Node): set<Node>
    requires Wf(f)
  {
    if c in f.up then Walked(f, doc, c) else {}
  }

  ghost function Put(g: Forest, doc: Node, parent: Node, c: Node): set<Node>
    requires Wf(g) && parent in g.kids
  {
    if Under(g, doc, parent) then Walked(g, doc, c) else {}
  }

  /** Whether the node was visible or not, and wherever it was, what stays visible when it is detached is
      what was visible without what the walk covers. */
  lemma VisibleAfterDetach(f: Forest, c: Node, doc: Node)
    requires Wf(f) && doc in f.kids && doc !in f.up && c in f.kids && c != doc
    ensures VisibleSet(Detached(f, c), doc) == VisibleSet(f, doc) - Taken(f, doc, c)
    ensures c in f.up ==> VisibleSet(Detached(f, c), doc) == VisibleSet(f, doc) - VisibleSet(f, c)
    ensures c in f.up && Visible(f, doc, c) ==> Taken(f, doc, c) <= VisibleSet(f, doc)
  {
    if c in f.up {
      DetachedGrafts(f, c);
      RootAlone(Detached(f, c), c, doc);
      VisibleAfterGraft(Detached(f, c), f, c, doc);
    }
  }

  lemma VisibleAfterMove(f: Forest, p: Node, i: nat, c: Node, doc: Node)
    requires Wf(f) && CanMove(f, p, c) && i <= |Detached(f, c).kids[p]|
    requires doc in f.kids && doc !in f.up && c != doc && Shown(f, doc, p)
    ensures var h, g := Detached(f, c), Moved(f, p, i, c);
            && (Under(g, doc, p) <==> Under(f, doc, p))
            && VisibleSet(h, doc) !! Walked(g, doc, c)
            && VisibleSet(g, doc) == VisibleSet(h, doc) + if Under(f, doc, p) then Walked(g, doc, c) else {}
  {
    var h, g := Detached(f, c), Moved(f, p, i, c);
    MovedGrafts(f, p, i, c);
    RootAlone(h, c, doc);
    VisibleAfterGraft(h, g, c, doc);
    DetachedUnder(f, c, p);
    StaysVisible(f, c, doc, p);
    ChainKept(h, g, c, p);
    VisibleKept(h, g, c, doc, p);
    if Visible(g, doc, p) { VisibleUnder(g, doc, p); }
  }

  /** A node outside the subtree of `c` stays where it is when `c` is taken out. */
  lemma StaysVisible(f: Forest, c: Node, doc: Node, p: Node)
    requires Wf(f) && c in f.kids && p in f.kids && !Under(f, c, p)
    ensures Under(Detached(f, c), doc, p) <==> Under(f, doc, p)
    ensures Visible(Detached(f, c), doc, p) <==> Visible(f, doc, p)
  {
    if c in f.up {
      DetachedGrafts(f, c);
      DetachedUnder(f, c, p);
      ChainKept(Detached(f, c), f, c, p);
      VisibleKept(Detached(f, c), f, c, doc, p);
    }
  }

  // ---------- moving nodes ----------

  /** The removal half of an edit while the node is still linked: ns_js_record_move_removal (src/js.c) */
  method TakeOut(ct: KeyTable, tt: KeyTable, it: IdTables, doc: Node, c: Node,
                 ghost f: Forest, ghost v: Views, ghost o: Entries)
    requires Stage(doc, f, v) && KeysFiled(doc, ct, tt, f, v, o) && Positive(CountsOf(it))
    requires c in f.kids && c != doc && Orphans(f, doc, c, o)
    modifies ct, tt, it
    ensures Scene(f, v) && KeysFiled(doc, ct, tt, Detached(f, c), v, Left(f, doc, c, v, o))
    ensures Positive(CountsOf(it)) && Withdrawn(old(TablesOf(it)), TablesOf(it), v.ids, Taken(f, doc, c))
  {
    LinkedParent(f, c);
    VisibleAfterDetach(f, c, doc);
    ShallowFits(f, c);
    if c.parent != null {
      IndexRemoved(ct, tt, it, doc, c, f, v, f, VisibleSet(f, doc), o);
      OrderAfterDetach(f, c, doc, v, ct, tt, Left(f, doc, c, v, o));
    } else {
      NothingEntered(TablesOf(it), v.ids);
      assert EntriesOf(v.classes, {}) == {};
      assert Left(f, doc, c, v, o) == o;
    }
  }

  /** What an edit leaves of the entries that are too many */
  ghost function Left(f: Forest, doc: Node, c: Node, v: Views, o: Entries): Entries
    requires Wf(f)
  {
    o - EntriesOf(v.classes, Taken(f, doc, c))
  }

  lemma OrderAfterDetach(f: Forest, c: Node, doc: Node, v: Views, ct: KeyTable, tt: KeyTable, o: Entries)
    requires Wf(f) && c in f.kids && c in f.up && doc in f.kids && doc !in f.up && c != doc && Orphans(f, doc, c, o)
    requires KeysHold(f, v, ct, tt, VisibleSet(Detached(f, c), doc), o)
    ensures KeysHold(Detached(f, c), v, ct, tt, VisibleSet(Detached(f, c), doc), o)
  {
    var h := Detached(f, c);
    DetachedGrafts(f, c);
    RootAlone(h, c, doc);
    VisibleAfterGraft(h, f, c, doc);
    VisibleInTree(f, doc, VisibleSet(h, doc));
    forall n | n in VisibleSet(h, doc) ensures !Under(f, c, n) { MovedSubtreeKept(h, f, c, n); }
    KeysAfterMove(f, h, c, doc, v, ct, tt, VisibleSet(h, doc), o);
  }

  /** The node `c` has just been linked below `parent`, and the indexes still describe `s`. */
  ghost predicate Pending(doc: Node, parent: Node, c: Node, g: Forest, s: set<Node>)
    requires Wf(g) && parent in g.kids
  {
    && c in g.up && g.up[c] == parent && c in g.kids && s !! Walked(g, doc, c) && s <= VisibleSet(g, doc)
    && VisibleSet(g, doc) == s + if Under(g, doc, parent) then Walked(g, doc, c) else {}
  }

  /** The insertion half, after the links have changed: ns_js_index_child_change (src/js.c) */
  method PutIn(ct: KeyTable, tt: KeyTable, it: IdTables, doc: Node, parent: Node, c: Node,
               ghost g: Forest, ghost v: Views, ghost s: set<Node>, ghost o: Entries)
    requires Stage(doc, g, v) && parent in g.kids && Pending(doc, parent, c, g, s) && InTree(g, c, o)
    requires ct != tt && KeysHold(g, v, ct, tt, s, o) && Positive(CountsOf(it))
    modifies ct, tt, it
    ensures Stage(doc, g, v) && KeysFiled(doc, ct, tt, g, v, o)
    ensures Positive(CountsOf(it)) && Entered(old(TablesOf(it)), TablesOf(it), v.ids, Put(g, doc, parent, c))
  {
    UnderStep(g, doc, c);
    ShallowFits(g, c);
    var connected := Contains(doc, parent, g);
    if connected {
      forall e | e in o ensures e.1 in g.kids && Under(g, doc, e.1) { UnderTransitive(g, doc, c, e.1); }
      IndexAdded(ct, tt, it, doc, c, g, v, s, o);
    } else {
      NothingEntered(TablesOf(it), v.ids);
      assert s == VisibleSet(g, doc);
    }
  }

  lemma MovedIsPending(f: Forest, p: Node, i: nat, c: Node, doc: Node)
    requires Wf(f) && CanMove(f, p, c) && i <= |Detached(f, c).kids[p]|
    requires doc in f.kids && doc !in f.up && c != doc && Shown(f, doc, p)
    ensures Pending(doc, p, c, Moved(f, p, i, c), VisibleSet(Detached(f, c), doc))
    ensures VisibleSet(Moved(f, p, i, c), doc) == VisibleSet(Detached(f, c), doc) + Put(Moved(f, p, i, c), doc, p, c)
    ensures VisibleSet(Detached(f, c), doc) !! Put(Moved(f, p, i, c), doc, p, c)
    ensures doc !in Moved(f, p, i, c).up
  {
    VisibleAfterMove(f, p, i, c, doc);
    MovedGrafts(f, p, i, c);
  }

  /** The entries of the moved subtree stay in it, and are nowhere in the document while it is detached. */
  lemma OrphansDetached(f: Forest, c: Node, doc: Node, o: Entries)
    requires Wf(f) && c in f.kids && doc in f.kids && doc !in f.up && c != doc && Orphans(f, doc, c, o)
    ensures Orphans(Detached(f, c), doc, c, o)
  {
    var h := Detached(f, c);
    forall e | e in o ensures Under(h, c, e.1) && !Under(h, doc, e.1) {
      DetachedUnder(f, c, e.1);
      RootOfChain(h, c, e.1);
      if Under(h, doc, e.1) { RootOfChain(h, doc, e.1); }
    }
  }

  lemma OrderAfterMove(f: Forest, p: Node, i: nat, c: Node, doc: Node, v: Views, ct: KeyTable, tt: KeyTable, o: Entries)
    requires Wf(f) && CanMove(f, p, c) && i <= |Detached(f, c).kids[p]|
    requires doc in f.kids && doc !in f.up && c != doc && Orphans(f, doc, c, o)
    requires KeysHold(Detached(f, c), v, ct, tt, VisibleSet(Detached(f, c), doc), o)
    ensures KeysHold(Moved(f, p, i, c), v, ct, tt, VisibleSet(Detached(f, c), doc), o)
    ensures InTree(Moved(f, p, i, c), c, o)
  {
    var h, g := Detached(f, c), Moved(f, p, i, c);
    MovedGrafts(f, p, i, c);
    RootAlone(h, c, doc);
    VisibleAfterGraft(h, g, c, doc);
    VisibleInTree(h, doc, VisibleSet(h, doc));
    OrphansDetached(f, c, doc, o);
    forall e | e in o ensures e.1 in g.kids && Under(g, c, e.1) { MovedSubtreeKept(h, g, c, e.1); }
    KeysAfterMove(h, g, c, doc, v, ct, tt, VisibleSet(h, doc), o);
  }

  /** A removal walk may cover nodes that were never visible and uncount their ids.  No id is miscounted by
      that if and only if no node that stays visible carries one of them. */
  ghost predicate NoStrayId(f: Forest, doc: Node, c: Node, v: Views, w: set<Node>)
    requires Wf(f) && c in f.kids
  {
    NoSharedId(v.ids, VisibleSet(Detached(f, c), doc), w - VisibleSet(f, doc))
  }

  /** A node that is visible, or in no tree, can be moved without doubt. */
  lemma VisibleHasNoStrays(f: Forest, doc: Node, c: Node, v: Views)
    requires Wf(f) && doc in f.kids && doc !in f.up && c in f.kids && c != doc && (c in f.up ==> Visible(f, doc, c))
    ensures NoStrayId(f, doc, c, v, Taken(f, doc, c))
  {
    VisibleAfterDetach(f, c, doc);
    assert Taken(f, doc, c) - VisibleSet(f, doc) == {};
  }

  /** The id tables after a move: what the two walks did to them. */
  lemma MovedIds(f: Forest, p: Node, i: nat, c: Node, doc: Node, v: Views, a: Tables, b: Tables, d: Tables)
    requires Wf(f) && CanMove(f, p, c) && i <= |Detached(f, c).kids[p]|
    requires doc in f.kids && doc !in f.up && c != doc && Shown(f, doc, p)
    requires Positive(a.counts) && Withdrawn(a, b, v.ids, Taken(f, doc, c))
    requires Entered(b, d, v.ids, Put(Moved(f, p, i, c), doc, p, c))
    ensures Exact(a, v.ids, VisibleSet(f, doc)) ==>
              (Exact(d, v.ids, VisibleSet(Moved(f, p, i, c), doc)) <==> NoStrayId(f, doc, c, v, Taken(f, doc, c)))
  {
    VisibleAfterDetach(f, c, doc);
    MovedIsPending(f, p, i, c, doc);
    StaysPositive(a, b, v.ids, Taken(f, doc, c));
    if Exact(a, v.ids, VisibleSet(f, doc)) {
      WithdrawnExact(a, b, v.ids, VisibleSet(f, doc), Taken(f, doc, c));
      EnteredExact(b, d, v.ids, VisibleSet(Detached(f, c), doc), Put(Moved(f, p, i, c), doc, p, c));
    }
  }

  /** Of the entries that name a node of the moved subtree and still carry its id, all name one that is walked. */
  ghost predicate NoneHidden(f: Forest, ids: Ids, index: map<string, Node>, c: Node, walked: set<Node>)
    requires Wf(f) && ids.Keys == f.kids.Keys
  {
    forall id :: id in index && index[id] in f.kids && ids[index[id]] == Some(id) && Under(f, c, index[id]) ==>
      index[id] in walked
  }

  /** The ids that are carried outside the moved subtree, and are not entered anew, stay listed. */
  ghost predicate OthersListed(f: Forest, doc: Node, c: Node, ids: Ids, a: Tables, gone: set<Node>, come: set<Node>)
    requires Wf(f) && c in f.kids
  {
    forall id :: WithId(ids, VisibleSet(Detached(f, c), doc), id) != {} && WithId(ids, come, id) == {} ==>
      StaysListed(a, ids, gone, id)
  }

  /** When a move keeps look-ups right, given tables with which they were */
  ghost predicate FoundAfterMove(f: Forest, g: Forest, doc: Node, p: Node, c: Node, ids: Ids, a: Tables)
    requires Wf(f) && Wf(g) && c in f.kids && p in f.kids && p in g.kids && ids.Keys == f.kids.Keys
  {
    && OthersListed(f, doc, c, ids, a, Taken(f, doc, c), Put(g, doc, p, c))
    && (Under(f, doc, p) ==> NoneHidden(f, ids, a.index, c, Put(g, doc, p, c)))
  }

  /** An entry before and after the move */
  lemma EntryMoved(f: Forest, p: Node, i: nat, c: Node, doc: Node, ids: Ids, id: string, n: Node)
    requires Wf(f) && CanMove(f, p, c) && i <= |Detached(f, c).kids[p]| && ids.Keys == f.kids.Keys && n in f.kids
    requires doc in f.kids && doc !in f.up && c != doc && Shown(f, doc, p)
    ensures var g := Moved(f, p, i, c);
            if Under(f, c, n)
            then EntryUsable(g, ids, doc, id, n) <==> (ids[n] == Some(id) && Under(f, doc, p) ==> n in Put(g, doc, p, c))
            else EntryUsable(g, ids, doc, id, n) <==> EntryUsable(f, ids, doc, id, n)
  {
    var h, g := Detached(f, c), Moved(f, p, i, c);
    MovedGrafts(f, p, i, c);
    VisibleAfterMove(f, p, i, c, doc);
    DetachedUnder(f, c, n);
    MovedSubtreeKept(h, g, c, n);
    if Under(f, c, n) {
      InMovedSubtree(h, g, c, p, doc, n);
    } else {
      StaysVisible(f, c, doc, n);
      ChainKept(h, g, c, n);
      VisibleKept(h, g, c, doc, n);
    }
  }

  lemma InMovedSubtree(h: Forest, g: Forest, c: Node, p: Node, doc: Node, n: Node)
    requires Grafted(h, g, c) && p in g.kids && g.up[c] == p && n in h.kids && doc in h.kids && doc !in h.up && c != doc
    requires Under(g, c, n) && VisibleSet(g, doc) == VisibleSet(h, doc) + Put(g, doc, p, c)
    ensures Under(g, doc, n) <==> Under(g, doc, p)
    ensures Visible(g, doc, n) <==> n in Put(g, doc, p, c)
  {
    UnderStep(g, doc, c);
    RootAlone(h, c, doc);
    MovedSubtreeKept(h, g, c, n);
    if Under(g, doc, n) {
      OnOneChain(g, doc, c, n);
      MovedSubtreeKept(h, g, c, doc);
    }
    if Under(g, doc, p) { UnderTransitive(g, doc, c, n); }
    assert Under(h, c, n) && !Under(h, c, doc);
    if Visible(h, doc, n) { AboveTheRoot(h, c, doc, n); }
    assert n in VisibleSet(g, doc) <==> n in VisibleSet(h, doc) || n in Put(g, doc, p, c);
    assert n !in VisibleSet(h, doc);
  }

  /** Of two ancestors of a node, one is above the other. */
  lemma OnOneChain(f: Forest, a: Node, b: Node, n: Node)
    requires Wf(f) && n in f.kids && Under(f, a, n) && Under(f, b, n)
    ensures a in f.kids && b in f.kids && (Under(f, a, b) || Under(f, b, a))
  {
    var i :| 0 <= i < |Chain(f, n)| && Chain(f, n)[i] == a;
    var j :| 0 <= j < |Chain(f, n)| && Chain(f, n)[j] == b;
    ChainPrefix(f, n, i);
    ChainPrefix(f, n, j);
    if i <= j {
      assert Chain(f, n)[..j + 1][i] == a;
    } else {
      assert Chain(f, n)[..i + 1][j] == b;
    }
  }

  /** After a move, look-ups are right exactly if the ids carried elsewhere stay listed and, below the document, no
      entry names a hidden node of the moved subtree. */
  lemma MovedUsable(f: Forest, p: Node, i: nat, c: Node, doc: Node, ids: Ids, a: Tables, b: Tables, d: Tables)
    requires Wf(f) && CanMove(f, p, c) && i <= |Detached(f, c).kids[p]| && ids.Keys == f.kids.Keys
    requires doc in f.kids && doc !in f.up && c != doc && Shown(f, doc, p) && Positive(a.counts)
    requires Withdrawn(a, b, ids, Taken(f, doc, c)) && Entered(b, d, ids, Put(Moved(f, p, i, c), doc, p, c))
    requires Usable(f, a, ids, doc)
    ensures Usable(Moved(f, p, i, c), d, ids, doc) <==> FoundAfterMove(f, Moved(f, p, i, c), doc, p, c, ids, a)
  {
    var g := Moved(f, p, i, c);
    var w := Put(g, doc, p, c);
    MovedIsPending(f, p, i, c, doc);
    StaysPositive(a, b, ids, Taken(f, doc, c));
    WithdrawnUsable(g, a, b, ids, doc, Taken(f, doc, c));
    EnteredUsable(g, b, d, ids, doc, VisibleSet(Detached(f, c), doc), w);
    MovedEntries(f, p, i, c, doc, ids, a.index);
  }

  lemma MovedEntries(f: Forest, p: Node, i: nat, c: Node, doc: Node, ids: Ids, index: map<string, Node>)
    requires Wf(f) && CanMove(f, p, c) && i <= |Detached(f, c).kids[p]| && ids.Keys == f.kids.Keys
    requires doc in f.kids && doc !in f.up && c != doc && Shown(f, doc, p) && IndexUsable(f, ids, doc, index)
    ensures var g := Moved(f, p, i, c);
            (forall id :: id in index && index[id] !in WithId(ids, Taken(f, doc, c), id) ==>
               EntryUsable(g, ids, doc, id, index[id])) <==>
            (Under(f, doc, p) ==> NoneHidden(f, ids, index, c, Put(g, doc, p, c)))
  {
    var g := Moved(f, p, i, c);
    if Under(f, doc, p) { TakenIsPut(f, p, i, c, doc); }
    forall id | id in index
      ensures index[id] in f.kids
      ensures if Under(f, c, index[id])
              then EntryUsable(g, ids, doc, id, index[id]) <==>
                   (ids[index[id]] == Some(id) && Under(f, doc, p) ==> index[id] in Put(g, doc, p, c))
              else EntryUsable(g, ids, doc, id, index[id])
    {
      assert EntryUsable(f, ids, doc, id, index[id]);
      EntryMoved(f, p, i, c, doc, ids, id, index[id]);
    }
  }

  lemma TakenIsPut(f: Forest, p: Node, i: nat, c: Node, doc: Node)
    requires Wf(f) && CanMove(f, p, c) && i <= |Detached(f, c).kids[p]|
    requires doc in f.kids && doc !in f.up && c != doc && Shown(f, doc, p) && Under(f, doc, p)
    ensures Taken(f, doc, c) <= Put(Moved(f, p, i, c), doc, p, c)
  {
    var h, g := Detached(f, c), Moved(f, p, i, c);
    VisibleAfterMove(f, p, i, c, doc);
    MovedGrafts(f, p, i, c);
    RootAlone(h, c, doc);
    VisibleAfterGraft(h, g, c, doc);
    if c in f.up {
      DetachedGrafts(f, c);
      VisibleAfterGraft(h, f, c, doc);
    }
  }

  method PutMoved(ct: KeyTable, tt: KeyTable, it: IdTables, doc: Node, parent: Node, c: Node,
                  ghost f: Forest, ghost v: Views, ghost i: nat, ghost o: Entries)
    requires Wf(f) && CanMove(f, parent, c) && doc in f.kids && doc !in f.up && c != doc && Shown(f, doc, parent)
    requires i <= |Detached(f, c).kids[parent]| && Shallow(Moved(f, parent, i, c)) && Scene(Moved(f, parent, i, c), v)
    requires KeysFiled(doc, ct, tt, Detached(f, c), v, o) && Positive(CountsOf(it)) && Orphans(f, doc, c, o)
    modifies ct, tt, it
    ensures var g := Moved(f, parent, i, c); Stage(doc, g, v) && KeysFiled(doc, ct, tt, g, v, o)
    ensures Positive(CountsOf(it))
    ensures Entered(old(TablesOf(it)), TablesOf(it), v.ids, Put(Moved(f, parent, i, c), doc, parent, c))
  {
    MovedIsPending(f, parent, i, c, doc);
    OrderAfterMove(f, parent, i, c, doc, v, ct, tt, o);
    PutIn(ct, tt, it, doc, parent, c, Moved(f, parent, i, c), v, VisibleSet(Detached(f, c), doc), o);
  }

  /** ns_node_append_child, with the note that the attributes stay. */
  method Append(parent: Node, c: Node, ghost f: Forest, ghost v: Views, ghost i: nat)
    requires Scene(f, v) && CanMove(f, parent, c) && i == |Detached(f, c).kids[parent]|
    modifies f.kids.Keys`parent, f.kids.Keys`firstChild, f.kids.Keys`lastChild
    modifies f.kids.Keys`prevSibling, f.kids.Keys`nextSibling
    ensures Scene(Moved(f, parent, i, c), v)
  {
    OpenScene(f, v);
    AppendChild(parent, c, f);
  }

  method AppendMoved(ct: KeyTable, tt: KeyTable, it: IdTables, doc: Node, parent: Node, c: Node,
                     ghost f: Forest, ghost v: Views, ghost i: nat, ghost o: Entries)
    requires Scene(f, v) && CanMove(f, parent, c) && doc in f.kids && doc !in f.up && c != doc && Shown(f, doc, parent)
    requires i == |Detached(f, c).kids[parent]| && Shallow(Moved(f, parent, i, c))
    requires KeysFiled(doc, ct, tt, Detached(f, c), v, o) && Positive(CountsOf(it)) && Orphans(f, doc, c, o)
    modifies ct, tt, it, f.kids.Keys`parent, f.kids.Keys`firstChild, f.kids.Keys`lastChild
    modifies f.kids.Keys`prevSibling, f.kids.Keys`nextSibling
    ensures var g := Moved(f, parent, i, c); Stage(doc, g, v) && KeysFiled(doc, ct, tt, g, v, o)
    ensures Positive(CountsOf(it))
    ensures Entered(old(TablesOf(it)), TablesOf(it), v.ids, Put(Moved(f, parent, i, c), doc, parent, c))
  {
    Append(parent, c, f, v, i);
    PutMoved(ct, tt, it, doc, parent, c, f, v, i, o);
  }

  /** What may be moved: a document that is in no tree is a fragment, whose children are moved one by one. */
  ghost predicate NoFragment(f: Forest, c: Node) {
    c.kind != Document || c in f.up
  }

  /** What a move does to the indexes, from id tables `a` and a class index with the entries `o` too many; under a
      key */
  ghost predicate MovedRight(ct: KeyTable, tt: KeyTable, it: IdTables, doc: Node, p: Node, c: Node, i: nat,
                             f: Forest, v: Views, o: Entries, a: Tables)
    requires CanMove(f, p, c) && i <= |Detached(f, c).kids[p]| && v.ids.Keys == f.kids.Keys
    reads ct, tt, it
  {
    forall key {:trigger Open(key)} :: Key(key) ==>
      var g := Moved(f, p, i, c);
      && KeysVerdict(doc, ct, tt, g, v, Left(f, doc, c, v, o))
      && ExactVerdict(doc, it, f, g, v, a, NoStrayId(f, doc, c, v, Taken(f, doc, c)))
      && FindVerdict(doc, it, f, g, v.ids, a, FoundAfterMove(f, g, doc, p, c, v.ids, a))
  }

  /** The class and tag indexes describe the document but for the entries `o`, and are right if these belong there. */
  ghost predicate KeysVerdict(doc: Node, ct: KeyTable, tt: KeyTable, g: Forest, v: Views, o: Entries)
    requires Wf(g)
    reads ct, tt
  {
    && KeysFiled(doc, ct, tt, g, v, o)
    && (KeysIndexed(doc, ct, tt, g, v) <==> o <= EntriesOf(v.classes, VisibleSet(g, doc)))
  }

  /** If the tables were exact, they are so again exactly if `right`. */
  ghost predicate ExactVerdict(doc: Node, it: IdTables, f: Forest, g: Forest, v: Views, a: Tables, right: bool)
    requires Wf(f) && Wf(g)
    reads it
  {
    Exact(a, v.ids, VisibleSet(f, doc)) ==> (IdsIndexed(doc, it, g, v) <==> right)
  }

  /** If look-ups were right, they are so again exactly if `right`. */
  ghost predicate FindVerdict(doc: Node, it: IdTables, f: Forest, g: Forest, ids: Ids, a: Tables, right: bool)
    requires Wf(f) && Wf(g) && f.kids.Keys == g.kids.Keys == ids.Keys
    reads it
  {
    Usable(f, a, ids, doc) ==> (IdUsable(g, it, ids, doc) <==> right)
  }

  lemma MovedKeys(ct: KeyTable, tt: KeyTable, it: IdTables, doc: Node, p: Node, c: Node, i: nat,
                  f: Forest, v: Views, o: Entries, a: Tables, g: Forest)
    requires CanMove(f, p, c) && i <= |Detached(f, c).kids[p]| && v.ids.Keys == f.kids.Keys && g == Moved(f, p, i, c)
    requires MovedRight(ct, tt, it, doc, p, c, i, f, v, o, a)
    ensures KeysFiled(doc, ct, tt, g, v, Left(f, doc, c, v, o))
    ensures KeysIndexed(doc, ct, tt, g, v) <==> Left(f, doc, c, v, o) <= EntriesOf(v.classes, VisibleSet(g, doc))
  {
    assert Open(true);
  }

  lemma MovedExactIds(ct: KeyTable, tt: KeyTable, it: IdTables, doc: Node, p: Node, c: Node, i: nat,
                      f: Forest, v: Views, o: Entries, a: Tables, g: Forest)
    requires CanMove(f, p, c) && i <= |Detached(f, c).kids[p]| && v.ids.Keys == f.kids.Keys && g == Moved(f, p, i, c)
    requires MovedRight(ct, tt, it, doc, p, c, i, f, v, o, a) && Exact(a, v.ids, VisibleSet(f, doc))
    ensures IdsIndexed(doc, it, g, v) <==> NoStrayId(f, doc, c, v, Taken(f, doc, c))
  {
    assert Open(true);
  }

  lemma MovedFinds(ct: KeyTable, tt: KeyTable, it: IdTables, doc: Node, p: Node, c: Node, i: nat,
                   f: Forest, v: Views, o: Entries, a: Tables, g: Forest)
    requires CanMove(f, p, c) && i <= |Detached(f, c).kids[p]| && v.ids.Keys == f.kids.Keys && g == Moved(f, p, i, c)
    requires MovedRight(ct, tt, it, doc, p, c, i, f, v, o, a) && Usable(f, a, v.ids, doc)
    ensures IdUsable(g, it, v.ids, doc) <==> FoundAfterMove(f, g, doc, p, c, v.ids, a)
  {
    assert Open(true);
  }

  /** appendChild: wherever the node was, the class and tag indexes describe the document with the node moved, and
      the id index does exactly if no id strays.  If the class index had entries of the moved subtree that did not
      belong, it is right again exactly if those that are left belong now.  If look-ups of ids were right, they stay
      so exactly under the condition of FoundAfterMove. */
  method AppendIndexed(ct: KeyTable, tt: KeyTable, it: IdTables, doc: Node, parent: Node, c: Node,
                       ghost f: Forest, ghost v: Views, ghost i: nat, ghost o: Entries) returns (ghost mid: Tables)
    requires Stage(doc, f, v) && KeysFiled(doc, ct, tt, f, v, o) && Positive(CountsOf(it)) && Orphans(f, doc, c, o)
    requires CanMove(f, parent, c) && c != doc && Shown(f, doc, parent) && NoFragment(f, c)
    requires i == |Detached(f, c).kids[parent]| && Shallow(Moved(f, parent, i, c))
    modifies ct, tt, it, f.kids.Keys`parent, f.kids.Keys`firstChild, f.kids.Keys`lastChild
    modifies f.kids.Keys`prevSibling, f.kids.Keys`nextSibling
    ensures Stage(doc, Moved(f, parent, i, c), v) && Positive(CountsOf(it))
    ensures MovedRight(ct, tt, it, doc, parent, c, i, f, v, o, old(TablesOf(it)))
    ensures Withdrawn(old(TablesOf(it)), mid, v.ids, Taken(f, doc, c))
    ensures Entered(mid, TablesOf(it), v.ids, Put(Moved(f, parent, i, c), doc, parent, c))
  {
    ghost var a := TablesOf(it);
    TakeOut(ct, tt, it, doc, c, f, v, o);
    mid := TablesOf(it);
    AppendMoved(ct, tt, it, doc, parent, c, f, v, i, Left(f, doc, c, v, o));
    MoveVerdict(ct, tt, it, doc, parent, c, i, f, v, o, a, mid);
  }

  lemma MoveVerdict(ct: KeyTable, tt: KeyTable, it: IdTables, doc: Node, p: Node, c: Node, i: nat,
                    f: Forest, v: Views, o: Entries, a: Tables, b: Tables)
    requires CanMove(f, p, c) && i <= |Detached(f, c).kids[p]| && v.ids.Keys == f.kids.Keys
    requires doc in f.kids && doc !in f.up && c != doc && Shown(f, doc, p) && Positive(a.counts)
    requires Withdrawn(a, b, v.ids, Taken(f, doc, c))
    requires Entered(b, TablesOf(it), v.ids, Put(Moved(f, p, i, c), doc, p, c))
    requires KeysFiled(doc, ct, tt, Moved(f, p, i, c), v, Left(f, doc, c, v, o))
    ensures MovedRight(ct, tt, it, doc, p, c, i, f, v, o, a)
  {
    var g := Moved(f, p, i, c);
    FiledVerdict(doc, ct, tt, g, v, Left(f, doc, c, v, o));
    MovedIdVerdicts(it, doc, p, c, i, f, v, a, b);
    assert KeysVerdict(doc, ct, tt, g, v, Left(f, doc, c, v, o));
    assert ExactVerdict(doc, it, f, g, v, a, NoStrayId(f, doc, c, v, Taken(f, doc, c)));
    assert FindVerdict(doc, it, f, g, v.ids, a, FoundAfterMove(f, g, doc, p, c, v.ids, a));
  }

  lemma MovedIdVerdicts(it: IdTables, doc: Node, p: Node, c: Node, i: nat, f: Forest, v: Views, a: Tables, b: Tables)
    requires CanMove(f, p, c) && i <= |Detached(f, c).kids[p]| && v.ids.Keys == f.kids.Keys
    requires doc in f.kids && doc !in f.up && c != doc && Shown(f, doc, p) && Positive(a.counts)
    requires Withdrawn(a, b, v.ids, Taken(f, doc, c))
    requires Entered(b, TablesOf(it), v.ids, Put(Moved(f, p, i, c), doc, p, c))
    ensures ExactVerdict(doc, it, f, Moved(f, p, i, c), v, a, NoStrayId(f, doc, c, v, Taken(f, doc, c)))
    ensures FindVerdict(doc, it, f, Moved(f, p, i, c), v.ids, a, FoundAfterMove(f, Moved(f, p, i, c), doc, p, c, v.ids, a))
  {
    MovedIds(f, p, i, c, doc, v, a, b, TablesOf(it));
    if Usable(f, a, v.ids, doc) { MovedUsable(f, p, i, c, doc, v.ids, a, b, TablesOf(it)); }
  }

  /** ns_element_insert_before_single (src/js.c), with the same note. */
  method Insert(parent: Node, c: Node, ref: Node, ghost f: Forest, ghost v: Views, ghost i: nat)
    requires Scene(f, v) && CanMove(f, parent, c) && ref in f.kids && c != ref
    requires i < |Detached(f, c).kids[parent]| && Detached(f, c).kids[parent][i] == ref
    modifies f.kids.Keys`parent, f.kids.Keys`firstChild, f.kids.Keys`lastChild
    modifies f.kids.Keys`prevSibling, f.kids.Keys`nextSibling
    ensures Scene(Moved(f, parent, i, c), v)
  {
    OpenScene(f, v);
    InsertBefore(parent, c, ref, f, i);
  }

  /** insertBefore */
  method InsertIndexed(ct: KeyTable, tt: KeyTable, it: IdTables, doc: Node, parent: Node, c: Node, ref: Node,
                       ghost f: Forest, ghost v: Views, ghost o: Entries) returns (ghost i: nat, ghost mid: Tables)
    requires Stage(doc, f, v) && KeysFiled(doc, ct, tt, f, v, o) && Positive(CountsOf(it)) && Orphans(f, doc, c, o)
    requires CanMove(f, parent, c) && c != doc && Shown(f, doc, parent) && NoFragment(f, c)
    requires ref in f.kids && ref in f.up && f.up[ref] == parent && c != ref
    requires forall i :: 0 <= i < |Detached(f, c).kids[parent]| ==> Shallow(Moved(f, parent, i, c))
    modifies ct, tt, it, f.kids.Keys`parent, f.kids.Keys`firstChild, f.kids.Keys`lastChild
    modifies f.kids.Keys`prevSibling, f.kids.Keys`nextSibling
    ensures i < |Detached(f, c).kids[parent]| && Detached(f, c).kids[parent][i] == ref
    ensures Stage(doc, Moved(f, parent, i, c), v) && Positive(CountsOf(it))
    ensures MovedRight(ct, tt, it, doc, parent, c, i, f, v, o, old(TablesOf(it)))
    ensures Withdrawn(old(TablesOf(it)), mid, v.ids, Taken(f, doc, c))
    ensures Entered(mid, TablesOf(it), v.ids, Put(Moved(f, parent, i, c), doc, parent, c))
  {
    i := RefPosition(f, parent, c, ref);
    mid := InsertAt(ct, tt, it, doc, parent, c, ref, f, v, i, o);
  }

  method InsertMoved(ct: KeyTable, tt: KeyTable, it: IdTables, doc: Node, parent: Node, c: Node, ref: Node,
                     ghost f: Forest, ghost v: Views, ghost i: nat, ghost o: Entries)
    requires Scene(f, v) && CanMove(f, parent, c) && doc in f.kids && doc !in f.up && c != doc && Shown(f, doc, parent)
    requires i < |Detached(f, c).kids[parent]| && Detached(f, c).kids[parent][i] == ref && Shallow(Moved(f, parent, i, c))
    requires ref in f.kids && c != ref
    requires KeysFiled(doc, ct, tt, Detached(f, c), v, o) && Positive(CountsOf(it)) && Orphans(f, doc, c, o)
    modifies ct, tt, it, f.kids.Keys`parent, f.kids.Keys`firstChild, f.kids.Keys`lastChild
    modifies f.kids.Keys`prevSibling, f.kids.Keys`nextSibling
    ensures var g := Moved(f, parent, i, c); Stage(doc, g, v) && KeysFiled(doc, ct, tt, g, v, o)
    ensures Positive(CountsOf(it))
    ensures Entered(old(TablesOf(it)), TablesOf(it), v.ids, Put(Moved(f, parent, i, c), doc, parent, c))
  {
    Insert(parent, c, ref, f, v, i);
    PutMoved(ct, tt, it, doc, parent, c, f, v, i, o);
  }

  method InsertAt(ct: KeyTable, tt: KeyTable, it: IdTables, doc: Node, parent: Node, c: Node, ref: Node,
                  ghost f: Forest, ghost v: Views, ghost i: nat, ghost o: Entries) returns (ghost mid: Tables)
    requires Stage(doc, f, v) && KeysFiled(doc, ct, tt, f, v, o) && Positive(CountsOf(it)) && Orphans(f, doc, c, o)
    requires CanMove(f, parent, c) && c != doc && Shown(f, doc, parent) && ref in f.kids && c != ref
    requires i < |Detached(f, c).kids[parent]| && Detached(f, c).kids[parent][i] == ref && Shallow(Moved(f, parent, i, c))
    modifies ct, tt, it, f.kids.Keys`parent, f.kids.Keys`firstChild, f.kids.Keys`lastChild
    modifies f.kids.Keys`prevSibling, f.kids.Keys`nextSibling
    ensures Stage(doc, Moved(f, parent, i, c), v) && Positive(CountsOf(it))
    ensures MovedRight(ct, tt, it, doc, parent, c, i, f, v, o, old(TablesOf(it)))
    ensures Withdrawn(old(TablesOf(it)), mid, v.ids, Taken(f, doc, c))
    ensures Entered(mid, TablesOf(it), v.ids, Put(Moved(f, parent, i, c), doc, parent, c))
  {
    ghost var a := TablesOf(it);
    TakeOut(ct, tt, it, doc, c, f, v, o);
    mid := TablesOf(it);
    InsertMoved(ct, tt, it, doc, parent, c, ref, f, v, i, Left(f, doc, c, v, o));
    MoveVerdict(ct, tt, it, doc, parent, c, i, f, v, o, a, mid);
  }

  /** ns_node_remove, with the same note. */
  method Remove(c: Node, ghost f: Forest, ghost v: Views)
    requires Scene(f, v) && c in f.kids
    modifies f.kids.Keys`parent, f.kids.Keys`firstChild, f.kids.Keys`lastChild
    modifies f.kids.Keys`prevSibling, f.kids.Keys`nextSibling
    ensures Scene(Detached(f, c), v)
  {
    OpenScene(f, v);
    Detach(c, f);
  }

  lemma ShallowAfterDetach(f: Forest, c: Node)
    requires Wf(f) && Shallow(f) && c in f.kids && c in f.up
    ensures Shallow(Detached(f, c))
  {
    DetachedGrafts(f, c);
    forall n | n in f.kids ensures |Chain(Detached(f, c), n)| <= |Chain(f, n)| {
      ShorterChain(Detached(f, c), f, c, n);
    }
  }

  lemma {:induction false} ShorterChain(h: Forest, f: Forest, c: Node, n: Node)
    requires Grafted(h, f, c) && n in f.kids
    ensures |Chain(h, n)| <= |Chain(f, n)|
    decreases f.rank[n]
  {
    if n in h.up {
      assert UpOk(h, n) && UpOk(f, n);
      ShorterChain(h, f, c, f.up[n]);
    }
  }

  /** What a removal does to the indexes, as MovedRight; under a key */
  ghost predicate RemovedRight(ct: KeyTable, tt: KeyTable, it: IdTables, doc: Node, c: Node,
                               f: Forest, v: Views, o: Entries, a: Tables)
    requires Wf(f) && c in f.kids && v.ids.Keys == f.kids.Keys
    reads ct, tt, it
  {
    forall key {:trigger Open(key)} :: Key(key) ==>
      var h, w := Detached(f, c), VisibleSet(f, c);
      && KeysVerdict(doc, ct, tt, h, v, o - EntriesOf(v.classes, w))
      && ExactVerdict(doc, it, f, h, v, a, NoStrayId(f, doc, c, v, w))
      && FindVerdict(doc, it, f, h, v.ids, a, OthersListed(f, doc, c, v.ids, a, w, {}))
  }

  lemma RemovedKeys(ct: KeyTable, tt: KeyTable, it: IdTables, doc: Node, c: Node,
                    f: Forest, v: Views, o: Entries, a: Tables, h: Forest)
    requires Wf(f) && c in f.kids && v.ids.Keys == f.kids.Keys && h == Detached(f, c)
    requires RemovedRight(ct, tt, it, doc, c, f, v, o, a)
    ensures KeysFiled(doc, ct, tt, h, v, o - EntriesOf(v.classes, VisibleSet(f, c)))
    ensures KeysIndexed(doc, ct, tt, h, v) <==>
            o - EntriesOf(v.classes, VisibleSet(f, c)) <= EntriesOf(v.classes, VisibleSet(h, doc))
  {
    assert Open(true);
  }

  lemma RemovedExactIds(ct: KeyTable, tt: KeyTable, it: IdTables, doc: Node, c: Node,
                        f: Forest, v: Views, o: Entries, a: Tables, h: Forest)
    requires Wf(f) && c in f.kids && v.ids.Keys == f.kids.Keys && h == Detached(f, c)
    requires RemovedRight(ct, tt, it, doc, c, f, v, o, a) && Exact(a, v.ids, VisibleSet(f, doc))
    ensures IdsIndexed(doc, it, h, v) <==> NoStrayId(f, doc, c, v, VisibleSet(f, c))
  {
    assert Open(true);
  }

  lemma RemovedFinds(ct: KeyTable, tt: KeyTable, it: IdTables, doc: Node, c: Node,
                     f: Forest, v: Views, o: Entries, a: Tables, h: Forest)
    requires Wf(f) && c in f.kids && v.ids.Keys == f.kids.Keys && h == Detached(f, c)
    requires RemovedRight(ct, tt, it, doc, c, f, v, o, a) && Usable(f, a, v.ids, doc)
    ensures IdUsable(h, it, v.ids, doc) <==> OthersListed(f, doc, c, v.ids, a, VisibleSet(f, c), {})
  {
    assert Open(true);
  }

  /** removeChild: here the subtree is walked after it has been unlinked. */
  method RemoveIndexed(ct: KeyTable, tt: KeyTable, it: IdTables, doc: Node, c: Node,
                       ghost f: Forest, ghost v: Views, ghost o: Entries)
    requires Stage(doc, f, v) && KeysFiled(doc, ct, tt, f, v, o) && Positive(CountsOf(it)) && Orphans(f, doc, c, o)
    requires c in f.kids && c in f.up
    modifies ct, tt, it, f.kids.Keys`parent, f.kids.Keys`firstChild, f.kids.Keys`lastChild
    modifies f.kids.Keys`prevSibling, f.kids.Keys`nextSibling
    ensures Stage(doc, Detached(f, c), v) && Positive(CountsOf(it))
    ensures RemovedRight(ct, tt, it, doc, c, f, v, o, old(TablesOf(it)))
    ensures Withdrawn(old(TablesOf(it)), TablesOf(it), v.ids, VisibleSet(f, c))
  {
    ghost var h, a := Detached(f, c), TablesOf(it);
    VisibleAfterDetach(f, c, doc);
    WalkedAlone(f, c, doc);
    ShallowAfterDetach(f, c);
    Remove(c, f, v);
    ShallowFits(h, c);
    IndexRemoved(ct, tt, it, doc, c, h, v, f, VisibleSet(f, doc), o);
    OrderAfterDetach(f, c, doc, v, ct, tt, o - EntriesOf(v.classes, VisibleSet(f, c)));
    RemoveVerdict(ct, tt, it, doc, c, f, v, o, a);
  }

  lemma RemoveVerdict(ct: KeyTable, tt: KeyTable, it: IdTables, doc: Node, c: Node, f: Forest, v: Views, o: Entries, a: Tables)
    requires Wf(f) && c in f.kids && c in f.up && doc in f.kids && doc !in f.up && v.ids.Keys == f.kids.Keys
    requires Positive(a.counts) && Withdrawn(a, TablesOf(it), v.ids, VisibleSet(f, c)) && Orphans(f, doc, c, o)
    requires KeysFiled(doc, ct, tt, Detached(f, c), v, o - EntriesOf(v.classes, VisibleSet(f, c)))
    ensures RemovedRight(ct, tt, it, doc, c, f, v, o, a)
  {
    FiledVerdict(doc, ct, tt, Detached(f, c), v, o - EntriesOf(v.classes, VisibleSet(f, c)));
    RemovedIdVerdicts(it, doc, c, f, v, a);
    assert KeysVerdict(doc, ct, tt, Detached(f, c), v, o - EntriesOf(v.classes, VisibleSet(f, c)));
    assert ExactVerdict(doc, it, f, Detached(f, c), v, a, NoStrayId(f, doc, c, v, VisibleSet(f, c)));
    assert FindVerdict(doc, it, f, Detached(f, c), v.ids, a, OthersListed(f, doc, c, v.ids, a, VisibleSet(f, c), {}));
  }

  lemma RemovedIdVerdicts(it: IdTables, doc: Node, c: Node, f: Forest, v: Views, a: Tables)
    requires Wf(f) && c in f.kids && c in f.up && doc in f.kids && doc !in f.up && v.ids.Keys == f.kids.Keys
    requires Positive(a.counts) && Withdrawn(a, TablesOf(it), v.ids, VisibleSet(f, c))
    ensures ExactVerdict(doc, it, f, Detached(f, c), v, a, NoStrayId(f, doc, c, v, VisibleSet(f, c)))
    ensures FindVerdict(doc, it, f, Detached(f, c), v.ids, a, OthersListed(f, doc, c, v.ids, a, VisibleSet(f, c), {}))
  {
    VisibleAfterDetach(f, c, doc);
    if Exact(a, v.ids, VisibleSet(f, doc)) {
      WithdrawnExact(a, TablesOf(it), v.ids, VisibleSet(f, doc), VisibleSet(f, c));
    }
    if Usable(f, a, v.ids, doc) { RemovedUsable(f, c, doc, v.ids, a, TablesOf(it)); }
  }

  lemma RemovedUsable(f: Forest, c: Node, doc: Node, ids: Ids, a: Tables, b: Tables)
    requires Wf(f) && c in f.kids && c in f.up && doc in f.kids && doc !in f.up && ids.Keys == f.kids.Keys
    requires Withdrawn(a, b, ids, VisibleSet(f, c)) && Usable(f, a, ids, doc)
    ensures Usable(Detached(f, c), b, ids, doc) <==> OthersListed(f, doc, c, ids, a, VisibleSet(f, c), {})
  {
    var h := Detached(f, c);
    WithdrawnUsable(h, a, b, ids, doc, VisibleSet(f, c));
    forall id | id in a.index ensures EntryUsable(h, ids, doc, id, a.index[id]) {
      assert EntryUsable(f, ids, doc, id, a.index[id]);
      EntryDetached(f, c, doc, ids, id, a.index[id]);
    }
    assert forall id :: WithId(ids, {}, id) == {};
  }

  lemma EntryDetached(f: Forest, c: Node, doc: Node, ids: Ids, id: string, n: Node)
    requires Wf(f) && c in f.kids && c in f.up && doc in f.kids && doc !in f.up && ids.Keys == f.kids.Keys
    requires EntryUsable(f, ids, doc, id, n)
    ensures EntryUsable(Detached(f, c), ids, doc, id, n)
  {
    var h := Detached(f, c);
    if Under(f, c, n) {
      DetachedUnder(f, c, n);
      RootOfChain(h, c, n);
      if Under(h, doc, n) { RootOfChain(h, doc, n); }
    } else {
      StaysVisible(f, c, doc, n);
    }
  }

  lemma WalkedAlone(f: Forest, c: Node, doc: Node)
    requires Wf(f) && c in f.kids && c in f.up && doc in f.kids && doc !in f.up
    ensures Walked(Detached(f, c), doc, c) == VisibleSet(f, c) && doc !in Detached(f, c).up
  {
    DetachedGrafts(f, c);
    RootAlone(Detached(f, c), c, doc);
    VisibleAfterGraft(Detached(f, c), f, c, doc);
  }

  // ---------- changing the class ----------

  lemma SeesClass(a: Attrs, v: Views, n: Node, value: Option<string>)
    requires Sees(a, v) && n in a.cls
    ensures Sees(a.(cls := a.cls[n := value]), v.(classes := v.classes[n := NodeKeys(ByClass, n, value)]))
  {
  }

  lemma SeesId(a: Attrs, v: Views, n: Node, value: Option<string>)
    requires Sees(a, v) && n in a.id
    ensures Sees(a.(id := a.id[n := value]), v.(ids := v.ids[n := NodeId(n, value)]))
  {
  }

  method PutClass(n: Node, value: Option<string>, ghost s: set<Node>)
    requires n in s
    modifies n`classAttr
    ensures n.classAttr == value
    ensures AttrsOf(s) == old(AttrsOf(s)).(cls := old(AttrsOf(s)).cls[n := value])
  {
    n.classAttr := value;
  }

  method PutId(n: Node, value: Option<string>, ghost s: set<Node>)
    requires n in s
    modifies n`idAttr
    ensures n.idAttr == value
    ensures AttrsOf(s) == old(AttrsOf(s)).(id := old(AttrsOf(s)).id[n := value])
  {
    n.idAttr := value;
  }

  method WriteClass(n: Node, value: Option<string>, ghost f: Forest, ghost v: Views) returns (ghost w: Views)
    requires Scene(f, v) && n in f.kids
    modifies n`classAttr
    ensures n.classAttr == value && w == v.(classes := v.classes[n := NodeKeys(ByClass, n, value)])
    ensures Scene(f, w)
  {
    OpenScene(f, v);
    w := v.(classes := v.classes[n := NodeKeys(ByClass, n, value)]);
    SeesClass(AttrsOf(f.kids.Keys), v, n, value);
    PutClass(n, value, f.kids.Keys);
  }

  method WriteId(n: Node, value: Option<string>, ghost f: Forest, ghost v: Views) returns (ghost w: Views)
    requires Scene(f, v) && n in f.kids
    modifies n`idAttr
    ensures n.idAttr == value && w == v.(ids := v.ids[n := NodeId(n, value)])
    ensures Scene(f, w)
  {
    OpenScene(f, v);
    w := v.(ids := v.ids[n := NodeId(n, value)]);
    SeesId(AttrsOf(f.kids.Keys), v, n, value);
    PutId(n, value, f.kids.Keys);
  }

  /** New class tokens for one node. */
  lemma EntriesAfterClass(keys: Keys, s: set<Node>, n: Node, was: set<string>, now: set<string>, o: Entries)
    requires n in keys && keys[n] == was && o <= Pairs(was, n)
    ensures EntriesOf(keys, s) + o - Pairs(was, n) == EntriesOf(keys, s) - Pairs(was, n)
    ensures EntriesOf(keys, s) - Pairs(was, n) + Pairs(now, n) == EntriesOf(keys[n := now], s) + Pairs(now, n)
  {
  }

  /** Some visible element carries the class. */
  ghost predicate Carried(v: Views, s: set<Node>, k: string) {
    exists m :: m in s && m in v.classes && k in v.classes[m]
  }

  /** An element may be filed although it is not visible.  The class index stays right all the same if the
      element has no class any more, or if it is not in the document and visible elements carry all its
      classes: then their arrays keep it out. */
  ghost predicate KeptOut(f: Forest, doc: Node, v: Views, n: Node, ks: set<string>)
    requires Wf(f) && n in f.kids
  {
    ks == {} || (!Under(f, doc, n) && forall k :: k in ks ==> Carried(v, VisibleSet(f, doc), k))
  }

  /** The entries that a class change files although they do not belong there */
  ghost function Strays(f: Forest, doc: Node, v: Views, n: Node, ks: set<string>): Entries
    requires Wf(f) && n in f.kids
  {
    var filed := set k | k in ks && (Under(f, doc, n) || !Carried(v, VisibleSet(f, doc), k));
    Pairs(filed, n)
  }

  /** The class half of ns_js_record_attr_change_ns (src/js.c), for any element, in the document or not, also if it
      has been filed before without belonging there. */
  method SetClass(ct: KeyTable, tt: KeyTable, doc: Node, n: Node, value: Option<string>,
                  ghost f: Forest, ghost v: Views, ghost o: Entries) returns (ghost w: Views)
    requires Stage(doc, f, v) && KeysFiled(doc, ct, tt, f, v, o) && n in f.kids && n.kind == Element
    requires o <= Pairs(v.classes[n], n)
    modifies ct, n`classAttr
    ensures n.classAttr == value && w == v.(classes := v.classes[n := NodeKeys(ByClass, n, value)])
    ensures Stage(doc, f, w) && KeysFiled(doc, ct, tt, f, w, Strays(f, doc, v, n, w.classes[n]))
    ensures KeysIndexed(doc, ct, tt, f, w) <==> Visible(f, doc, n) || KeptOut(f, doc, v, n, NodeKeys(ByClass, n, value))
  {
    NodeView(f, v, n);
    ghost var s := VisibleSet(f, doc);
    ghost var want := EntriesOf(v.classes, s) + o;
    VisibleInTree(f, doc, s);
    EntriesInTree(f, doc, v.classes, s);
    EntriesAfterClass(v.classes, s, n, v.classes[n], v.classes[n], o);
    if Visible(f, doc, n) { VisibleUnder(f, doc, n); }
    var was := n.classAttr;
    w := WriteClass(n, value, f, v);
    ghost var mid := Refile(ct, n, was, value, doc, f, w, want);
    ClassRefiled(f, doc, v, w, n, o, mid, ct.arrays);
    FiledVerdict(doc, ct, tt, f, w, Strays(f, doc, v, n, w.classes[n]));
    StraysVerdict(f, doc, v, w, n);
  }

  /** What the arrays hold once the old classes are out and the new ones in */
  lemma ClassRefiled(f: Forest, doc: Node, v: Views, w: Views, n: Node, o: Entries,
                     mid: map<string, seq<Node>>, now: map<string, seq<Node>>)
    requires Wf(f) && n in f.kids && n in v.classes && n in w.classes && w == v.(classes := v.classes[n := w.classes[n]])
    requires o <= Pairs(v.classes[n], n)
    requires Holds(f, mid, EntriesOf(v.classes, VisibleSet(f, doc)) + o - Pairs(v.classes[n], n))
    requires Under(f, doc, n) ==>
               Holds(f, now, EntriesOf(v.classes, VisibleSet(f, doc)) + o - Pairs(v.classes[n], n) + Pairs(w.classes[n], n))
    requires !Under(f, doc, n) ==> now == Strayed(mid, w.classes[n], n) && !Visible(f, doc, n)
    ensures Holds(f, now, EntriesOf(w.classes, VisibleSet(f, doc)) + Strays(f, doc, v, n, w.classes[n]))
  {
    var s := VisibleSet(f, doc);
    EntriesAfterClass(v.classes, s, n, v.classes[n], w.classes[n], o);
    if Under(f, doc, n) {
      assert (set k | k in w.classes[n] && (Under(f, doc, n) || !Carried(v, s, k))) == w.classes[n];
    } else {
      PairsOutside(v.classes, s, n, v.classes[n]);
      StraysFiled(f, doc, mid, now, v, w.classes, n);
    }
  }

  lemma StraysVerdict(f: Forest, doc: Node, v: Views, w: Views, n: Node)
    requires Wf(f) && n in f.kids && n in w.classes && w.classes.Keys == f.kids.Keys
    requires Visible(f, doc, n) ==> Under(f, doc, n)
    ensures Strays(f, doc, v, n, w.classes[n]) <= EntriesOf(w.classes, VisibleSet(f, doc)) <==>
            Visible(f, doc, n) || KeptOut(f, doc, v, n, w.classes[n])
  {
    var ks := w.classes[n];
    if !Visible(f, doc, n) {
      forall k | k in ks && (Under(f, doc, n) || !Carried(v, VisibleSet(f, doc), k))
        ensures (k, n) in Strays(f, doc, v, n, ks) && (k, n) !in EntriesOf(w.classes, VisibleSet(f, doc)) {}
    }
  }

  lemma PairsOutside(keys: Keys, s: set<Node>, n: Node, ks: set<string>)
    requires n !in s
    ensures EntriesOf(keys, s) - Pairs(ks, n) == EntriesOf(keys, s)
  {
  }

  method Refile(ct: KeyTable, n: Node, was: Option<string>, now: Option<string>, ghost doc: Node,
                ghost f: Forest, ghost v: Views, ghost want: Entries) returns (ghost mid: map<string, seq<Node>>)
    requires Scene(f, v) && n in f.kids && n.kind == Element && doc !in f.up
    requires Holds(f, ct.arrays, want) && InTree(f, doc, want - Pairs(NodeKeys(ByClass, n, was), n))
    modifies ct
    ensures Scene(f, v) && Holds(f, mid, want - Pairs(NodeKeys(ByClass, n, was), n))
    ensures Under(f, doc, n) ==>
              Holds(f, ct.arrays, want - Pairs(NodeKeys(ByClass, n, was), n) + Pairs(NodeKeys(ByClass, n, now), n))
    ensures !Under(f, doc, n) ==> ct.arrays == Strayed(mid, NodeKeys(ByClass, n, now), n)
  {
    PairsNone(want, n);
    if was.Some? && was.value != "" {
      Unregister(ct, was.value, n, f, v, f, want);
    }
    mid := ct.arrays;
    File(ct, n, now, doc, f, v, want - Pairs(NodeKeys(ByClass, n, was), n));
  }

  method File(ct: KeyTable, n: Node, now: Option<string>, ghost doc: Node, ghost f: Forest, ghost v: Views, ghost want: Entries)
    requires Scene(f, v) && n in f.kids && n.kind == Element && doc !in f.up
    requires Holds(f, ct.arrays, want) && InTree(f, doc, want)
    modifies ct
    ensures Scene(f, v)
    ensures Under(f, doc, n) ==> Holds(f, ct.arrays, want + Pairs(NodeKeys(ByClass, n, now), n))
    ensures !Under(f, doc, n) ==> ct.arrays == Strayed(old(ct.arrays), NodeKeys(ByClass, n, now), n)
  {
    PairsNone(want, n);
    StrayedMore(ct.arrays, {}, "", n);
    if !Under(f, doc, n) { OtherTreeForeign(f, doc, ct.arrays, want, n); }
    if now.Some? && now.value != "" {
      ghost var arrays := ct.arrays;
      assert CanEnter(f, doc, arrays, want, n, false);
      Register(ct, now.value, n, false, doc, f, v, want);
      RegisteredMeans(f, doc, arrays, ct.arrays, want, Tokens(now.value), n);
    }
  }

  lemma RegisteredMeans(f: Forest, doc: Node, was: map<string, seq<Node>>, now: map<string, seq<Node>>,
                        want: Entries, ks: set<string>, n: Node)
    requires Wf(f) && n in f.kids && Registered(f, doc, was, now, want, ks, n, false) && InTree(f, doc, want)
    ensures Under(f, doc, n) ==> Holds(f, now, want + Pairs(ks, n))
    ensures Foreign(f, was, n) ==> now == Strayed(was, ks, n)
  {
  }

  /** The arrays of a document do not order a node of another tree. */
  lemma OtherTreeForeign(f: Forest, doc: Node, arrays: map<string, seq<Node>>, want: Entries, n: Node)
    requires Wf(f) && doc !in f.up && n in f.kids && !Under(f, doc, n) && Holds(f, arrays, want) && InTree(f, doc, want)
    ensures Foreign(f, arrays, n)
  {
    forall k | k in arrays ensures Sorted(f, arrays[k]) && Unordered(f, arrays[k], n) {
      assert HoldsAt(f, arrays[k], k, want);
      forall i | 0 <= i < |arrays[k]| ensures !Before(f, arrays[k][i], n) && !Before(f, n, arrays[k][i]) {
        assert (k, arrays[k][i]) in want;
        OtherTreeUnordered(f, doc, arrays[k][i], n);
      }
    }
  }

  lemma OtherTreeUnordered(f: Forest, doc: Node, a: Node, n: Node)
    requires Wf(f) && doc !in f.up && a in f.kids && n in f.kids && Under(f, doc, a) && !Under(f, doc, n)
    ensures !Before(f, a, n) && !Before(f, n, a)
  {
    RootOfChain(f, doc, a);
    if Before(f, a, n) { BeforeSameRoot(f, a, n); }
    if Before(f, n, a) { BeforeSameRoot(f, n, a); }
  }

  lemma RootOfChain(f: Forest, doc: Node, a: Node)
    requires Wf(f) && doc !in f.up && a in f.kids && Under(f, doc, a)
    ensures Chain(f, a)[0] == doc
  {
    var i :| 0 <= i < |Chain(f, a)| && Chain(f, a)[i] == doc;
    ChainPrefix(f, a, i);
  }

  /** A node of another tree is filed under the classes that no visible element carries. */
  lemma StraysFiled(f: Forest, doc: Node, mid: map<string, seq<Node>>, now: map<string, seq<Node>>, v: Views, keys: Keys, n: Node)
    requires Wf(f) && n in f.kids && !Under(f, doc, n) && n in keys && n in v.classes && keys == v.classes[n := keys[n]]
    requires Holds(f, mid, EntriesOf(v.classes, VisibleSet(f, doc))) && now == Strayed(mid, keys[n], n)
    ensures Holds(f, now, EntriesOf(keys, VisibleSet(f, doc)) + Strays(f, doc, v, n, keys[n]))
  {
    var s := VisibleSet(f, doc);
    VisibleInTree(f, doc, s);
    var want, more := EntriesOf(v.classes, s), Strays(f, doc, v, n, keys[n]);
    assert EntriesOf(keys, s) == want;
    forall k | k in now ensures HoldsAt(f, now[k], k, want + more) {
      CarriedIsFiled(f, mid, v, s, k);
      StrayAt(f, mid, now, want, more, keys[n], n, k);
    }
    forall e: (string, Node) | e in want + more ensures e.0 in now {}
  }

  lemma StrayAt(f: Forest, mid: map<string, seq<Node>>, now: map<string, seq<Node>>, want: Entries, more: Entries,
                ks: set<string>, n: Node, k: string)
    requires Wf(f) && n in f.kids && Holds(f, mid, want) && now == Strayed(mid, ks, n) && k in now
    requires forall e :: e in more ==> e.1 == n
    requires (k, n) in more <==> k in ks && (k !in mid || mid[k] == [])
    ensures HoldsAt(f, now[k], k, want + more)
  {
    if k in mid { assert HoldsAt(f, mid[k], k, want); }
  }

  lemma CarriedIsFiled(f: Forest, arrays: map<string, seq<Node>>, v: Views, s: set<Node>, k: string)
    requires Wf(f) && Holds(f, arrays, EntriesOf(v.classes, s))
    ensures Carried(v, s, k) <==> k in arrays && arrays[k] != []
  {
    var want := EntriesOf(v.classes, s);
    if Carried(v, s, k) {
      var m :| m in s && m in v.classes && k in v.classes[m];
      assert (k, m) in want;
      assert HoldsAt(f, arrays[k], k, want);
    }
    if k in arrays && arrays[k] != [] {
      assert HoldsAt(f, arrays[k], k, want);
      assert arrays[k][0] in arrays[k];
    }
  }

  // ---------- changing the id ----------

  /** An element that is not visible may be counted, uncounted and filed all the same.  The tables stay exact
      only if that comes to nothing: the element loses an id that no visible element carries, or is given the
      id that it has, while a visible element with the id is filed. */
  ghost predicate ComesToNothing(index: map<string, Node>, ids: Ids, s: set<Node>, was: Option<string>, now: Option<string>) {
    if now.None? then was.None? || WithId(ids, s, was.value) == {}
    else was == now && WithId(ids, s, now.value) != {} && now.value in index
  }

  /** What an id change does to look-ups: an id that the element gives up stays listed if others carry it, ... */
  ghost predicate GivesUpListed(a: Tables, ids: Ids, s: set<Node>, n: Node, now: Option<string>)
    requires n in ids
  {
    ids[n].Some? && ids[n] != now && WithId(ids, s - {n}, ids[n].value) != {} ==> StaysListed(a, ids, {n}, ids[n].value)
  }

  /** ... and an element that is hidden in the document does not come to be what is filed under its new id. */
  ghost predicate NotFiledHidden(f: Forest, doc: Node, index: map<string, Node>, n: Node, now: Option<string>)
    requires Wf(f) && n in f.kids
  {
    Under(f, doc, n) && !Visible(f, doc, n) && now.Some? ==> now.value in index && index[now.value] != n
  }

  /** The id half of ns_js_record_attr_change_ns, for any element.  The second condition is about the look-ups,
      which can do with less. */
  method SetId(it: IdTables, doc: Node, n: Node, value: Option<string>, ghost f: Forest, ghost v: Views)
    returns (ghost w: Views)
    requires Stage(doc, f, v) && IdUsable(f, it, v.ids, doc) && Positive(CountsOf(it)) && n in f.kids && n.kind == Element
    modifies it, n`idAttr
    ensures n.idAttr == value && w == v.(ids := v.ids[n := NodeId(n, value)])
    ensures Stage(doc, f, w) && Positive(CountsOf(it))
    ensures old(IdsIndexed(doc, it, f, v)) ==>
              (IdsIndexed(doc, it, f, w) <==>
               Visible(f, doc, n) || ComesToNothing(old(it.index), v.ids, VisibleSet(f, doc), v.ids[n], w.ids[n]))
    ensures IdUsable(f, it, w.ids, doc) <==>
            GivesUpListed(old(TablesOf(it)), v.ids, VisibleSet(f, doc), n, w.ids[n]) &&
            NotFiledHidden(f, doc, old(it.index), n, w.ids[n])
  {
    NodeView(f, v, n);
    ghost var s, a := VisibleSet(f, doc), TablesOf(it);
    var was := n.idAttr;
    w := WriteId(n, value, f, v);
    DropId(it, n, was, f, w, v.ids);
    ghost var b := TablesOf(it);
    AddNodeId(it, n, f, w);
    IdVerdict(a, b, TablesOf(it), v.ids, w.ids, s, n);
    SetIdListed(a, b, TablesOf(it), v.ids, w.ids, s, n);
    SetIdFiled(f, doc, a, b, TablesOf(it), v.ids, w.ids, n);
  }

  lemma IdVerdict(a: Tables, b: Tables, d: Tables, ids: Ids, now: Ids, s: set<Node>, n: Node)
    requires n in ids && n in now && now == ids[n := now[n]]
    requires Withdrawn(a, b, ids, {n}) && Entered(b, d, now, {n})
    ensures Exact(a, ids, s) ==> (Exact(d, now, s) <==> n in s || ComesToNothing(a.index, ids, s, ids[n], now[n]))
  {
    if Exact(a, ids, s) {
      if n in s { VisibleIdVerdict(a, b, d, ids, now, s, n); } else { StrayIdVerdict(a, b, d, ids, now, s, n); }
    }
  }

  lemma SetIdAt(a: Tables, b: Tables, d: Tables, ids: Ids, now: Ids, n: Node, id: string)
    requires n in ids && n in now && Withdrawn(a, b, ids, {n}) && Entered(b, d, now, {n})
    ensures Listed(d, id) <==> now[n] == Some(id) || StaysListed(a, ids, {n}, id)
    ensures id in d.index <==> now[n] == Some(id) || (id in a.index && !(a.index[id] == n && ids[n] == Some(id)))
    ensures id in d.index ==>
              d.index[id] == if id in a.index && !(a.index[id] == n && ids[n] == Some(id)) then a.index[id] else n
  {
    WithdrawnIs(a, b, ids, {n}, id);
    EnteredIs(b, d, now, {n}, id);
    OneWithId(ids, n, id);
    OneWithId(now, n, id);
    assert id in b.counts <==> CountAt(b.counts, id) > 0;
    assert id in d.counts <==> CountAt(d.counts, id) > 0;
  }

  lemma SetIdListed(a: Tables, b: Tables, d: Tables, ids: Ids, now: Ids, s: set<Node>, n: Node)
    requires n in ids && n in now && now == ids[n := now[n]] && Positive(a.counts) && AllListed(a, ids, s)
    requires Withdrawn(a, b, ids, {n}) && Entered(b, d, now, {n})
    ensures AllListed(d, now, s) <==> GivesUpListed(a, ids, s, n, now[n])
  {
    forall id | now[n] != Some(id)
      ensures WithId(now, s, id) == WithId(ids, s - {n}, id)
      ensures ids[n] != Some(id) && WithId(ids, s - {n}, id) != {} ==> StaysListed(a, ids, {n}, id)
    {
      assert WithId(now, s, id) == WithId(ids, s - {n}, id);
      WithIdSplit(ids, s, {n}, id);
      OneWithId(ids, n, id);
      if WithId(ids, s - {n}, id) != {} { assert Listed(a, id); }
    }
    forall id ensures Listed(d, id) <==> now[n] == Some(id) || StaysListed(a, ids, {n}, id) {
      SetIdAt(a, b, d, ids, now, n, id);
    }
  }

  lemma SetIdFiled(f: Forest, doc: Node, a: Tables, b: Tables, d: Tables, ids: Ids, now: Ids, n: Node)
    requires Wf(f) && ids.Keys == f.kids.Keys && n in ids && n in now && now == ids[n := now[n]]
    requires Withdrawn(a, b, ids, {n}) && Entered(b, d, now, {n}) && IndexUsable(f, ids, doc, a.index)
    ensures IndexUsable(f, now, doc, d.index) <==> NotFiledHidden(f, doc, a.index, n, now[n])
  {
    forall id ensures id in d.index && !(d.index[id] == n && now[n] == Some(id)) ==> EntryUsable(f, now, doc, id, d.index[id]) {
      SetIdAt(a, b, d, ids, now, n, id);
      assert id in a.index ==> EntryUsable(f, ids, doc, id, a.index[id]);
    }
    if now[n].Some? {
      SetIdAt(a, b, d, ids, now, n, now[n].value);
      assert now[n].value in a.index ==> EntryUsable(f, ids, doc, now[n].value, a.index[now[n].value]);
    }
  }

  /** Only the ids of the described nodes matter. */
  lemma ExactElsewhere(a: Tables, ids: Ids, now: Ids, s: set<Node>)
    requires ids.Keys == now.Keys && forall n :: n in s && n in ids ==> ids[n] == now[n]
    ensures Filed(a.index, ids, s) <==> Filed(a.index, now, s)
    ensures Counted(a.counts, ids, s) <==> Counted(a.counts, now, s)
  {
    forall id ensures WithId(now, s, id) == WithId(ids, s, id) {}
  }

  lemma VisibleIdVerdict(a: Tables, b: Tables, d: Tables, ids: Ids, now: Ids, s: set<Node>, n: Node)
    requires n in s && n in ids && n in now && now == ids[n := now[n]]
    requires Exact(a, ids, s)
    requires Withdrawn(a, b, ids, {n}) && Entered(b, d, now, {n})
    ensures Exact(d, now, s)
  {
    WithdrawnExact(a, b, ids, s, {n});
    assert {n} - s == {};
    ExactElsewhere(b, ids, now, s - {n});
    StaysPositive(a, b, ids, {n});
    EnteredExact(b, d, now, s - {n}, {n});
    assert s - {n} + {n} == s;
  }

  /** The tables after an invisible node has changed its id. */
  lemma StrayIdAt(a: Tables, b: Tables, d: Tables, ids: Ids, now: Ids, s: set<Node>, n: Node, id: string)
    requires n !in s && n in ids && n in now && now == ids[n := now[n]]
    requires Exact(a, ids, s)
    requires Withdrawn(a, b, ids, {n}) && Entered(b, d, now, {n})
    ensures CountAt(d.counts, id) == Minus(|WithId(ids, s, id)|, if ids[n] == Some(id) then 1 else 0) +
                                     if now[n] == Some(id) then 1 else 0
    ensures id in d.index <==> id in a.index || now[n] == Some(id)
    ensures id in a.index ==> d.index[id] == a.index[id]
    ensures id in d.index && id !in a.index ==> d.index[id] == n
    ensures WithId(now, s, id) == WithId(ids, s, id) && Positive(d.counts)
  {
    WithdrawnIs(a, b, ids, {n}, id);
    EnteredIs(b, d, now, {n}, id);
    OneWithId(ids, n, id);
    OneWithId(now, n, id);
    assert CountAt(a.counts, id) == |WithId(ids, s, id)|;
    assert id in a.index ==> a.index[id] in WithId(ids, s, id);
  }

  lemma StrayIdVerdict(a: Tables, b: Tables, d: Tables, ids: Ids, now: Ids, s: set<Node>, n: Node)
    requires n !in s && n in ids && n in now && now == ids[n := now[n]] && Exact(a, ids, s)
    requires Withdrawn(a, b, ids, {n}) && Entered(b, d, now, {n})
    ensures Exact(d, now, s) <==> ComesToNothing(a.index, ids, s, ids[n], now[n])
  {
    StrayIdAt(a, b, d, ids, now, s, n, "");
    if ComesToNothing(a.index, ids, s, ids[n], now[n]) {
      forall id ensures CountAt(d.counts, id) == |WithId(now, s, id)| {
        StrayIdAt(a, b, d, ids, now, s, n, id);
        assert WithId(ids, s, id) != {} <==> |WithId(ids, s, id)| > 0;
      }
      forall id | id in d.index ensures d.index[id] in WithId(now, s, id) {
        StrayIdAt(a, b, d, ids, now, s, n, id);
        assert id in a.index ==> a.index[id] in WithId(ids, s, id);
      }
    }
    if Exact(d, now, s) { ExactComesToNothing(a, b, d, ids, now, s, n); }
  }

  lemma ExactComesToNothing(a: Tables, b: Tables, d: Tables, ids: Ids, now: Ids, s: set<Node>, n: Node)
    requires n !in s && n in ids && n in now && now == ids[n := now[n]] && Exact(a, ids, s) && Exact(d, now, s)
    requires Withdrawn(a, b, ids, {n}) && Entered(b, d, now, {n})
    ensures ComesToNothing(a.index, ids, s, ids[n], now[n])
  {
    if now[n].Some? || ids[n].Some? {
      var id := if now[n].Some? then now[n].value else ids[n].value;
      StrayIdAt(a, b, d, ids, now, s, n, id);
      assert WithId(ids, s, id) != {} <==> |WithId(ids, s, id)| > 0;
      assert CountAt(d.counts, id) == |WithId(now, s, id)|;
      assert id in d.index ==> d.index[id] in WithId(now, s, id);
    }
  }

  // ---------- what the arrays are ----------

  /** What a plain preorder walk of the tree collects for one key, stopping at templates and embedded
      documents. */
  ghost function Matches(keys: Keys, visible: set<Node>, key: string, walk: seq<Node>): seq<Node> {
    if walk == [] then []
    else if walk[0] in visible && walk[0] in keys && key in keys[walk[0]]
    then [walk[0]] + Matches(keys, visible, key, walk[1..])
    else Matches(keys, visible, key, walk[1..])
  }

  lemma {:induction false} MatchesMembers(keys: Keys, visible: set<Node>, key: string, walk: seq<Node>, n: Node)
    ensures n in Matches(keys, visible, key, walk) <==>
            n in walk && n in visible && n in keys && key in keys[n]
  {
    if walk != [] { MatchesMembers(keys, visible, key, walk[1..], n); }
  }

  lemma {:induction false} MatchesSorted(f: Forest, keys: Keys, visible: set<Node>, key: string, walk: seq<Node>)
    requires Wf(f) && Sorted(f, walk)
    ensures Sorted(f, Matches(keys, visible, key, walk))
  {
    if walk != [] {
      var rest := Matches(keys, visible, key, walk[1..]);
      MatchesSorted(f, keys, visible, key, walk[1..]);
      forall a, b | a in [walk[0]] && b in rest ensures Before(f, a, b) {
        MatchesMembers(keys, visible, key, walk[1..], b);
        var i :| 0 <= i < |walk[1..]| && walk[1..][i] == b;
        assert walk[i + 1] == b;
      }
      assert Sorted(f, [walk[0]]);
      SortedConcat(f, [walk[0]], rest);
    }
  }

  /** An index answers every query as the plain walk would: the array of a key is the preorder of the
      document restricted to the visible elements that carry the key. */
  lemma ArrayIsWalk(f: Forest, arrays: map<string, seq<Node>>, keys: Keys, doc: Node, key: string)
    requires Wf(f) && doc in f.kids && keys.Keys == f.kids.Keys
    requires Holds(f, arrays, EntriesOf(keys, VisibleSet(f, doc)))
    ensures (if key in arrays then arrays[key] else []) == Matches(keys, VisibleSet(f, doc), key, Preorder(f, doc))
  {
    var s := VisibleSet(f, doc);
    var arr := if key in arrays then arrays[key] else [];
    var walk := Matches(keys, s, key, Preorder(f, doc));
    PreorderIsDocumentOrder(f, doc);
    MatchesSorted(f, keys, s, key, Preorder(f, doc));
    assert key in arrays ==> HoldsAt(f, arr, key, EntriesOf(keys, s));
    forall n ensures n in arr <==> n in walk {
      MatchesMembers(keys, s, key, Preorder(f, doc), n);
      if n in s { VisibleUnder(f, doc, n); }
      assert (key, n) in EntriesOf(keys, s) <==> n in s && n in keys && key in keys[n];
    }
    SortedUnique(f, arr, walk);
  }
}
