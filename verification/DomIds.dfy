/**
 The id index of a document: a table from ids to elements, filled lazily and repaired by look-ups, and a
 table that counts the elements carrying each id, which lets a look-up give up without walking the tree.
 */
module DomIds {
  import opened Common
  import opened Locks
  import opened DomForest
  import opened DomMoves
  import opened DomVisible
  import opened DomTree
  import opened DomScene

  ghost function WithId(ids: Ids, s: set<Node>, id: string): set<Node> {
    set n | n in s && n in ids && ids[n] == Some(id)
  }

  type Counts = map<string, nat>

  /** What the two tables hold, and whether the second one exists */
  datatype Tables = Tables(index: map<string, Node>, counts: Counts, counted: bool)

  ghost function CountsOf(t: IdTables): Counts
    reads t`counts
  {
    if t.counts.Some? then t.counts.value else map[]
  }

  ghost function TablesOf(t: IdTables): Tables
    reads t
  {
    Tables(t.index, CountsOf(t), t.counts.Some?)
  }

  function CountAt(counts: Counts, id: string): nat {
    if id in counts then counts[id] else 0
  }

  /** An id that is not counted has no entry. */
  ghost predicate Positive(counts: Counts) {
    forall id :: id in counts ==> counts[id] > 0
  }

  /** `counts` says how many members of `s` carry each id. */
  ghost predicate Counted(counts: Counts, ids: Ids, s: set<Node>) {
    Positive(counts) && forall id {:trigger CountAt(counts, id)} :: CountAt(counts, id) == |WithId(ids, s, id)|
  }

  /** Every entry of the index names a member of `s` that carries the id. */
  ghost predicate Filed(index: map<string, Node>, ids: Ids, s: set<Node>) {
    forall id :: id in index ==> index[id] in WithId(ids, s, id)
  }

  /** The tables describe exactly the nodes of `s`. */
  ghost predicate Exact(a: Tables, ids: Ids, s: set<Node>) {
    Filed(a.index, ids, s) && Counted(a.counts, ids, s)
  }

  ghost predicate IdExact(t: IdTables, ids: Ids, s: set<Node>)
    reads t
  {
    Exact(TablesOf(t), ids, s)
  }

  lemma WithIdSplit(ids: Ids, s: set<Node>, w: set<Node>, id: string)
    ensures WithId(ids, s + w, id) == WithId(ids, s, id) + WithId(ids, w, id)
    ensures WithId(ids, s - w, id) == WithId(ids, s, id) - WithId(ids, w, id)
    ensures s !! w ==> |WithId(ids, s + w, id)| == |WithId(ids, s, id)| + |WithId(ids, w, id)|
  {
    assert WithId(ids, s + w, id) == WithId(ids, s, id) + WithId(ids, w, id);
    assert s !! w ==> WithId(ids, s, id) !! WithId(ids, w, id);
  }

  // ---------- entering and withdrawing nodes ----------

  function Minus(a: nat, b: nat): nat {
    if a <= b then 0 else a - b
  }

  /** From the tables `a` to the tables `b`, the nodes of `w` have been entered: each raises the count of its
      id, and an id that had no entry is filed under one of them. */
  ghost predicate Entered(a: Tables, b: Tables, ids: Ids, w: set<Node>) {
    forall key {:trigger Open(key)} :: Key(key) ==>
      Positive(b.counts) && (a.counted ==> b.counted) &&
      forall id {:trigger CountAt(b.counts, id)} {:trigger b.index[id]} :: EnteredAt(a, b, ids, w, id)
  }

  ghost predicate EnteredAt(a: Tables, b: Tables, ids: Ids, w: set<Node>, id: string) {
    && CountAt(b.counts, id) == CountAt(a.counts, id) + |WithId(ids, w, id)|
    && (id in b.index <==> id in a.index || WithId(ids, w, id) != {})
    && (id in a.index ==> b.index[id] == a.index[id])
    && (id in b.index && id !in a.index ==> b.index[id] in WithId(ids, w, id))
  }

  /** The nodes of `w` have been withdrawn: each lowers the count of its id, but not below zero, and entries
      that name them are gone. */
  ghost predicate Withdrawn(a: Tables, b: Tables, ids: Ids, w: set<Node>) {
    forall key {:trigger Open(key)} :: Key(key) ==>
      Positive(b.counts) && (a.counted ==> b.counted) &&
      forall id {:trigger CountAt(b.counts, id)} {:trigger b.index[id]} :: WithdrawnAt(a, b, ids, w, id)
  }

  ghost predicate WithdrawnAt(a: Tables, b: Tables, ids: Ids, w: set<Node>, id: string) {
    && CountAt(b.counts, id) == Minus(CountAt(a.counts, id), |WithId(ids, w, id)|)
    && (id in b.index <==> id in a.index && a.index[id] !in WithId(ids, w, id))
    && (id in b.index ==> b.index[id] == a.index[id])
  }

  lemma EnteredIs(a: Tables, b: Tables, ids: Ids, w: set<Node>, id: string)
    requires Entered(a, b, ids, w)
    ensures EnteredAt(a, b, ids, w, id) && Positive(b.counts)
  {
    assert Open(true);
    assert CountAt(b.counts, id) == CountAt(b.counts, id);
  }

  lemma WithdrawnIs(a: Tables, b: Tables, ids: Ids, w: set<Node>, id: string)
    requires Withdrawn(a, b, ids, w)
    ensures WithdrawnAt(a, b, ids, w, id) && Positive(b.counts)
  {
    assert Open(true);
    assert CountAt(b.counts, id) == CountAt(b.counts, id);
  }

  lemma StaysPositive(a: Tables, b: Tables, ids: Ids, w: set<Node>)
    requires Entered(a, b, ids, w) || Withdrawn(a, b, ids, w)
    ensures Positive(b.counts) && (a.counted ==> b.counted)
  {
    assert Open(true);
  }

  lemma NothingEntered(a: Tables, ids: Ids)
    requires Positive(a.counts)
    ensures Entered(a, a, ids, {}) && Withdrawn(a, a, ids, {})
  {
    forall id ensures EnteredAt(a, a, ids, {}, id) && WithdrawnAt(a, a, ids, {}, id) {
      assert WithId(ids, {}, id) == {};
    }
  }

  lemma EnteredBoth(a: Tables, b: Tables, c: Tables, ids: Ids, u: set<Node>, w: set<Node>)
    requires Entered(a, b, ids, u) && Entered(b, c, ids, w) && u !! w
    ensures Entered(a, c, ids, u + w)
  {
    StaysPositive(a, b, ids, u);
    StaysPositive(b, c, ids, w);
    forall id ensures EnteredAt(a, c, ids, u + w, id) {
      EnteredIs(a, b, ids, u, id);
      EnteredIs(b, c, ids, w, id);
      WithIdSplit(ids, u, w, id);
    }
  }

  lemma WithdrawnBoth(a: Tables, b: Tables, c: Tables, ids: Ids, u: set<Node>, w: set<Node>)
    requires Withdrawn(a, b, ids, u) && Withdrawn(b, c, ids, w) && u !! w
    ensures Withdrawn(a, c, ids, u + w)
  {
    StaysPositive(a, b, ids, u);
    StaysPositive(b, c, ids, w);
    forall id ensures WithdrawnAt(a, c, ids, u + w, id) {
      WithdrawnIs(a, b, ids, u, id);
      WithdrawnIs(b, c, ids, w, id);
      WithIdSplit(ids, u, w, id);
    }
  }

  /** Entering new nodes keeps exact tables exact, and inexact counts inexact. */
  lemma EnteredExact(a: Tables, b: Tables, ids: Ids, s: set<Node>, w: set<Node>)
    requires Entered(a, b, ids, w) && s !! w && Positive(a.counts)
    ensures Filed(a.index, ids, s) ==> Filed(b.index, ids, s + w)
    ensures Counted(b.counts, ids, s + w) <==> Counted(a.counts, ids, s)
  {
    StaysPositive(a, b, ids, w);
    forall id ensures EnteredAt(a, b, ids, w, id)
      ensures |WithId(ids, s + w, id)| == |WithId(ids, s, id)| + |WithId(ids, w, id)|
      ensures WithId(ids, s + w, id) == WithId(ids, s, id) + WithId(ids, w, id) {
      EnteredIs(a, b, ids, w, id);
      WithIdSplit(ids, s, w, id);
    }
    EnteredCounts(a.counts, b.counts, ids, s, w);
  }

  lemma EnteredCounts(a: Counts, b: Counts, ids: Ids, s: set<Node>, w: set<Node>)
    requires forall id :: CountAt(b, id) == CountAt(a, id) + |WithId(ids, w, id)|
    requires forall id :: |WithId(ids, s + w, id)| == |WithId(ids, s, id)| + |WithId(ids, w, id)|
    requires Positive(a) && Positive(b)
    ensures Counted(b, ids, s + w) <==> Counted(a, ids, s)
  {
    if Counted(b, ids, s + w) {
      forall id ensures CountAt(a, id) == |WithId(ids, s, id)| { assert CountAt(b, id) == |WithId(ids, s + w, id)|; }
    }
  }

  /** No id is carried on both sides. */
  ghost predicate NoSharedId(ids: Ids, s: set<Node>, w: set<Node>) {
    forall id :: WithId(ids, s, id) == {} || WithId(ids, w, id) == {}
  }

  /** Withdrawing nodes from exact tables leaves them exact if and only if no node that stays carries the id
      of a withdrawn node that was never entered. */
  lemma WithdrawnExact(a: Tables, b: Tables, ids: Ids, s: set<Node>, w: set<Node>)
    requires Withdrawn(a, b, ids, w) && Filed(a.index, ids, s) && Counted(a.counts, ids, s)
    ensures Filed(b.index, ids, s - w)
    ensures Counted(b.counts, ids, s - w) <==> NoSharedId(ids, s - w, w - s)
  {
    StaysPositive(a, b, ids, w);
    forall id ensures WithdrawnAt(a, b, ids, w, id)
      ensures CountAt(b.counts, id) == |WithId(ids, s - w, id)| <==>
              WithId(ids, s - w, id) == {} || WithId(ids, w - s, id) == {} {
      WithdrawnIs(a, b, ids, w, id);
      StrayCounts(ids, s, w, id);
      assert CountAt(a.counts, id) == |WithId(ids, s, id)|;
    }
    if Counted(b.counts, ids, s - w) {
      forall id ensures WithId(ids, s - w, id) == {} || WithId(ids, w - s, id) == {} {
        assert CountAt(b.counts, id) == |WithId(ids, s - w, id)|;
      }
    }
    if NoSharedId(ids, s - w, w - s) {
      forall id ensures CountAt(b.counts, id) == |WithId(ids, s - w, id)| {
        assert WithId(ids, s - w, id) == {} || WithId(ids, w - s, id) == {};
      }
    }
  }

  lemma StrayCounts(ids: Ids, s: set<Node>, w: set<Node>, id: string)
    ensures Minus(|WithId(ids, s, id)|, |WithId(ids, w, id)|) == |WithId(ids, s - w, id)| <==>
            WithId(ids, s - w, id) == {} || WithId(ids, w - s, id) == {}
  {
    WithIdSplit(ids, s - w, s * w, id);
    WithIdSplit(ids, w - s, s * w, id);
    assert (s - w) + (s * w) == s && (w - s) + (s * w) == w;
    assert |WithId(ids, s - w, id)| == 0 <==> WithId(ids, s - w, id) == {};
    assert |WithId(ids, w - s, id)| == 0 <==> WithId(ids, w - s, id) == {};
  }

  // ---------- one node ----------

  lemma OneWithId(ids: Ids, n: Node, id: string)
    requires n in ids
    ensures WithId(ids, {n}, id) == if ids[n] == Some(id) then {n} else {}
    ensures |WithId(ids, {n}, id)| == if ids[n] == Some(id) then 1 else 0
  {
    assert WithId(ids, {n}, id) == if ids[n] == Some(id) then {n} else {};
  }

  /** ns_doc_id_index_count */
  method Count(t: IdTables, id: string, up: bool, ghost f: Forest, ghost v: Views)
    requires Scene(f, v)
    modifies t`counts
    ensures Scene(f, v) && (old(Positive(CountsOf(t))) ==> Positive(CountsOf(t))) && t.counts.Some?
    ensures forall x :: CountAt(CountsOf(t), x) ==
              if x != id then CountAt(old(CountsOf(t)), x)
              else if up then CountAt(old(CountsOf(t)), x) + 1 else Minus(CountAt(old(CountsOf(t)), x), 1)
  {
    var counts := if t.counts.Some? then t.counts.value else map[];
    var cur := if id in counts then counts[id] else 0;
    if up {
      t.counts := Some(counts[id := cur + 1]);
    } else if cur <= 1 {
      t.counts := Some(counts - {id});
    } else {
      t.counts := Some(counts[id := cur - 1]);
    }
  }

  method StoreId(t: IdTables, index: map<string, Node>, ghost f: Forest, ghost v: Views)
    requires Scene(f, v)
    modifies t`index
    ensures Scene(f, v) && t.index == index
  {
    t.index := index;
  }

  /** ns_doc_id_index_register, once the index is known to exist and the id not to be empty */
  method RegisterId(t: IdTables, id: string, node: Node, ghost f: Forest, ghost v: Views)
    requires Scene(f, v) && node in v.ids && v.ids[node] == Some(id) && Positive(CountsOf(t))
    modifies t
    ensures Scene(f, v) && Entered(old(TablesOf(t)), TablesOf(t), v.ids, {node})
  {
    ghost var a := TablesOf(t);
    Count(t, id, true, f, v);
    var index := if id in t.index then t.index else t.index[id := node];
    StoreId(t, index, f, v);
    OneEntered(a, TablesOf(t), v.ids, node, id);
  }

  lemma OneEntered(a: Tables, b: Tables, ids: Ids, node: Node, id: string)
    requires node in ids && ids[node] == Some(id) && Positive(b.counts) && b.counted
    requires forall x :: CountAt(b.counts, x) == CountAt(a.counts, x) + if x == id then 1 else 0
    requires b.index == if id in a.index then a.index else a.index[id := node]
    ensures Entered(a, b, ids, {node})
  {
    forall x ensures EnteredAt(a, b, ids, {node}, x) { OneWithId(ids, node, x); }
  }

  /** ns_doc_id_index_unregister, once the index is known to exist and the id not to be empty */
  method UnregisterId(t: IdTables, id: string, node: Node, ghost f: Forest, ghost v: Views, ghost ids: Ids)
    requires Scene(f, v) && node in ids && ids[node] == Some(id) && Positive(CountsOf(t))
    modifies t
    ensures Scene(f, v) && Withdrawn(old(TablesOf(t)), TablesOf(t), ids, {node})
  {
    ghost var a := TablesOf(t);
    Count(t, id, false, f, v);
    var index := if id in t.index && t.index[id] == node then t.index - {id} else t.index;
    StoreId(t, index, f, v);
    OneWithdrawn(a, TablesOf(t), ids, node, id);
  }

  lemma OneWithdrawn(a: Tables, b: Tables, ids: Ids, node: Node, id: string)
    requires node in ids && ids[node] == Some(id) && Positive(b.counts) && b.counted
    requires forall x :: CountAt(b.counts, x) == if x == id then Minus(CountAt(a.counts, x), 1) else CountAt(a.counts, x)
    requires b.index == if id in a.index && a.index[id] == node then a.index - {id} else a.index
    ensures Withdrawn(a, b, ids, {node})
  {
    forall x ensures WithdrawnAt(a, b, ids, {node}, x) { OneWithId(ids, node, x); }
  }

  lemma NoIdNothing(a: Tables, ids: Ids, n: Node)
    requires n in ids && ids[n].None? && Positive(a.counts)
    ensures Entered(a, a, ids, {n}) && Withdrawn(a, a, ids, {n})
  {
    forall x ensures EnteredAt(a, a, ids, {n}, x) && WithdrawnAt(a, a, ids, {n}, x) { OneWithId(ids, n, x); }
  }

  // ---------- walks ----------

  /** The subtrees of different children, and a node and its children's subtrees, are disjoint. */
  lemma KidDisjoint(f: Forest, n: Node, i: nat)
    requires Wf(f) && n in f.kids && i < |f.kids[n]|
    ensures f.kids[n][i] in f.kids && f.kids[n][i] in f.up && f.up[f.kids[n][i]] == n
    ensures ({n} + VisibleKids(f, n, i)) !! VisibleFromKid(f, f.kids[n][i])
  {
    assert KidsOk(f, n);
    var c := f.kids[n][i];
    assert UpOk(f, c);
    forall m | m in VisibleFromKid(f, c) ensures m !in {n} + VisibleKids(f, n, i) {
      VisibleUnder(f, c, m);
      if m == n {
        UnderStep(f, n, c);
        UnderAntisymmetric(f, n, c);
      }
      if m in VisibleKids(f, n, i) { KidsApart(f, n, i, m); }
    }
  }

  lemma KidsApart(f: Forest, n: Node, i: nat, m: Node)
    requires Wf(f) && n in f.kids && i < |f.kids[n]| && m in VisibleKids(f, n, i)
    ensures f.kids[n][i] in f.kids && !Under(f, f.kids[n][i], m)
  {
    assert KidsOk(f, n);
    VisibleKidsMember(f, n, i, m);
    var j :| 0 <= j < i && m in VisibleFromKid(f, f.kids[n][j]);
    VisibleUnder(f, f.kids[n][j], m);
    if Under(f, f.kids[n][i], m) {
      assert SiblingBefore(f, f.kids[n][j], f.kids[n][i]);
      SiblingSubtreesBefore(f, f.kids[n][j], f.kids[n][i], m, m);
      BeforeAsymmetric(f, m, m);
    }
  }

  lemma NotItsOwnKid(f: Forest, n: Node)
    requires Wf(f) && n in f.kids
    ensures n !in VisibleKids(f, n, |f.kids[n]|)
  {
    VisibleKidsMember(f, n, |f.kids[n]|, n);
    if n in VisibleKids(f, n, |f.kids[n]|) {
      var j :| 0 <= j < |f.kids[n]| && n in VisibleFromKid(f, f.kids[n][j]);
      KidDisjoint(f, n, j);
    }
  }

  lemma {:induction false} VisibleKidsGrow(f: Forest, n: Node, i: nat, j: nat)
    requires Wf(f) && n in f.kids && i <= j <= |f.kids[n]|
    ensures VisibleKids(f, n, i) <= VisibleKids(f, n, j)
    decreases j - i
  {
    if i < j { VisibleKidsGrow(f, n, i, j - 1); }
  }

  lemma NodeApart(f: Forest, doc: Node, n: Node)
    requires Wf(f) && n in f.kids && !n.IsTemplate() && (n == doc || n.kind != Document || n !in f.up)
    ensures var k := VisibleKids(f, n, |f.kids[n]|); {n} + k == Walked(f, doc, n) && {n} !! k
  {
    WalkUnfolds(f, doc, n);
    NotItsOwnKid(f, n);
  }

  ghost predicate Walkable(f: Forest, v: Views, doc: Node, n: Node, depth: nat)
    reads f.kids.Keys`parent, f.kids.Keys`firstChild, f.kids.Keys`lastChild
    reads f.kids.Keys`prevSibling, f.kids.Keys`nextSibling, f.kids.Keys`classAttr, f.kids.Keys`idAttr
  {
    Scene(f, v) && n in f.kids && doc !in f.up && Fits(f, n, depth)
  }

  method AddNodeId(t: IdTables, n: Node, ghost f: Forest, ghost v: Views)
    requires Scene(f, v) && n in f.kids && Positive(CountsOf(t))
    modifies t
    ensures Scene(f, v) && Positive(CountsOf(t)) && Entered(old(TablesOf(t)), TablesOf(t), v.ids, {n})
  {
    NodeView(f, v, n);
    if n.kind == Element && n.idAttr.Some? && n.idAttr.value != "" {
      RegisterId(t, n.idAttr.value, n, f, v);
      StaysPositive(old(TablesOf(t)), TablesOf(t), v.ids, {n});
    } else {
      NoIdNothing(TablesOf(t), v.ids, n);
    }
  }

  /** ns_doc_id_index_add_subtree */
  method AddIds(t: IdTables, doc: Node, n: Node, depth: nat, ghost f: Forest, ghost v: Views)
    requires Walkable(f, v, doc, n, depth) && Positive(CountsOf(t))
    modifies t
    ensures Scene(f, v) && Positive(CountsOf(t)) && Entered(old(TablesOf(t)), TablesOf(t), v.ids, Walked(f, doc, n))
    decreases f.bound - f.rank[n], 2
  {
    LinkedParent(f, n);
    DepthLeft(f, n, depth);
    if depth >= MAX_DEPTH || (n != doc && n.kind == Document && n.parent != null) {
      NothingEntered(TablesOf(t), v.ids);
      return;
    }
    WalkUnfolds(f, doc, n);
    ghost var a := TablesOf(t);
    AddNodeId(t, n, f, v);
    if !n.IsTemplate() {
      ghost var b := TablesOf(t);
      AddKidIds(t, doc, n, depth, f, v);
      NodeApart(f, doc, n);
      EnteredBoth(a, b, TablesOf(t), v.ids, {n}, VisibleKids(f, n, |f.kids[n]|));
    }
  }

  method AddKidIds(t: IdTables, doc: Node, n: Node, depth: nat, ghost f: Forest, ghost v: Views)
    requires Walkable(f, v, doc, n, depth) && Positive(CountsOf(t))
    modifies t
    ensures Scene(f, v) && Positive(CountsOf(t))
    ensures Entered(old(TablesOf(t)), TablesOf(t), v.ids, VisibleKids(f, n, |f.kids[n]|))
    decreases f.bound - f.rank[n], 1
  {
    FirstKid(f, n);
    var c := n.firstChild;
    ghost var i := 0;
    ghost var a := TablesOf(t);
    NothingEntered(a, v.ids);
    while c != null
      invariant Walkable(f, v, doc, n, depth) && Positive(CountsOf(t))
      invariant 0 <= i <= |f.kids[n]| && c == NthKid(f, n, i)
      invariant Entered(a, TablesOf(t), v.ids, VisibleKids(f, n, i))
      decreases |f.kids[n]| - i
    {
      c := AddKidId(t, doc, n, i, c, depth, f, v, a);
      i := i + 1;
    }
    assert i == |f.kids[n]|;
  }

  method AddKidId(t: IdTables, doc: Node, ghost n: Node, ghost i: nat, c: Node, depth: nat,
                  ghost f: Forest, ghost v: Views, ghost a: Tables) returns (next: Node?)
    requires Walkable(f, v, doc, n, depth) && Positive(CountsOf(t))
    requires i < |f.kids[n]| && c == f.kids[n][i] && Entered(a, TablesOf(t), v.ids, VisibleKids(f, n, i))
    modifies t
    ensures Walkable(f, v, doc, n, depth) && Positive(CountsOf(t))
    ensures Entered(a, TablesOf(t), v.ids, VisibleKids(f, n, i + 1)) && next == NthKid(f, n, i + 1)
    decreases f.bound - f.rank[n], 0
  {
    KidDisjoint(f, n, i);
    FitsKid(f, n, depth, i);
    assert UpOk(f, c);
    ghost var b := TablesOf(t);
    AddIds(t, doc, c, depth + 1, f, v);
    EnteredBoth(a, b, TablesOf(t), v.ids, VisibleKids(f, n, i), Walked(f, doc, c));
    OneMoreKid(f, doc, n, i);
    LinkedSibling(f, n, i);
    next := c.nextSibling;
  }

  lemma OneMoreKid(f: Forest, doc: Node, n: Node, i: nat)
    requires Wf(f) && n in f.kids && i < |f.kids[n]| && doc !in f.up
    ensures VisibleKids(f, n, i) + Walked(f, doc, f.kids[n][i]) == VisibleKids(f, n, i + 1)
  {
    assert KidsOk(f, n);
  }

  /** Takes out a node whose id attribute is, or was until now, `id`; `ids` are the ids at that time. */
  method DropId(t: IdTables, n: Node, id: Option<string>, ghost f: Forest, ghost v: Views, ghost ids: Ids)
    requires Scene(f, v) && n in ids && ids[n] == NodeId(n, id) && Positive(CountsOf(t))
    modifies t
    ensures Scene(f, v) && Positive(CountsOf(t)) && Withdrawn(old(TablesOf(t)), TablesOf(t), ids, {n})
  {
    if n.kind == Element && id.Some? && id.value != "" {
      UnregisterId(t, id.value, n, f, v, ids);
      StaysPositive(old(TablesOf(t)), TablesOf(t), ids, {n});
    } else {
      NoIdNothing(TablesOf(t), ids, n);
    }
  }

  /** ns_doc_id_index_remove_subtree */
  method RemoveIds(t: IdTables, doc: Node, n: Node, depth: nat, ghost f: Forest, ghost v: Views)
    requires Walkable(f, v, doc, n, depth) && Positive(CountsOf(t))
    modifies t
    ensures Scene(f, v) && Positive(CountsOf(t)) && Withdrawn(old(TablesOf(t)), TablesOf(t), v.ids, Walked(f, doc, n))
    decreases f.bound - f.rank[n], 2
  {
    LinkedParent(f, n);
    DepthLeft(f, n, depth);
    if depth >= MAX_DEPTH || (n != doc && n.kind == Document && n.parent != null) {
      NothingEntered(TablesOf(t), v.ids);
      return;
    }
    WalkUnfolds(f, doc, n);
    NodeView(f, v, n);
    ghost var a := TablesOf(t);
    DropId(t, n, n.idAttr, f, v, v.ids);
    if !n.IsTemplate() {
      ghost var b := TablesOf(t);
      RemoveKidIds(t, doc, n, depth, f, v);
      NodeApart(f, doc, n);
      WithdrawnBoth(a, b, TablesOf(t), v.ids, {n}, VisibleKids(f, n, |f.kids[n]|));
    }
  }

  method RemoveKidIds(t: IdTables, doc: Node, n: Node, depth: nat, ghost f: Forest, ghost v: Views)
    requires Walkable(f, v, doc, n, depth) && Positive(CountsOf(t))
    modifies t
    ensures Scene(f, v) && Positive(CountsOf(t))
    ensures Withdrawn(old(TablesOf(t)), TablesOf(t), v.ids, VisibleKids(f, n, |f.kids[n]|))
    decreases f.bound - f.rank[n], 1
  {
    FirstKid(f, n);
    var c := n.firstChild;
    ghost var i := 0;
    ghost var a := TablesOf(t);
    NothingEntered(a, v.ids);
    while c != null
      invariant Walkable(f, v, doc, n, depth) && Positive(CountsOf(t))
      invariant 0 <= i <= |f.kids[n]| && c == NthKid(f, n, i)
      invariant Withdrawn(a, TablesOf(t), v.ids, VisibleKids(f, n, i))
      decreases |f.kids[n]| - i
    {
      c := RemoveKidId(t, doc, n, i, c, depth, f, v, a);
      i := i + 1;
    }
    assert i == |f.kids[n]|;
  }

  method RemoveKidId(t: IdTables, doc: Node, ghost n: Node, ghost i: nat, c: Node, depth: nat,
                     ghost f: Forest, ghost v: Views, ghost a: Tables) returns (next: Node?)
    requires Walkable(f, v, doc, n, depth) && Positive(CountsOf(t))
    requires i < |f.kids[n]| && c == f.kids[n][i] && Withdrawn(a, TablesOf(t), v.ids, VisibleKids(f, n, i))
    modifies t
    ensures Walkable(f, v, doc, n, depth) && Positive(CountsOf(t))
    ensures Withdrawn(a, TablesOf(t), v.ids, VisibleKids(f, n, i + 1)) && next == NthKid(f, n, i + 1)
    decreases f.bound - f.rank[n], 0
  {
    KidDisjoint(f, n, i);
    FitsKid(f, n, depth, i);
    assert UpOk(f, c);
    ghost var b := TablesOf(t);
    RemoveIds(t, doc, c, depth + 1, f, v);
    WithdrawnBoth(a, b, TablesOf(t), v.ids, VisibleKids(f, n, i), Walked(f, doc, c));
    OneMoreKid(f, doc, n, i);
    LinkedSibling(f, n, i);
    next := c.nextSibling;
  }

  // ---------- look-ups ----------

  /** `r` is the first member of `s`, in document order, that carries the id; null if there is none. */
  ghost predicate IsFirst(f: Forest, ids: Ids, id: string, s: set<Node>, r: Node?)
    requires Wf(f) && ids.Keys == f.kids.Keys && s <= f.kids.Keys
  {
    && (r == null ==> WithId(ids, s, id) == {})
    && (r != null ==> r in WithId(ids, s, id) && forall n :: n in WithId(ids, s, id) ==> n == r || Before(f, r, n))
  }

  lemma NoneIn(f: Forest, ids: Ids, id: string, s: set<Node>, t: set<Node>)
    requires Wf(f) && ids.Keys == f.kids.Keys && s <= f.kids.Keys && t <= f.kids.Keys
    requires WithId(ids, s, id) == {}
    ensures WithId(ids, s + t, id) == WithId(ids, t, id)
  {
    forall n | n in s ensures n !in WithId(ids, s + t, id) || n in t {
      assert n !in WithId(ids, s, id);
    }
  }

  /** ns_node_find_by_id_depth */
  method FindInTree(root: Node, id: string, depth: nat, ghost f: Forest, ghost v: Views) returns (r: Node?)
    requires Scene(f, v) && root in f.kids && Fits(f, root, depth) && id != ""
    ensures Scene(f, v) && IsFirst(f, v.ids, id, VisibleSet(f, root), r)
    decreases f.bound - f.rank[root], 1
  {
    DepthLeft(f, root, depth);
    if depth >= MAX_DEPTH { return null; }
    NodeView(f, v, root);
    VisibleUnfolds(f, root);
    assert root in VisibleSet(f, root) by { assert Visible(f, root, root); }
    if root.kind == Element && root.idAttr == Some(id) {
      RootFirst(f, v.ids, id, root);
      return root;
    }
    assert WithId(v.ids, {root}, id) == {};
    if root.IsTemplate() { return null; }
    r := FindInKids(root, id, depth, f, v);
    RootSkipped(f, v.ids, id, root, r);
  }

  lemma RootFirst(f: Forest, ids: Ids, id: string, root: Node)
    requires Wf(f) && ids.Keys == f.kids.Keys && root in f.kids && ids[root] == Some(id)
    ensures IsFirst(f, ids, id, VisibleSet(f, root), root)
  {
    assert Visible(f, root, root);
    forall n | n in WithId(ids, VisibleSet(f, root), id) ensures n == root || Before(f, root, n) {
      VisibleUnder(f, root, n);
      if n != root { AncestorBefore(f, root, n); }
    }
  }

  lemma RootSkipped(f: Forest, ids: Ids, id: string, root: Node, r: Node?)
    requires Wf(f) && ids.Keys == f.kids.Keys && root in f.kids && !root.IsTemplate() && ids[root] != Some(id)
    requires IsFirst(f, ids, id, VisibleKids(f, root, |f.kids[root]|), r)
    ensures IsFirst(f, ids, id, VisibleSet(f, root), r)
  {
    VisibleUnfolds(f, root);
    assert WithId(ids, {root}, id) == {};
    NoneIn(f, ids, id, {root}, VisibleKids(f, root, |f.kids[root]|));
  }

  method FindInKids(root: Node, id: string, depth: nat, ghost f: Forest, ghost v: Views) returns (r: Node?)
    requires Scene(f, v) && root in f.kids && Fits(f, root, depth) && id != ""
    ensures Scene(f, v) && IsFirst(f, v.ids, id, VisibleKids(f, root, |f.kids[root]|), r)
    decreases f.bound - f.rank[root], 0
  {
    FirstKid(f, root);
    var c := root.firstChild;
    ghost var i := 0;
    while c != null
      invariant Scene(f, v)
      invariant 0 <= i <= |f.kids[root]| && c == NthKid(f, root, i)
      invariant WithId(v.ids, VisibleKids(f, root, i), id) == {}
      decreases |f.kids[root]| - i
    {
      assert KidsOk(f, root);
      assert UpOk(f, c);
      FitsKid(f, root, depth, i);
      LinkedParent(f, c);
      r := null;
      if !(c.kind == Document && c.parent != null) {
        r := FindInTree(c, id, depth + 1, f, v);
      }
      NoneIn(f, v.ids, id, VisibleKids(f, root, i), VisibleFromKid(f, c));
      if r != null {
        FirstOfKid(f, v.ids, id, root, i, r);
        return;
      }
      LinkedSibling(f, root, i);
      c := c.nextSibling;
      i := i + 1;
    }
    assert i == |f.kids[root]|;
    return null;
  }

  /** A hit in the `i`-th child, when the earlier ones have none, is the first hit of all. */
  lemma FirstOfKid(f: Forest, ids: Ids, id: string, n: Node, i: nat, r: Node)
    requires Wf(f) && ids.Keys == f.kids.Keys && n in f.kids && i < |f.kids[n]|
    requires WithId(ids, VisibleKids(f, n, i), id) == {}
    requires IsFirst(f, ids, id, VisibleFromKid(f, f.kids[n][i]), r)
    ensures IsFirst(f, ids, id, VisibleKids(f, n, |f.kids[n]|), r)
  {
    assert KidsOk(f, n);
    VisibleKidsGrow(f, n, i + 1, |f.kids[n]|);
    var all := VisibleKids(f, n, |f.kids[n]|);
    assert r in VisibleKids(f, n, i + 1);
    forall m | m in WithId(ids, all, id) ensures m == r || Before(f, r, m) {
      LaterHit(f, ids, id, n, i, r, m);
    }
  }

  lemma LaterHit(f: Forest, ids: Ids, id: string, n: Node, i: nat, r: Node, m: Node)
    requires Wf(f) && ids.Keys == f.kids.Keys && n in f.kids && i < |f.kids[n]|
    requires WithId(ids, VisibleKids(f, n, i), id) == {}
    requires IsFirst(f, ids, id, VisibleFromKid(f, f.kids[n][i]), r)
    requires m in WithId(ids, VisibleKids(f, n, |f.kids[n]|), id)
    ensures m == r || Before(f, r, m)
  {
    VisibleKidsMember(f, n, |f.kids[n]|, m);
    var j :| 0 <= j < |f.kids[n]| && m in VisibleFromKid(f, f.kids[n][j]);
    VisibleKidsMember(f, n, i, m);
    assert m !in WithId(ids, VisibleKids(f, n, i), id);
    if j == i {
      assert m in WithId(ids, VisibleFromKid(f, f.kids[n][i]), id);
    } else if j > i {
      LaterKidLater(f, n, i, j, r, m);
    }
  }

  lemma LaterKidLater(f: Forest, n: Node, i: nat, j: nat, r: Node, m: Node)
    requires Wf(f) && n in f.kids && i < j < |f.kids[n]|
    requires r in VisibleFromKid(f, f.kids[n][i]) && m in VisibleFromKid(f, f.kids[n][j])
    ensures Before(f, r, m)
  {
    assert KidsOk(f, n);
    assert SiblingBefore(f, f.kids[n][i], f.kids[n][j]);
    VisibleUnder(f, f.kids[n][i], r);
    VisibleUnder(f, f.kids[n][j], m);
    SiblingSubtreesBefore(f, f.kids[n][i], f.kids[n][j], r, m);
  }

  /** An entry that still carries its id and still lies in the document is visible.  It may be out of date. */
  ghost predicate EntryUsable(f: Forest, ids: Ids, root: Node, id: string, n: Node)
    requires Wf(f) && ids.Keys == f.kids.Keys
  {
    n in f.kids && (ids[n] == Some(id) && Under(f, root, n) ==> Visible(f, root, n))
  }

  ghost predicate IndexUsable(f: Forest, ids: Ids, root: Node, index: map<string, Node>)
    requires Wf(f) && ids.Keys == f.kids.Keys
  {
    forall id :: id in index ==> EntryUsable(f, ids, root, id, index[id])
  }

  /** A look-up of the id will not give up at once: the id has a count or an entry. */
  predicate Listed(a: Tables, id: string) {
    id in a.counts || id in a.index
  }

  ghost predicate AllListed(a: Tables, ids: Ids, s: set<Node>) {
    forall id :: WithId(ids, s, id) != {} ==> Listed(a, id)
  }

  /** All that look-ups rely on: an id that some visible element carries has a count or an entry, and an entry that
      still carries its id and still lies in the document is visible. */
  ghost predicate Usable(f: Forest, a: Tables, ids: Ids, root: Node)
    requires Wf(f) && ids.Keys == f.kids.Keys
  {
    AllListed(a, ids, VisibleSet(f, root)) && IndexUsable(f, ids, root, a.index)
  }

  ghost predicate IdUsable(f: Forest, t: IdTables, ids: Ids, root: Node)
    requires Wf(f) && ids.Keys == f.kids.Keys
    reads t
  {
    Usable(f, TablesOf(t), ids, root)
  }

  lemma ExactIsUsable(f: Forest, a: Tables, ids: Ids, root: Node)
    requires Wf(f) && ids.Keys == f.kids.Keys && Exact(a, ids, VisibleSet(f, root))
    ensures Usable(f, a, ids, root)
  {
    var s := VisibleSet(f, root);
    forall id | WithId(ids, s, id) != {} ensures id in a.counts {
      assert CountAt(a.counts, id) == |WithId(ids, s, id)|;
    }
    forall id | id in a.index ensures EntryUsable(f, ids, root, id, a.index[id]) {
      assert a.index[id] in WithId(ids, s, id);
    }
  }

  /** Entering visible nodes keeps every entry as good as it was, and lists exactly their ids in addition. */
  lemma EnteredUsable(f: Forest, a: Tables, b: Tables, ids: Ids, root: Node, s: set<Node>, w: set<Node>)
    requires Wf(f) && ids.Keys == f.kids.Keys && Entered(a, b, ids, w) && w <= VisibleSet(f, root) && Positive(a.counts)
    ensures IndexUsable(f, ids, root, b.index) <==> IndexUsable(f, ids, root, a.index)
    ensures AllListed(b, ids, s + w) <==>
            forall id :: WithId(ids, s, id) != {} && WithId(ids, w, id) == {} ==> Listed(a, id)
  {
    StaysPositive(a, b, ids, w);
    forall id ensures EnteredAt(a, b, ids, w, id) { EnteredIs(a, b, ids, w, id); }
    forall id ensures Listed(b, id) <==> Listed(a, id) || WithId(ids, w, id) != {} {
      EnteredIs(a, b, ids, w, id);
      assert |WithId(ids, w, id)| > 0 <==> WithId(ids, w, id) != {};
    }
    forall id ensures WithId(ids, s + w, id) != {} <==> WithId(ids, s, id) != {} || WithId(ids, w, id) != {} {
      WithIdSplit(ids, s, w, id);
    }
    if IndexUsable(f, ids, root, b.index) {
      forall id | id in a.index ensures EntryUsable(f, ids, root, id, a.index[id]) {
        assert EnteredAt(a, b, ids, w, id) && EntryUsable(f, ids, root, id, b.index[id]);
      }
    }
    if IndexUsable(f, ids, root, a.index) {
      forall id | id in b.index ensures EntryUsable(f, ids, root, id, b.index[id]) {
        assert EnteredAt(a, b, ids, w, id) && (id in a.index ==> EntryUsable(f, ids, root, id, a.index[id]));
      }
    }
  }

  /** An id stays listed when the nodes of `w` are withdrawn: it was counted more often, or has an entry that stays. */
  ghost predicate StaysListed(a: Tables, ids: Ids, w: set<Node>, id: string) {
    CountAt(a.counts, id) > |WithId(ids, w, id)| || (id in a.index && a.index[id] !in WithId(ids, w, id))
  }

  /** Withdrawing nodes leaves the other entries, and the ids listed that are counted more often or have such an
      entry. */
  lemma WithdrawnUsable(f: Forest, a: Tables, b: Tables, ids: Ids, root: Node, w: set<Node>)
    requires Wf(f) && ids.Keys == f.kids.Keys && Withdrawn(a, b, ids, w)
    ensures IndexUsable(f, ids, root, b.index) <==>
            forall id :: id in a.index && a.index[id] !in WithId(ids, w, id) ==> EntryUsable(f, ids, root, id, a.index[id])
    ensures forall id :: Listed(b, id) <==> StaysListed(a, ids, w, id)
  {
    StaysPositive(a, b, ids, w);
    forall id ensures WithdrawnAt(a, b, ids, w, id) && (Listed(b, id) <==> StaysListed(a, ids, w, id)) {
      WithdrawnIs(a, b, ids, w, id);
      assert id in b.counts <==> CountAt(b.counts, id) > 0;
    }
    if IndexUsable(f, ids, root, b.index) {
      forall id | id in a.index && a.index[id] !in WithId(ids, w, id) ensures EntryUsable(f, ids, root, id, a.index[id]) {
        assert WithdrawnAt(a, b, ids, w, id) && EntryUsable(f, ids, root, id, b.index[id]);
      }
    } else {
      var id :| id in b.index && !EntryUsable(f, ids, root, id, b.index[id]);
      assert WithdrawnAt(a, b, ids, w, id);
    }
  }

  /** Every entry names a node that is still there. */
  ghost predicate Known(f: Forest, index: map<string, Node>) {
    forall id :: id in index ==> index[id] in f.kids
  }

  /** What a look-up of one id relies on. */
  ghost predicate IdRight(f: Forest, t: IdTables, ids: Ids, root: Node, id: string)
    requires Wf(f) && ids.Keys == f.kids.Keys
    reads t
  {
    && (TablesOf(t).counted && WithId(ids, VisibleSet(f, root), id) != {} ==> Listed(TablesOf(t), id))
    && (id in t.index ==> EntryUsable(f, ids, root, id, t.index[id]))
  }

  lemma UsableIsRight(f: Forest, t: IdTables, ids: Ids, root: Node)
    requires Wf(f) && ids.Keys == f.kids.Keys
    ensures IdUsable(f, t, ids, root) ==> Known(f, t.index) && forall id :: IdRight(f, t, ids, root, id)
    ensures t.counts.Some? && (forall id :: IdRight(f, t, ids, root, id)) ==> IdUsable(f, t, ids, root)
  {
    if t.counts.Some? && forall id :: IdRight(f, t, ids, root, id) {
      forall id | WithId(ids, VisibleSet(f, root), id) != {} ensures Listed(TablesOf(t), id) {
        assert IdRight(f, t, ids, root, id);
      }
      forall id | id in t.index ensures EntryUsable(f, ids, root, id, t.index[id]) {
        assert IdRight(f, t, ids, root, id);
      }
    }
  }

  /** ns_node_find_by_id, whatever the tables hold: it answers exactly if they are right about the id.  The tables
      repair themselves: what look-ups rely on stays, and exact tables stay exact. */
  method FindById(root: Node, id: string, ghost f: Forest, ghost v: Views) returns (r: Node?)
    requires Scene(f, v) && root in f.kids && Fits(f, root, 0)
    requires root.idTables != null ==> Known(f, root.idTables.index)
    modifies root.idTables
    ensures id == "" ==> r == null
    ensures r != null ==> r in f.kids && v.ids[r] == Some(id) && Under(f, root, r)
    ensures id != "" ==> (IsAnswer(f, v.ids, id, VisibleSet(f, root), r) <==>
                          root.idTables == null || old(IdRight(f, root.idTables, v.ids, root, id)))
    ensures root.idTables != null ==> Known(f, root.idTables.index) && root.idTables.counts == old(root.idTables.counts)
    ensures root.idTables != null && old(IdUsable(f, root.idTables, v.ids, root)) ==>
              IdUsable(f, root.idTables, v.ids, root)
    ensures root.idTables != null && old(IdExact(root.idTables, v.ids, VisibleSet(f, root)))
            ==> IdExact(root.idTables, v.ids, VisibleSet(f, root))
  {
    if id == "" { return null; }
    var t := root.idTables;
    if t == null {
      r := FindInTree(root, id, 0, f, v);
      FirstIsAnswer(f, v.ids, id, VisibleSet(f, root), r);
      AnswerLies(f, v.ids, id, root, r);
    } else {
      r := FindInTables(t, root, id, f, v);
    }
  }

  /** The part of ns_node_find_by_id for a root that has tables */
  method FindInTables(t: IdTables, root: Node, id: string, ghost f: Forest, ghost v: Views) returns (r: Node?)
    requires Scene(f, v) && root in f.kids && Fits(f, root, 0) && Known(f, t.index) && id != ""
    modifies t`index
    ensures IsAnswer(f, v.ids, id, VisibleSet(f, root), r) <==> old(IdRight(f, t, v.ids, root, id))
    ensures r != null ==> r in f.kids && v.ids[r] == Some(id) && Under(f, root, r)
    ensures Known(f, t.index)
    ensures old(IdUsable(f, t, v.ids, root)) ==> IdUsable(f, t, v.ids, root)
    ensures old(IdExact(t, v.ids, VisibleSet(f, root))) ==> IdExact(t, v.ids, VisibleSet(f, root))
  {
    if id in t.index {
      var good := HitIsGood(t.index[id], root, id, f, v);
      if good {
        r := t.index[id];
        if Visible(f, root, r) { OnlyOne(f, v.ids, id, VisibleSet(f, root), r); }
        return;
      }
    } else if t.counts.Some? && id !in t.counts.value {
      return null;
    }
    r := WalkAndRepair(t, root, id, f, v);
    AnswerLies(f, v.ids, id, root, r);
  }

  lemma AnswerLies(f: Forest, ids: Ids, id: string, root: Node, r: Node?)
    requires Wf(f) && ids.Keys == f.kids.Keys && IsAnswer(f, ids, id, VisibleSet(f, root), r)
    ensures r != null ==> r in f.kids && ids[r] == Some(id) && Under(f, root, r)
  {
    if r != null { VisibleUnder(f, root, r); }
  }

  /** What a look-up returns: null exactly when no member of `s` carries the id, otherwise a member that
      does, and the first one if there is only one. */
  ghost predicate IsAnswer(f: Forest, ids: Ids, id: string, s: set<Node>, r: Node?)
    requires Wf(f) && ids.Keys == f.kids.Keys && s <= f.kids.Keys
  {
    && (r == null <==> WithId(ids, s, id) == {})
    && (r != null ==> r in WithId(ids, s, id))
    && (|WithId(ids, s, id)| <= 1 ==> IsFirst(f, ids, id, s, r))
  }

  lemma FirstIsAnswer(f: Forest, ids: Ids, id: string, s: set<Node>, r: Node?)
    requires Wf(f) && ids.Keys == f.kids.Keys && s <= f.kids.Keys && IsFirst(f, ids, id, s, r)
    ensures IsAnswer(f, ids, id, s, r)
  {
  }

  method HitIsGood(hit: Node, root: Node, id: string, ghost f: Forest, ghost v: Views) returns (good: bool)
    requires Scene(f, v) && root in f.kids && hit in f.kids && id != ""
    ensures good <==> v.ids[hit] == Some(id) && Under(f, root, hit)
  {
    NodeView(f, v, hit);
    if hit.kind != Element || hit.idAttr != Some(id) { return false; }
    good := Contains(root, hit, f);
  }

  function Repaired(index: map<string, Node>, id: string, r: Node?): map<string, Node> {
    if r == null then index - {id} else index[id := r]
  }

  lemma RepairedUsable(f: Forest, ids: Ids, root: Node, id: string, a: Tables, r: Node?)
    requires Wf(f) && ids.Keys == f.kids.Keys
    requires IsFirst(f, ids, id, VisibleSet(f, root), r)
    ensures var b := a.(index := Repaired(a.index, id, r));
            && (Usable(f, a, ids, root) ==> Usable(f, b, ids, root))
            && (Filed(a.index, ids, VisibleSet(f, root)) ==> Filed(b.index, ids, VisibleSet(f, root)))
  {
    var b := a.(index := Repaired(a.index, id, r));
    if Usable(f, a, ids, root) {
      forall k | k in b.index ensures EntryUsable(f, ids, root, k, b.index[k]) {
        assert k in a.index ==> EntryUsable(f, ids, root, k, a.index[k]);
      }
      forall k | WithId(ids, VisibleSet(f, root), k) != {} ensures Listed(b, k) {
        assert Listed(a, k);
      }
    }
  }

  method WalkAndRepair(t: IdTables, root: Node, id: string, ghost f: Forest, ghost v: Views) returns (r: Node?)
    requires Scene(f, v) && root in f.kids && Fits(f, root, 0) && id != "" && Known(f, t.index)
    modifies t`index
    ensures IsAnswer(f, v.ids, id, VisibleSet(f, root), r) && Known(f, t.index)
    ensures old(IdUsable(f, t, v.ids, root)) ==> IdUsable(f, t, v.ids, root)
    ensures old(IdExact(t, v.ids, VisibleSet(f, root))) ==> IdExact(t, v.ids, VisibleSet(f, root))
  {
    r := FindInTree(root, id, 0, f, v);
    FirstIsAnswer(f, v.ids, id, VisibleSet(f, root), r);
    RepairedUsable(f, v.ids, root, id, TablesOf(t), r);
    t.index := Repaired(t.index, id, r);
  }

  lemma OnlyOne(f: Forest, ids: Ids, id: string, s: set<Node>, n: Node)
    requires Wf(f) && ids.Keys == f.kids.Keys && s <= f.kids.Keys && n in WithId(ids, s, id)
    ensures IsAnswer(f, ids, id, s, n)
  {
    var w := WithId(ids, s, id);
    if |w| <= 1 {
      assert |w - {n}| == 0;
      assert w == {n};
    }
  }
}
