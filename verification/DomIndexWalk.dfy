/**
 The recursive walks that enter a subtree into an index and take it out again.  The class walk and the
 tag walk of the source differ only in the keys of a node, which is the parameter `which` here.
 */
module DomIndexWalk {
  import opened Common
  import opened DomForest
  import opened DomMoves
  import opened DomVisible
  import opened DomTree
  import opened DomScene
  import opened DomIndex

  ghost function EntriesOf(keys: Keys, s: set<Node>): Entries {
    set n, k | n in s && n in keys && k in keys[n] :: (k, n)
  }

  lemma EntriesSplit(keys: Keys, s: set<Node>, t: set<Node>)
    ensures EntriesOf(keys, s + t) == EntriesOf(keys, s) + EntriesOf(keys, t)
  {
  }

  lemma EntriesOfNode(keys: Keys, n: Node)
    requires n in keys
    ensures EntriesOf(keys, {n}) == Pairs(keys[n], n)
  {
  }

  lemma EntriesOfNothing(keys: Keys, want: Entries)
    ensures want + EntriesOf(keys, {}) == want
    ensures want - EntriesOf(keys, {}) == want
  {
    assert EntriesOf(keys, {}) == {};
  }

  // ---------- entering ----------

  method AddNode(table: KeyTable, which: Which, n: Node, building: bool,
                 ghost root: Node, ghost f: Forest, ghost v: Views, ghost want: Entries)
    requires Scene(f, v) && n in f.kids && Under(f, root, n)
    requires Holds(f, table.arrays, want) && CanAdd(f, root, want, n, building)
    modifies table
    ensures Scene(f, v) && Holds(f, table.arrays, want + Pairs(KeysFor(which, v)[n], n))
  {
    NodeView(f, v, n);
    if n.kind == Element && which == ByClass && n.classAttr.Some? && n.classAttr.value != "" {
      Register(table, n.classAttr.value, n, building, root, f, v, want);
    } else if n.kind == Element && which == ByTag && n.name != "" {
      var key := TagKey(n.name);
      AddKey(table, key, n, building, root, f, v, want);
      PairsOne(want, key, n);
    } else {
      PairsNone(want, n);
    }
  }

  lemma PairsOne(want: Entries, k: string, n: Node)
    ensures want + Pairs({k}, n) == want + {(k, n)}
    ensures want - Pairs({k}, n) == want - {(k, n)}
  {
    assert Pairs({k}, n) == {(k, n)};
  }

  lemma PairsNone(want: Entries, n: Node)
    ensures want + Pairs({}, n) == want
    ensures want - Pairs({}, n) == want
    ensures want + Pairs(Tokens(""), n) == want
    ensures want - Pairs(Tokens(""), n) == want
  {
    assert Tokens("") == {};
  }

  ghost predicate Covered(f: Forest, table: KeyTable, keys: Keys, want: Entries, s: set<Node>)
    requires Wf(f)
    reads table
  {
    Holds(f, table.arrays, want + EntriesOf(keys, s))
  }

  ghost predicate KidsCovered(f: Forest, table: KeyTable, keys: Keys, want: Entries, n: Node, i: nat)
    requires Wf(f) && n in f.kids && i <= |f.kids[n]|
    reads table
  {
    Covered(f, table, keys, want, {n} + VisibleKids(f, n, i))
  }

  lemma NoKidsYet(f: Forest, table: KeyTable, keys: Keys, want: Entries, n: Node)
    requires Wf(f) && n in keys && n in f.kids && Holds(f, table.arrays, want + Pairs(keys[n], n))
    ensures KidsCovered(f, table, keys, want, n, 0)
  {
    EntriesOfNode(keys, n);
    assert {n} + VisibleKids(f, n, 0) == {n};
  }

  lemma CanAddKid(f: Forest, root: Node, keys: Keys, want: Entries, n: Node, i: nat, building: bool)
    requires Wf(f) && n in f.kids && Under(f, root, n) && i < |f.kids[n]| && root in f.kids
    requires CanAdd(f, root, want, n, building)
    ensures f.kids[n][i] in f.kids && f.kids[n][i] in f.up && f.up[f.kids[n][i]] == n
    ensures Under(f, root, f.kids[n][i])
    ensures CanAdd(f, root, want + EntriesOf(keys, {n} + VisibleKids(f, n, i)), f.kids[n][i], building)
  {
    assert KidsOk(f, n);
    var c := f.kids[n][i];
    assert UpOk(f, c);
    UnderStep(f, root, c);
    UnderStep(f, n, c);
    forall e | e in want + EntriesOf(keys, {n} + VisibleKids(f, n, i))
      ensures e.1 in f.kids && Under(f, root, e.1)
      ensures building ==> Before(f, e.1, c)
    {
      if e in want {
        if building { PrecedesKid(f, e.1, n, c); }
      } else if e.1 == n {
        if building { PrecedesKid(f, e.1, n, c); }
      } else {
        EarlierKid(f, n, i, e.1);
        UnderTransitive(f, root, n, e.1);
      }
    }
  }

  lemma PrecedesKid(f: Forest, a: Node, n: Node, c: Node)
    requires Wf(f) && a in f.kids && n in f.kids && c in f.kids && c in f.up && f.up[c] == n
    requires Before(f, a, n) || a == n
    ensures Before(f, a, c)
  {
    assert UpOk(f, c);
    UnderStep(f, n, c);
    if c == n { ChainGrows(f, c); }
    AncestorBefore(f, n, c);
    if a != n { BeforeSubtree(f, a, n, c); }
  }

  lemma ChainGrows(f: Forest, c: Node)
    requires Wf(f) && c in f.kids && c in f.up
    ensures f.up[c] != c
  {
    assert UpOk(f, c);
  }

  /** What an earlier child covers precedes the `i`-th child. */
  lemma EarlierKid(f: Forest, n: Node, i: nat, m: Node)
    requires Wf(f) && n in f.kids && i < |f.kids[n]| && m in VisibleKids(f, n, i)
    ensures m in f.kids && f.kids[n][i] in f.kids && Under(f, n, m) && Before(f, m, f.kids[n][i])
  {
    assert KidsOk(f, n);
    VisibleKidsMember(f, n, i, m);
    var j :| 0 <= j < i && m in VisibleFromKid(f, f.kids[n][j]);
    VisibleUnder(f, f.kids[n][j], m);
    assert SiblingBefore(f, f.kids[n][j], f.kids[n][i]);
    SiblingSubtreesBefore(f, f.kids[n][j], f.kids[n][i], m, f.kids[n][i]);
    assert UpOk(f, f.kids[n][j]);
    UnderStep(f, n, f.kids[n][j]);
    UnderTransitive(f, n, f.kids[n][j], m);
  }

  /** ns_doc_class_index_add_subtree and ns_doc_tag_index_add_subtree */
  method AddSubtree(table: KeyTable, which: Which, doc: Node, n: Node, depth: nat, building: bool,
                    ghost root: Node, ghost f: Forest, ghost v: Views, ghost want: Entries)
    requires Scene(f, v) && n in f.kids && doc !in f.up && root in f.kids && Under(f, root, n) && Fits(f, n, depth)
    requires Holds(f, table.arrays, want) && CanAdd(f, root, want, n, building)
    modifies table
    ensures Scene(f, v)
    ensures Covered(f, table, KeysFor(which, v), want, Walked(f, doc, n))
    decreases f.bound - f.rank[n], 2
  {
    LinkedParent(f, n);
    DepthLeft(f, n, depth);
    if depth >= MAX_DEPTH || (n != doc && n.kind == Document && n.parent != null) {
      EntriesOfNothing(KeysFor(which, v), want);
      return;
    }
    AddNode(table, which, n, building, root, f, v, want);
    EntriesOfNode(KeysFor(which, v), n);
    WalkUnfolds(f, doc, n);
    if !n.IsTemplate() {
      NoKidsYet(f, table, KeysFor(which, v), want, n);
      AddKids(table, which, doc, n, depth, building, root, f, v, want);
    }
  }

  method AddKids(table: KeyTable, which: Which, doc: Node, n: Node, depth: nat, building: bool,
                 ghost root: Node, ghost f: Forest, ghost v: Views, ghost want: Entries)
    requires Scene(f, v) && n in f.kids && doc !in f.up && root in f.kids && Under(f, root, n) && Fits(f, n, depth)
    requires KidsCovered(f, table, KeysFor(which, v), want, n, 0) && CanAdd(f, root, want, n, building)
    modifies table
    ensures Scene(f, v)
    ensures KidsCovered(f, table, KeysFor(which, v), want, n, |f.kids[n]|)
    decreases f.bound - f.rank[n], 1
  {
    FirstKid(f, n);
    var c := n.firstChild;
    ghost var i := 0;
    while c != null
      invariant Scene(f, v)
      invariant 0 <= i <= |f.kids[n]| && c == NthKid(f, n, i)
      invariant KidsCovered(f, table, KeysFor(which, v), want, n, i)
      decreases |f.kids[n]| - i
    {
      c := AddKid(table, which, doc, n, i, c, depth, building, root, f, v, want);
      i := i + 1;
    }
    assert i == |f.kids[n]|;
  }

  method AddKid(table: KeyTable, which: Which, doc: Node, ghost n: Node, ghost i: nat, c: Node, depth: nat,
                building: bool, ghost root: Node, ghost f: Forest, ghost v: Views, ghost want: Entries)
    returns (next: Node?)
    requires Scene(f, v) && n in f.kids && doc !in f.up && root in f.kids && Under(f, root, n) && Fits(f, n, depth)
    requires i < |f.kids[n]| && c == f.kids[n][i]
    requires KidsCovered(f, table, KeysFor(which, v), want, n, i) && CanAdd(f, root, want, n, building)
    modifies table
    ensures Scene(f, v)
    ensures KidsCovered(f, table, KeysFor(which, v), want, n, i + 1)
    ensures next == NthKid(f, n, i + 1)
    decreases f.bound - f.rank[n], 0
  {
    CanAddKid(f, root, KeysFor(which, v), want, n, i, building);
    FitsKid(f, n, depth, i);
    assert UpOk(f, c);
    ghost var done := {n} + VisibleKids(f, n, i);
    AddSubtree(table, which, doc, c, depth + 1, building, root, f, v, want + EntriesOf(KeysFor(which, v), done));
    KidEntries(KeysFor(which, v), want, done, Walked(f, doc, c), {n} + VisibleKids(f, n, i + 1));
    LinkedSibling(f, n, i);
    next := c.nextSibling;
  }

  lemma KidEntries(keys: Keys, want: Entries, s: set<Node>, t: set<Node>, u: set<Node>)
    requires u == s + t
    ensures want + EntriesOf(keys, s) + EntriesOf(keys, t) == want + EntriesOf(keys, u)
    ensures want - EntriesOf(keys, s) - EntriesOf(keys, t) == want - EntriesOf(keys, u)
  {
    EntriesSplit(keys, s, t);
  }

  // ---------- taking out ----------

  method RemoveNode(table: KeyTable, which: Which, n: Node, ghost f: Forest, ghost v: Views,
                    ghost g: Forest, ghost want: Entries)
    requires Scene(f, v) && n in f.kids && Wf(g) && Holds(g, table.arrays, want)
    modifies table
    ensures Scene(f, v) && Holds(g, table.arrays, want - Pairs(KeysFor(which, v)[n], n))
  {
    NodeView(f, v, n);
    if n.kind == Element && which == ByClass && n.classAttr.Some? && n.classAttr.value != "" {
      Unregister(table, n.classAttr.value, n, f, v, g, want);
    } else if n.kind == Element && which == ByTag && n.name != "" {
      var key := TagKey(n.name);
      RemoveKey(table, key, n, f, v, g, want);
      PairsOne(want, key, n);
    } else {
      PairsNone(want, n);
    }
  }

  /** The index, sorted in the order of `g`, holds `want` without the entries of `s`. */
  ghost predicate Cleared(g: Forest, table: KeyTable, keys: Keys, want: Entries, s: set<Node>)
    requires Wf(g)
    reads table
  {
    Holds(g, table.arrays, want - EntriesOf(keys, s))
  }

  ghost predicate KidsCleared(f: Forest, g: Forest, table: KeyTable, keys: Keys, want: Entries, n: Node, i: nat)
    requires Wf(f) && Wf(g) && n in f.kids && i <= |f.kids[n]|
    reads table
  {
    Cleared(g, table, keys, want, {n} + VisibleKids(f, n, i))
  }

  lemma NoKidsCleared(f: Forest, g: Forest, table: KeyTable, keys: Keys, want: Entries, n: Node)
    requires Wf(f) && Wf(g) && n in keys && n in f.kids && Holds(g, table.arrays, want - Pairs(keys[n], n))
    ensures KidsCleared(f, g, table, keys, want, n, 0)
  {
    EntriesOfNode(keys, n);
    assert {n} + VisibleKids(f, n, 0) == {n};
  }

  /** ns_doc_class_index_remove_subtree and ns_doc_tag_index_remove_subtree */
  method RemoveSubtree(table: KeyTable, which: Which, doc: Node, n: Node, depth: nat,
                       ghost f: Forest, ghost v: Views, ghost g: Forest, ghost want: Entries)
    requires Scene(f, v) && n in f.kids && doc !in f.up && Fits(f, n, depth)
    requires Wf(g) && Holds(g, table.arrays, want)
    modifies table
    ensures Scene(f, v)
    ensures Cleared(g, table, KeysFor(which, v), want, Walked(f, doc, n))
    decreases f.bound - f.rank[n], 2
  {
    LinkedParent(f, n);
    DepthLeft(f, n, depth);
    if depth >= MAX_DEPTH || (n != doc && n.kind == Document && n.parent != null) {
      EntriesOfNothing(KeysFor(which, v), want);
      return;
    }
    RemoveNode(table, which, n, f, v, g, want);
    EntriesOfNode(KeysFor(which, v), n);
    WalkUnfolds(f, doc, n);
    if !n.IsTemplate() {
      NoKidsCleared(f, g, table, KeysFor(which, v), want, n);
      RemoveKids(table, which, doc, n, depth, f, v, g, want);
    }
  }

  method RemoveKids(table: KeyTable, which: Which, doc: Node, n: Node, depth: nat,
                    ghost f: Forest, ghost v: Views, ghost g: Forest, ghost want: Entries)
    requires Scene(f, v) && n in f.kids && doc !in f.up && Fits(f, n, depth)
    requires Wf(g) && KidsCleared(f, g, table, KeysFor(which, v), want, n, 0)
    modifies table
    ensures Scene(f, v)
    ensures KidsCleared(f, g, table, KeysFor(which, v), want, n, |f.kids[n]|)
    decreases f.bound - f.rank[n], 1
  {
    FirstKid(f, n);
    var c := n.firstChild;
    ghost var i := 0;
    while c != null
      invariant Scene(f, v)
      invariant 0 <= i <= |f.kids[n]| && c == NthKid(f, n, i)
      invariant KidsCleared(f, g, table, KeysFor(which, v), want, n, i)
      decreases |f.kids[n]| - i
    {
      c := RemoveKid(table, which, doc, n, i, c, depth, f, v, g, want);
      i := i + 1;
    }
    assert i == |f.kids[n]|;
  }

  method RemoveKid(table: KeyTable, which: Which, doc: Node, ghost n: Node, ghost i: nat, c: Node, depth: nat,
                   ghost f: Forest, ghost v: Views, ghost g: Forest, ghost want: Entries)
    returns (next: Node?)
    requires Scene(f, v) && n in f.kids && doc !in f.up && Fits(f, n, depth)
    requires i < |f.kids[n]| && c == f.kids[n][i]
    requires Wf(g) && KidsCleared(f, g, table, KeysFor(which, v), want, n, i)
    modifies table
    ensures Scene(f, v)
    ensures KidsCleared(f, g, table, KeysFor(which, v), want, n, i + 1)
    ensures next == NthKid(f, n, i + 1)
    decreases f.bound - f.rank[n], 0
  {
    FitsKid(f, n, depth, i);
    assert KidsOk(f, n);
    assert UpOk(f, c);
    ghost var done := {n} + VisibleKids(f, n, i);
    RemoveSubtree(table, which, doc, c, depth + 1, f, v, g, want - EntriesOf(KeysFor(which, v), done));
    KidEntries(KeysFor(which, v), want, done, Walked(f, doc, c), {n} + VisibleKids(f, n, i + 1));
    LinkedSibling(f, n, i);
    next := c.nextSibling;
  }
}
