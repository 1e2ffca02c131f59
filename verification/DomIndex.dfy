/**
 The class index and the tag index of a document: hash tables from a key to the array of the elements
 that carry the key.  The source keeps every array in document order by binary search, so that queries
 can be answered from the array instead of walking the tree.
 */
module DomIndex {
  import opened Common
  import opened DomForest
  import opened DomMoves
  import opened DomVisible
  import opened DomTree
  import opened DomScene

  /** The pairs of a key and a node that an index is meant to hold. */
  type Entries = set<(string, Node)>

  /** The arrays hold exactly these entries, each array sorted by document order (and so without
      duplicates). */
  ghost predicate Holds(f: Forest, arrays: map<string, seq<Node>>, want: Entries)
    requires Wf(f)
  {
    && (forall k :: k in arrays ==> HoldsAt(f, arrays[k], k, want))
    && (forall e :: e in want ==> e.0 in arrays)
  }

  ghost predicate HoldsAt(f: Forest, arr: seq<Node>, k: string, want: Entries)
    requires Wf(f)
  {
    && Sorted(f, arr)
    && (forall n :: n in arr ==> (k, n) in want)
    && (forall e :: e in want && e.0 == k ==> e.1 in arr)
  }

  /** All entries lie in the tree of `root`. */
  ghost predicate InTree(f: Forest, root: Node, want: Entries)
    requires Wf(f)
  {
    forall e :: e in want ==> e.1 in f.kids && Under(f, root, e.1)
  }

  lemma SameTreeTotal(f: Forest, root: Node, a: Node, b: Node)
    requires Wf(f) && a in f.kids && b in f.kids && Under(f, root, a) && Under(f, root, b) && a != b
    ensures Before(f, a, b) || Before(f, b, a)
  {
    var i :| 0 <= i < |Chain(f, a)| && Chain(f, a)[i] == root;
    ChainPrefix(f, a, i);
    var j :| 0 <= j < |Chain(f, b)| && Chain(f, b)[j] == root;
    ChainPrefix(f, b, j);
    assert Chain(f, a)[..i + 1][0] == Chain(f, b)[..j + 1][0];
    BeforeTotal(f, a, b);
  }

  // ---------- comparing ----------

  /** A comparison, with the note that it leaves the tree alone. */
  method Compare(a: Node, b: Node, ghost f: Forest, ghost v: Views) returns (r: int)
    requires Scene(f, v) && a in f.kids && b in f.kids
    ensures Scene(f, v)
    ensures r < 0 <==> Before(f, a, b)
    ensures r > 0 <==> Before(f, b, a)
  {
    r := DocumentOrderCmp(a, b, f);
  }

  // ---------- one array ----------

  ghost predicate ArrayIn(f: Forest, root: Node, arr: seq<Node>)
    requires Wf(f)
  {
    Sorted(f, arr) && forall i :: 0 <= i < |arr| ==> Under(f, root, arr[i])
  }

  /** `node` belongs between the elements below `i` and those from `i` on. */
  ghost predicate Gap(f: Forest, arr: seq<Node>, node: Node, i: nat)
    requires Wf(f) && Sorted(f, arr) && node in f.kids && i <= |arr|
  {
    && (forall j :: 0 <= j < i ==> Before(f, arr[j], node))
    && (forall j :: i <= j < |arr| ==> Before(f, node, arr[j]))
  }

  lemma InsertInGap(f: Forest, arr: seq<Node>, node: Node, i: nat)
    requires Wf(f) && Sorted(f, arr) && node in f.kids && i <= |arr| && Gap(f, arr, node, i)
    ensures Sorted(f, arr[..i] + [node] + arr[i..])
  {
    var r := arr[..i] + [node] + arr[i..];
    forall x, y | 0 <= x < y < |r| ensures Before(f, r[x], r[y]) {
      assert r[x] == if x < i then arr[x] else if x == i then node else arr[x - 1];
      assert r[y] == if y < i then arr[y] else if y == i then node else arr[y - 1];
    }
  }

  /** Below position `i` everything precedes `node` as soon as the element at `i` does. */
  lemma BelowPrecedes(f: Forest, arr: seq<Node>, node: Node, i: nat)
    requires Wf(f) && Sorted(f, arr) && node in f.kids && i < |arr| && Before(f, arr[i], node)
    ensures forall j :: 0 <= j <= i ==> Before(f, arr[j], node)
  {
    forall j | 0 <= j <= i ensures Before(f, arr[j], node) {
      if j < i { BeforeTransitive(f, arr[j], arr[i], node); }
    }
  }

  lemma AboveFollows(f: Forest, arr: seq<Node>, node: Node, i: nat)
    requires Wf(f) && Sorted(f, arr) && node in f.kids && i < |arr| && Before(f, node, arr[i])
    ensures forall j :: i <= j < |arr| ==> Before(f, node, arr[j])
  {
    forall j | i <= j < |arr| ensures Before(f, node, arr[j]) {
      if i < j { BeforeTransitive(f, node, arr[i], arr[j]); }
    }
  }

  /** No element of the array precedes or follows `node`: they are all in other trees, or `node` itself. */
  ghost predicate Unordered(f: Forest, arr: seq<Node>, node: Node)
    requires Wf(f) && Sorted(f, arr) && node in f.kids
  {
    forall i :: 0 <= i < |arr| ==> !Before(f, arr[i], node) && !Before(f, node, arr[i])
  }

  /** ns_doc_index_ordered_insert.  A node of another tree is dropped, unless the array is empty. */
  method OrderedInsert(arr: seq<Node>, node: Node, building: bool, ghost root: Node,
                       ghost f: Forest, ghost v: Views)
    returns (r: seq<Node>)
    requires Scene(f, v) && Sorted(f, arr) && node in f.kids
    requires building ==> forall i :: 0 <= i < |arr| ==> Before(f, arr[i], node) || arr[i] == node
    ensures Scene(f, v) && Sorted(f, r)
    ensures ArrayIn(f, root, arr) && Under(f, root, node) ==> forall n :: n in r <==> n in arr || n == node
    ensures !building && Unordered(f, arr, node) ==> r == if arr == [] then [node] else arr
  {
    if building {
      r := AppendOnce(arr, node, f, v);
      return;
    }
    if |arr| > 0 {
      var c := Compare(node, arr[|arr| - 1], f, v);
      if c <= 0 {
        r := SearchInsert(arr, node, root, f, v);
        return;
      }
      BelowPrecedes(f, arr, node, |arr| - 1);
    }
    AppendLast(f, arr, node);
    r := arr + [node];
  }

  lemma AppendLast(f: Forest, arr: seq<Node>, node: Node)
    requires Wf(f) && Sorted(f, arr) && node in f.kids && forall i :: 0 <= i < |arr| ==> Before(f, arr[i], node)
    ensures Sorted(f, arr + [node]) && forall n :: n in arr + [node] <==> n in arr || n == node
  {
    InsertInGap(f, arr, node, |arr|);
    assert arr[..|arr|] + [node] + arr[|arr|..] == arr + [node];
  }

  method AppendOnce(arr: seq<Node>, node: Node, ghost f: Forest, ghost v: Views)
    returns (r: seq<Node>)
    requires Scene(f, v) && Sorted(f, arr) && node in f.kids
    requires forall i :: 0 <= i < |arr| ==> Before(f, arr[i], node) || arr[i] == node
    ensures Scene(f, v) && Sorted(f, r)
    ensures forall n :: n in r <==> n in arr || n == node
  {
    if |arr| == 0 || arr[|arr| - 1] != node {
      forall i | 0 <= i < |arr| ensures Before(f, arr[i], node) {
        if arr[i] == node {
          assert Before(f, node, arr[|arr| - 1]);
          BeforeAsymmetric(f, node, arr[|arr| - 1]);
        }
      }
      AppendLast(f, arr, node);
      r := arr + [node];
    } else {
      r := arr;
    }
  }

  method SearchInsert(arr: seq<Node>, node: Node, ghost root: Node,
                      ghost f: Forest, ghost v: Views) returns (r: seq<Node>)
    requires Scene(f, v) && Sorted(f, arr) && node in f.kids
    ensures Scene(f, v) && Sorted(f, r)
    ensures ArrayIn(f, root, arr) && Under(f, root, node) ==> forall n :: n in r <==> n in arr || n == node
    ensures arr != [] && Unordered(f, arr, node) ==> r == arr
  {
    var lo, hi := 0, |arr|;
    while lo < hi
      invariant Scene(f, v) && 0 <= lo <= hi <= |arr|
      invariant forall j :: 0 <= j < lo ==> Before(f, arr[j], node)
      invariant forall j :: hi <= j < |arr| ==> Before(f, node, arr[j])
      invariant Unordered(f, arr, node) ==> lo == 0 && hi == |arr|
    {
      var mid := (lo + hi) / 2;
      var c := Compare(node, arr[mid], f, v);
      if c == 0 {
        if node != arr[mid] && ArrayIn(f, root, arr) && Under(f, root, node) { SameTreeTotal(f, root, node, arr[mid]); }
        return arr;
      }
      if c < 0 {
        AboveFollows(f, arr, node, mid);
        hi := mid;
      } else {
        BelowPrecedes(f, arr, node, mid);
        lo := mid + 1;
      }
    }
    InsertInGap(f, arr, node, lo);
    r := arr[..lo] + [node] + arr[lo..];
  }

  /** The removal loops of the class and tag indexes: take out the first occurrence. */
  method RemoveFirst(arr: seq<Node>, node: Node, ghost f: Forest) returns (r: seq<Node>)
    requires Wf(f) && Sorted(f, arr)
    ensures Sorted(f, r)
    ensures forall n :: n in r <==> n in arr && n != node
  {
    var k := 0;
    while k < |arr|
      invariant 0 <= k <= |arr| && forall j :: 0 <= j < k ==> arr[j] != node
    {
      if arr[k] == node {
        r := arr[..k] + arr[k + 1..];
        RemovedAt(f, arr, k, r);
        return;
      }
      k := k + 1;
    }
    return arr;
  }

  lemma RemovedAt(f: Forest, arr: seq<Node>, k: nat, r: seq<Node>)
    requires Wf(f) && Sorted(f, arr) && k < |arr| && r == arr[..k] + arr[k + 1..]
    ensures Sorted(f, r)
    ensures forall n :: n in r <==> n in arr && n != arr[k]
  {
    forall i | 0 <= i < |arr| && i != k ensures arr[i] != arr[k] {
      if i < k { BeforeAsymmetric(f, arr[i], arr[k]); } else { BeforeAsymmetric(f, arr[k], arr[i]); }
    }
    forall n | n in arr && n != arr[k] ensures n in r {
      var i :| 0 <= i < |arr| && arr[i] == n;
      assert r[if i < k then i else i - 1] == n;
    }
  }

  // ---------- one key ----------

  lemma HoldsAfterAdd(f: Forest, arrays: map<string, seq<Node>>, want: Entries, k: string, node: Node, r: seq<Node>)
    requires Wf(f) && Holds(f, arrays, want) && Sorted(f, r)
    requires forall n :: n in r <==> (k in arrays && n in arrays[k]) || n == node
    ensures Holds(f, arrays[k := r], want + {(k, node)})
  {
    var after := arrays[k := r];
    forall x | x in after ensures HoldsAt(f, after[x], x, want + {(k, node)}) {
      if x in arrays { assert HoldsAt(f, arrays[x], x, want); }
    }
  }

  lemma HoldsAfterRemove(f: Forest, arrays: map<string, seq<Node>>, want: Entries, k: string, node: Node, r: seq<Node>)
    requires Wf(f) && Holds(f, arrays, want) && k in arrays && Sorted(f, r)
    requires forall n :: n in r <==> n in arrays[k] && n != node
    ensures Holds(f, arrays[k := r], want - {(k, node)})
  {
    var after := arrays[k := r];
    forall x | x in after ensures HoldsAt(f, after[x], x, want - {(k, node)}) {
      assert HoldsAt(f, arrays[x], x, want);
    }
  }

  /** Every entry present so far precedes `node`: the situation while an index is being built. */
  ghost predicate AllBefore(f: Forest, want: Entries, node: Node)
    requires Wf(f) && node in f.kids
  {
    forall e :: e in want ==> e.1 in f.kids && (Before(f, e.1, node) || e.1 == node)
  }

  /** `node` may be entered next: everything present lies in the same tree and, while the index is being
      built, precedes it. */
  ghost predicate CanAdd(f: Forest, root: Node, want: Entries, node: Node, building: bool)
    requires Wf(f) && node in f.kids
  {
    InTree(f, root, want) && (building ==> AllBefore(f, want, node))
  }

  /** No array orders `node`, which is in another tree. */
  ghost predicate Foreign(f: Forest, arrays: map<string, seq<Node>>, node: Node)
    requires Wf(f) && node in f.kids
  {
    forall k :: k in arrays ==> Sorted(f, arrays[k]) && Unordered(f, arrays[k], node)
  }

  /** A node of another tree is filed under the keys that no other node carries, alone. */
  ghost function Strayed(arrays: map<string, seq<Node>>, ks: set<string>, node: Node): map<string, seq<Node>> {
    map k | k in arrays.Keys + ks :: if k in ks && (k !in arrays || arrays[k] == []) then [node] else arrays[k]
  }

  lemma StrayedMore(arrays: map<string, seq<Node>>, ks: set<string>, k: string, node: Node)
    ensures Strayed(Strayed(arrays, ks, node), {k}, node) == Strayed(arrays, ks + {k}, node)
    ensures Strayed(arrays, {}, node) == arrays
  {
  }

  lemma StrayedForeign(f: Forest, arrays: map<string, seq<Node>>, ks: set<string>, node: Node)
    requires Wf(f) && node in f.kids && Foreign(f, arrays, node)
    ensures Foreign(f, Strayed(arrays, ks, node), node)
  {
    NotBeforeItself(f, node);
  }

  /** `node` may be entered: it belongs with what is present, or to another tree. */
  ghost predicate CanEnter(f: Forest, root: Node, arrays: map<string, seq<Node>>, want: Entries, node: Node, building: bool)
    requires Wf(f) && node in f.kids
  {
    (Under(f, root, node) && CanAdd(f, root, want, node, building)) || (!building && Foreign(f, arrays, node))
  }

  /** g_hash_table_insert: changing a table leaves the tree alone */
  method Store(table: KeyTable, key: string, r: seq<Node>, ghost f: Forest, ghost v: Views)
    requires Scene(f, v)
    modifies table
    ensures Scene(f, v) && table.arrays == old(table.arrays)[key := r]
  {
    table.arrays := table.arrays[key := r];
  }

  /** ns_doc_class_index_add_token, and ns_doc_tag_index_add_single once the tag is in lower case */
  method AddKey(table: KeyTable, key: string, node: Node, building: bool,
                ghost root: Node, ghost f: Forest, ghost v: Views,
                ghost want: Entries)
    requires Scene(f, v) && node in f.kids
    requires Under(f, root, node) && CanAdd(f, root, want, node, building) ==> Holds(f, table.arrays, want)
    requires CanEnter(f, root, table.arrays, want, node, building)
    modifies table
    ensures Scene(f, v)
    ensures Under(f, root, node) && CanAdd(f, root, want, node, building) ==> Holds(f, table.arrays, want + {(key, node)})
    ensures !building && old(Foreign(f, table.arrays, node)) ==> table.arrays == Strayed(old(table.arrays), {key}, node)
  {
    var r := ArrayWith(table, key, node, building, root, f, v, want);
    if Under(f, root, node) && CanAdd(f, root, want, node, building) { HoldsAfterAdd(f, table.arrays, want, key, node, r); }
    StrayedOne(table.arrays, key, node, r);
    Store(table, key, r, f, v);
  }

  lemma StrayedOne(arrays: map<string, seq<Node>>, key: string, node: Node, r: seq<Node>)
    ensures r == (if key !in arrays || arrays[key] == [] then [node] else arrays[key]) ==>
            arrays[key := r] == Strayed(arrays, {key}, node)
  {
  }

  /** The array of a key, with one more node. */
  method ArrayWith(table: KeyTable, key: string, node: Node, building: bool,
                   ghost root: Node, ghost f: Forest, ghost v: Views, ghost want: Entries) returns (r: seq<Node>)
    requires Scene(f, v) && node in f.kids
    requires Under(f, root, node) && CanAdd(f, root, want, node, building) ==> Holds(f, table.arrays, want)
    requires CanEnter(f, root, table.arrays, want, node, building)
    ensures Scene(f, v) && Sorted(f, r)
    ensures Under(f, root, node) && CanAdd(f, root, want, node, building) ==>
              forall n :: n in r <==> (key in table.arrays && n in table.arrays[key]) || n == node
    ensures !building && Foreign(f, table.arrays, node) ==>
              r == if key !in table.arrays || table.arrays[key] == [] then [node] else table.arrays[key]
  {
    if key !in table.arrays { return [node]; }
    if Under(f, root, node) && CanAdd(f, root, want, node, building) {
      assert HoldsAt(f, table.arrays[key], key, want);
      ArrayEntries(f, root, table.arrays[key], key, want);
      if building { ArrayBefore(f, table.arrays[key], key, want, node); }
    }
    r := OrderedInsert(table.arrays[key], node, building, root, f, v);
  }

  lemma ArrayEntries(f: Forest, root: Node, arr: seq<Node>, k: string, want: Entries)
    requires Wf(f) && HoldsAt(f, arr, k, want) && InTree(f, root, want)
    ensures ArrayIn(f, root, arr)
  {
    forall i | 0 <= i < |arr| ensures Under(f, root, arr[i]) {
      assert (k, arr[i]) in want;
    }
  }

  lemma ArrayBefore(f: Forest, arr: seq<Node>, k: string, want: Entries, node: Node)
    requires Wf(f) && HoldsAt(f, arr, k, want) && node in f.kids && AllBefore(f, want, node)
    ensures forall i :: 0 <= i < |arr| ==> Before(f, arr[i], node) || arr[i] == node
  {
    forall i | 0 <= i < |arr| ensures Before(f, arr[i], node) || arr[i] == node {
      assert (k, arr[i]) in want;
    }
  }

  /** ns_doc_class_index_remove_token, and ns_doc_tag_index_remove_single once the tag is in lower case */
  method RemoveKey(table: KeyTable, key: string, node: Node, ghost f: Forest, ghost v: Views,
                   ghost g: Forest, ghost want: Entries)
    requires Scene(f, v) && Wf(g) && Holds(g, table.arrays, want)
    modifies table
    ensures Scene(f, v) && Holds(g, table.arrays, want - {(key, node)})
  {
    if key !in table.arrays {
      assert want - {(key, node)} == want;
      return;
    }
    assert HoldsAt(g, table.arrays[key], key, want);
    var r := RemoveFirst(table.arrays[key], node, g);
    HoldsAfterRemove(g, table.arrays, want, key, node, r);
    Store(table, key, r, f, v);
  }

  ghost function Pairs(ks: set<string>, n: Node): Entries {
    set k | k in ks :: (k, n)
  }

  lemma NextPairs(s: string, p: nat, i: nat, j: nat, n: Node, want: Entries)
    requires p <= i < j <= |s| && IsToken(s, i, j)
    requires p == 0 || IsSpace(s[p])
    requires forall k :: p <= k < i ==> IsSpace(s[k])
    ensures want + Pairs(TokensUpTo(s, j), n) == want + Pairs(TokensUpTo(s, p), n) + {(s[i..j], n)}
    ensures want - Pairs(TokensUpTo(s, j), n) == want - Pairs(TokensUpTo(s, p), n) - {(s[i..j], n)}
  {
    NextToken(s, p, i, j);
    assert Pairs(TokensUpTo(s, j), n) == Pairs(TokensUpTo(s, p), n) + {(s[i..j], n)};
  }

  lemma CanAddMore(f: Forest, root: Node, want: Entries, node: Node, building: bool, k: string)
    requires Wf(f) && node in f.kids && Under(f, root, node) && CanAdd(f, root, want, node, building)
    ensures CanAdd(f, root, want + {(k, node)}, node, building)
  {
  }

  /** After the tokens of `ks`: they have been entered, or only those that no array stood in the way of. */
  ghost predicate Registered(f: Forest, root: Node, was: map<string, seq<Node>>, now: map<string, seq<Node>>,
                             want: Entries, ks: set<string>, node: Node, building: bool)
    requires Wf(f) && node in f.kids
  {
    && (Under(f, root, node) && CanAdd(f, root, want, node, building) ==>
          Holds(f, now, want + Pairs(ks, node)) && CanAdd(f, root, want + Pairs(ks, node), node, building))
    && (!building && Foreign(f, was, node) ==> now == Strayed(was, ks, node))
  }

  /** ns_doc_class_index_register, once the index is known to exist */
  method Register(table: KeyTable, cls: string, node: Node, building: bool,
                  ghost root: Node, ghost f: Forest, ghost v: Views,
                ghost want: Entries)
    requires Scene(f, v) && node in f.kids
    requires Under(f, root, node) && CanAdd(f, root, want, node, building) ==> Holds(f, table.arrays, want)
    requires CanEnter(f, root, table.arrays, want, node, building)
    modifies table
    ensures Scene(f, v)
    ensures Registered(f, root, old(table.arrays), table.arrays, want, Tokens(cls), node, building)
  {
    var p := 0;
    ghost var was := table.arrays;
    assert want + Pairs(TokensUpTo(cls, 0), node) == want && TokensUpTo(cls, 0) == {};
    StrayedMore(was, {}, "", node);
    while p < |cls|
      invariant 0 <= p <= |cls| && (p == 0 || p == |cls| || IsSpace(cls[p]))
      invariant Scene(f, v) && Registered(f, root, was, table.arrays, want, TokensUpTo(cls, p), node, building)
    {
      p := RegisterNext(table, cls, p, node, building, root, f, v, want, was);
    }
  }

  /** One round of the token loop. */
  method RegisterNext(table: KeyTable, cls: string, p: nat, node: Node, building: bool,
                      ghost root: Node, ghost f: Forest, ghost v: Views,
                ghost want: Entries, ghost was: map<string, seq<Node>>) returns (next: nat)
    requires Scene(f, v) && node in f.kids
    requires p < |cls| && (p == 0 || IsSpace(cls[p])) && CanEnter(f, root, was, want, node, building)
    requires Registered(f, root, was, table.arrays, want, TokensUpTo(cls, p), node, building)
    modifies table
    ensures Scene(f, v) && p < next <= |cls| && (next == |cls| || IsSpace(cls[next]))
    ensures Registered(f, root, was, table.arrays, want, TokensUpTo(cls, next), node, building)
  {
    var tok, end := TakeToken(cls, p);
    if tok == end {
      NoMoreTokens(cls, p);
      return |cls|;
    }
    ghost var done := want + Pairs(TokensUpTo(cls, p), node);
    ghost var mid := table.arrays;
    StrayedMore(was, TokensUpTo(cls, p), cls[tok..end], node);
    if Foreign(f, was, node) { StrayedForeign(f, was, TokensUpTo(cls, p), node); }
    AddKey(table, cls[tok..end], node, building, root, f, v, done);
    if Under(f, root, node) && CanAdd(f, root, want, node, building) {
      CanAddMore(f, root, done, node, building, cls[tok..end]);
    }
    NextPairs(cls, p, tok, end, node, want);
    NextToken(cls, p, tok, end);
    next := end;
  }

  /** The two inner loops of every token scan: skip white space, then run to the end of the token. */
  method TakeToken(s: string, p: nat) returns (i: nat, j: nat)
    requires p < |s| && (p == 0 || IsSpace(s[p]))
    ensures p <= i <= j <= |s|
    ensures forall k :: p <= k < i ==> IsSpace(s[k])
    ensures i == j ==> i == |s|
    ensures i < j ==> IsToken(s, i, j)
  {
    i := p;
    while i < |s| && IsSpace(s[i])
      invariant p <= i <= |s| && forall k :: p <= k < i ==> IsSpace(s[k])
    {
      i := i + 1;
    }
    j := i;
    while j < |s| && !IsSpace(s[j])
      invariant i <= j <= |s| && forall k :: i <= k < j ==> !IsSpace(s[k])
    {
      j := j + 1;
    }
  }

  /** ns_doc_class_index_unregister, once the index is known to exist */
  method Unregister(table: KeyTable, cls: string, node: Node, ghost f: Forest, ghost v: Views,
                    ghost g: Forest, ghost want: Entries)
    requires Scene(f, v) && Wf(g) && Holds(g, table.arrays, want)
    modifies table
    ensures Scene(f, v) && Holds(g, table.arrays, want - Pairs(Tokens(cls), node))
  {
    var p := 0;
    assert want - Pairs(TokensUpTo(cls, 0), node) == want;
    while p < |cls|
      invariant 0 <= p <= |cls| && (p == 0 || p == |cls| || IsSpace(cls[p]))
      invariant Scene(f, v) && Holds(g, table.arrays, want - Pairs(TokensUpTo(cls, p), node))
    {
      var tok, end := TakeToken(cls, p);
      if tok == end {
        NoMoreTokens(cls, p);
        return;
      }
      RemoveKey(table, cls[tok..end], node, f, v, g, want - Pairs(TokensUpTo(cls, p), node));
      NextPairs(cls, p, tok, end, node, want);
      p := end;
    }
  }

  // ---------- tags ----------

  /** The key under which the tag index files a tag: the source copies a tag only if it has to. */
  method TagKey(tag: string) returns (key: string)
    ensures key == Lower(tag)
  {
    if IsAsciiLower(tag) {
      assert tag == Lower(tag);
      key := tag;
    } else {
      key := Lower(tag);
    }
  }
}
