/**
 The bytecode cache of src/bytecode_cache.c: entries in memory, a byte count, eviction by last use, and a
 lock that is not held while the disk is read or written.

 The methods of Cache are the sections of the source that run under the lock; a thread that looks a source up
 runs one, reads the disk without the lock, and runs another, and anything may happen in between.
 */
module BytecodeCache {
  import opened Common
  import opened Totals

  const CAP := 0x100_0000
  const VALUE_CAP := 0x40_0000
  const NEVER := 0x7fff_ffff_ffff_ffff

  datatype Entry = Entry(data: string, used: int)

  type Entries = map<string, Entry>

  ghost function Sizes(m: Entries): map<string, nat> {
    map k | k in m :: |m[k].data|
  }

  /** g_mem_bytes, as it ought to be */
  ghost function Bytes(m: Entries): nat {
    Total(Sizes(m))
  }

  lemma BytesWithout(m: Entries, k: string)
    requires k in m
    ensures Bytes(m) == |m[k].data| + Bytes(m - {k})
  {
    TotalWithout(Sizes(m), k);
    assert Sizes(m) - {k} == Sizes(m - {k});
  }

  lemma BytesWith(m: Entries, k: string, e: Entry)
    ensures Bytes(m[k := e]) == |e.data| + Bytes(m - {k})
  {
    BytesWithout(m[k := e], k);
    assert m[k := e] - {k} == m - {k};
  }

  lemma BytesRefreshed(m: Entries, k: string, now: int)
    requires k in m
    ensures Bytes(m[k := m[k].(used := now)]) == Bytes(m)
  {
    BytesWith(m, k, m[k].(used := now));
    BytesWithout(m, k);
  }

  /** Some entries have been evicted until `want` more bytes fit: none was used later than one that stays, and
      the last of them had to go. */
  ghost predicate Evicts(m: Entries, r: Entries, want: nat) {
    && (forall k :: k in r ==> k in m && r[k] == m[k])
    && (forall k, j :: k in m && k !in r && j in r ==> m[k].used <= m[j].used)
    && (r != map[] ==> Bytes(r) + want <= CAP)
    && (r != m ==> exists k :: k in m && k !in r && Bytes(r) + |m[k].data| + want > CAP)
  }

  /** An entry is added; what it takes to make room for it is evicted. */
  ghost predicate Adds(m: Entries, n: Entries, key: string, e: Entry) {
    key !in m && key in n && n[key] == e && Evicts(m, n - {key}, |e.data|)
  }

  /** The sizes and times that entries can have. */
  ghost predicate Fine(e: Entry) {
    0 < |e.data| <= VALUE_CAP && e.used < NEVER
  }

  ghost predicate Sound(mem: Option<Entries>) {
    mem.Some? ==> Bytes(mem.value) <= CAP && forall k :: k in mem.value ==> Fine(mem.value[k])
  }

  /** What the first locked section of ns_bytecode_cache_get does: a hit is the only thing that it changes. */
  ghost predicate LooksUp(a: Option<Entries>, b: Option<Entries>, key: string, now: int, hit: Option<string>) {
    && (hit.Some? <==> a.Some? && key in a.value)
    && (hit.Some? ==> hit.value == a.value[key].data && b == Some(a.value[key := Entry(hit.value, now)]))
    && (hit.None? ==> b == a)
  }

  /** What the second does with what the disk held: another thread may have filed the key in the meantime. */
  ghost predicate Fills(a: Option<Entries>, b: Option<Entries>, key: string, disk: string, now: int) {
    if a.None? || |disk| > VALUE_CAP || key in a.value then b == a
    else b.Some? && Adds(a.value, b.value, key, Entry(disk, now))
  }

  /** What ns_bytecode_cache_put does, and whether it goes on to write the disk. */
  ghost predicate Puts(a: Option<Entries>, b: Option<Entries>, key: string, code: string, now: int, write: bool) {
    if a.None? || code == "" || |code| > VALUE_CAP then b == a && !write
    else if key in a.value then b == Some(a.value[key := a.value[key].(used := now)]) && !write
    else b.Some? && Adds(a.value, b.value, key, Entry(code, now)) && write
  }

  class Cache {
    var mem: Option<Entries>
    var bytes: int

    constructor ()
      ensures mem == None && bytes == 0
    {
      mem, bytes := None, 0;
    }

    /** One entry a key, and the byte count is the sum of their sizes and within the cap. */
    ghost predicate Valid()
      reads this
    {
      Sound(mem) && bytes == if mem.None? then 0 else Bytes(mem.value)
    }

    /** ns_bytecode_cache_init, as far as memory goes */
    method Init()
      requires Valid()
      modifies this
      ensures Valid() && mem == Some(if old(mem).Some? then old(mem).value else map[])
    {
      if mem.None? { mem := Some(map[]); }
    }

    /** ns_bytecode_cache_shutdown */
    method Shutdown()
      modifies this
      ensures Valid() && mem == None
    {
      mem, bytes := None, 0;
    }

    /** The scan of evict_until_fits, in whatever order the table is iterated */
    method FindOldest() returns (oldest: Option<string>)
      requires Valid() && mem.Some?
      ensures oldest.None? ==> mem.value == map[]
      ensures oldest.Some? ==> oldest.value in mem.value &&
                               forall k :: k in mem.value ==> mem.value[oldest.value].used <= mem.value[k].used
    {
      var m := mem.value;
      var rest, best := m.Keys, NEVER;
      oldest := None;
      while rest != {}
        invariant rest <= m.Keys && best <= NEVER
        invariant oldest.Some? ==> oldest.value in m && m[oldest.value].used == best
        invariant oldest.None? ==> best == NEVER
        invariant forall k :: k in m && k !in rest ==> oldest.Some? && best <= m[k].used
        decreases |rest|
      {
        var k :| k in rest;
        if m[k].used < best { best, oldest := m[k].used, Some(k); }
        rest := rest - {k};
      }
    }

    /** evict_until_fits */
    method EvictUntilFits(want: nat)
      requires Valid() && mem.Some? && want <= VALUE_CAP
      modifies this
      ensures Valid() && mem.Some? && bytes + want <= CAP && Evicts(old(mem).value, mem.value, want)
    {
      ghost var m := mem.value;
      while bytes + want > CAP
        invariant Valid() && mem.Some?
        invariant forall k :: k in mem.value ==> k in m && mem.value[k] == m[k]
        invariant forall k, j :: k in m && k !in mem.value && j in mem.value ==> m[k].used <= m[j].used
        invariant mem.value != m ==> exists k :: k in m && k !in mem.value && bytes + |m[k].data| + want > CAP
        decreases |mem.value|
      {
        var oldest := FindOldest();
        assert Bytes(map[]) == 0;
        if oldest.None? { break; }
        var key := oldest.value;
        BytesWithout(mem.value, key);
        assert key in m && key !in mem.value - {key};
        bytes := bytes - |mem.value[key].data|;
        mem := Some(mem.value - {key});
      }
    }

    /** The first locked section of ns_bytecode_cache_get */
    method LookUp(key: string, now: int) returns (hit: Option<string>)
      requires Valid() && now < NEVER
      modifies this
      ensures Valid()
      ensures LooksUp(old(mem), mem, key, now, hit)
    {
      if mem.None? || key !in mem.value { return None; }
      BytesRefreshed(mem.value, key, now);
      var e := mem.value[key];
      mem := Some(mem.value[key := e.(used := now)]);
      return Some(e.data);
    }

    /** The second locked section of ns_bytecode_cache_get */
    method Fill(key: string, disk: string, now: int)
      requires Valid() && now < NEVER && disk != ""
      modifies this
      ensures Valid()
      ensures Fills(old(mem), mem, key, disk, now)
    {
      if mem.Some? && |disk| <= VALUE_CAP {
        if key !in mem.value { Insert(key, disk, now); }
      }
    }

    /** The locked section of ns_bytecode_cache_put */
    method Put(key: string, code: string, now: int) returns (write: bool)
      requires Valid() && now < NEVER
      modifies this
      ensures Valid()
      ensures Puts(old(mem), mem, key, code, now, write)
    {
      if code == "" || |code| > VALUE_CAP { return false; }
      if mem.None? { return false; }
      if key in mem.value {
        BytesRefreshed(mem.value, key, now);
        mem := Some(mem.value[key := mem.value[key].(used := now)]);
        return false;
      }
      Insert(key, code, now);
      return true;
    }

    method Insert(key: string, data: string, now: int)
      requires Valid() && mem.Some? && key !in mem.value && now < NEVER && 0 < |data| <= VALUE_CAP
      modifies this
      ensures Valid() && mem.Some? && Adds(old(mem).value, mem.value, key, Entry(data, now))
    {
      EvictUntilFits(|data|);
      ghost var r := mem.value;
      BytesWith(r, key, Entry(data, now));
      assert r - {key} == r;
      mem := Some(mem.value[key := Entry(data, now)]);
      bytes := bytes + |data|;
      assert mem.value - {key} == r;
    }
  }
}
