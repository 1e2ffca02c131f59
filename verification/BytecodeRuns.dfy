/**
 Many threads at the bytecode cache at once.

 A look-up that misses reads the disk without the lock, and a put that adds an entry writes it without the lock,
 so between the sections of one call any sections of the others may run, and the cache may be shut down and set
 up again. The disk holds one file a key; a read finds the file or fails, a write replaces it or fails.
 */
module BytecodeRuns {
  import opened Common
  import opened BytecodeCache

  /** Where a thread is in a call */
  datatype Thread =
    | Outside
    | Reading(source: string)
    | Filling(source: string, data: string)
    | Writing(source: string, code: string)

  type Pair = (string, string)

  /** `stored` and `answered` are history: the pairs of source and code that a put has added, in this process or one
      before it, and those that look-ups have answered. */
  datatype World = World(
    mem: Option<Entries>,
    disk: map<string, string>,
    threads: map<nat, Thread>,
    stored: set<Pair>,
    answered: set<Pair>)

  datatype Step =
    | SetUp | ShutDown
    | LookUp(t: nat, source: string, now: int, hit: Option<string>)
    | ReadDisk(t: nat, found: bool)
    | Fill(t: nat, now: int)
    | Put(t: nat, source: string, code: string, now: int, writes: bool)
    | WriteDisk(t: nat, works: bool)

  predicate IsAt(w: World, t: nat, at: Thread) {
    t in w.threads && w.threads[t] == at
  }

  /** What read_disk accepts of a file */
  predicate Readable(data: string) {
    0 < |data| <= VALUE_CAP
  }

  /** A step of some thread, or the start or end of the cache. Sources are looked up by their hash. */
  ghost predicate Takes(hash: string -> string, w: World, s: Step, n: World) {
    match s
    case SetUp => n == w.(mem := Some(if w.mem.Some? then w.mem.value else map[]))
    case ShutDown => n == w.(mem := None)
    case LookUp(t, src, now, hit) =>
      && IsAt(w, t, Outside) && now < NEVER
      && LooksUp(w.mem, n.mem, hash(src), now, hit)
      && n == w.(mem := n.mem,
                 threads := w.threads[t := if hit.None? && w.mem.Some? then Reading(src) else Outside],
                 answered := w.answered + if hit.Some? then {(src, hit.value)} else {})
    case ReadDisk(t, found) =>
      && t in w.threads && w.threads[t].Reading?
      && var src := w.threads[t].source;
      && (found ==> hash(src) in w.disk && Readable(w.disk[hash(src)]))
      && n == w.(threads := w.threads[t := if found then Filling(src, w.disk[hash(src)]) else Outside])
    case Fill(t, now) =>
      && t in w.threads && w.threads[t].Filling? && now < NEVER
      && var (src, data) := (w.threads[t].source, w.threads[t].data);
      && Fills(w.mem, n.mem, hash(src), data, now)
      && n == w.(mem := n.mem, threads := w.threads[t := Outside], answered := w.answered + {(src, data)})
    case Put(t, src, code, now, writes) =>
      && IsAt(w, t, Outside) && now < NEVER
      && Puts(w.mem, n.mem, hash(src), code, now, writes)
      && n == w.(mem := n.mem, threads := w.threads[t := if writes then Writing(src, code) else Outside],
                 stored := w.stored + if writes then {(src, code)} else {})
    case WriteDisk(t, works) =>
      && t in w.threads && w.threads[t].Writing?
      && n == w.(threads := w.threads[t := Outside],
                 disk := if works then w.disk[hash(w.threads[t].source) := w.threads[t].code] else w.disk)
  }

  ghost predicate WasStored(hash: string -> string, stored: set<Pair>, key: string, data: string) {
    exists p :: p in stored && hash(p.0) == key && p.1 == data
  }

  ghost predicate ThreadSound(stored: set<Pair>, hash: string -> string, th: Thread) {
    match th
    case Outside => true
    case Reading(_) => true
    case Filling(src, data) => Readable(data) && WasStored(hash, stored, hash(src), data)
    case Writing(src, code) => WasStored(hash, stored, hash(src), code)
  }

  /** Memory is within its cap, and whatever is in memory, on the disk, in a thread's hands or answered was stored
      for a source of that hash. */
  ghost predicate Holds(hash: string -> string, w: World) {
    && Sound(w.mem)
    && (w.mem.Some? ==> forall k :: k in w.mem.value ==> WasStored(hash, w.stored, k, w.mem.value[k].data))
    && (forall k :: k in w.disk ==> WasStored(hash, w.stored, k, w.disk[k]))
    && (forall t :: t in w.threads ==> ThreadSound(w.stored, hash, w.threads[t]))
    && (forall p :: p in w.answered ==> WasStored(hash, w.stored, hash(p.0), p.1))
  }

  ghost predicate Run(hash: string -> string, ws: seq<World>, steps: seq<Step>) {
    |ws| == |steps| + 1 && forall i :: 0 <= i < |steps| ==> Takes(hash, ws[i], steps[i], ws[i + 1])
  }

  /** The cache as it is when the process starts: nothing in memory, and on the disk what earlier processes stored. */
  ghost predicate Start(hash: string -> string, w: World) {
    && w.mem.None? && w.answered == {} && (forall t :: t in w.threads ==> w.threads[t].Outside?)
    && (forall k :: k in w.disk ==> WasStored(hash, w.stored, k, w.disk[k]))
  }

  /** More may be stored later. */
  lemma StillStored(hash: string -> string, stored: set<Pair>, p: Pair)
    ensures forall k, d :: WasStored(hash, stored, k, d) ==> WasStored(hash, stored + {p}, k, d)
    ensures WasStored(hash, stored + {p}, hash(p.0), p.1)
  {
    forall k, d | WasStored(hash, stored, k, d) ensures WasStored(hash, stored + {p}, k, d) {
      var q :| q in stored && hash(q.0) == k && q.1 == d;
      assert q in stored + {p};
    }
    assert p in stored + {p};
  }

  /** Making room and adding keeps the memory sound. */
  lemma AddingIsSound(m: Entries, n: Entries, key: string, e: Entry)
    requires Sound(Some(m)) && Fine(e) && Adds(m, n, key, e)
    ensures Sound(Some(n))
    ensures forall k :: k in n ==> k == key || (k in m && n[k] == m[k])
  {
    BytesWithout(n, key);
    forall k | k in n && k != key ensures k in m && n[k] == m[k] {
      assert k in n - {key};
    }
    assert Bytes(map[]) == 0;
  }

  lemma LookUpKeeps(hash: string -> string, w: World, s: Step, n: World)
    requires Holds(hash, w) && Takes(hash, w, s, n) && s.LookUp?
    ensures Holds(hash, n)
  {
    if s.hit.Some? { BytesRefreshed(w.mem.value, hash(s.source), s.now); }
  }

  lemma FillKeeps(hash: string -> string, w: World, s: Step, n: World)
    requires Holds(hash, w) && Takes(hash, w, s, n) && s.Fill?
    ensures Holds(hash, n)
  {
    var th := w.threads[s.t];
    if n.mem != w.mem {
      AddingIsSound(w.mem.value, n.mem.value, hash(th.source), Entry(th.data, s.now));
    }
  }

  lemma PutKeeps(hash: string -> string, w: World, s: Step, n: World)
    requires Holds(hash, w) && Takes(hash, w, s, n) && s.Put?
    ensures Holds(hash, n)
  {
    var key := hash(s.source);
    if s.writes {
      StillStored(hash, w.stored, (s.source, s.code));
      AddingIsSound(w.mem.value, n.mem.value, key, Entry(s.code, s.now));
    } else if n.mem != w.mem {
      BytesRefreshed(w.mem.value, key, s.now);
    }
  }

  lemma StepKeeps(hash: string -> string, w: World, s: Step, n: World)
    requires Holds(hash, w) && Takes(hash, w, s, n)
    ensures Holds(hash, n)
  {
    match s
    case LookUp(_, _, _, _) => LookUpKeeps(hash, w, s, n);
    case Fill(_, _) => FillKeeps(hash, w, s, n);
    case Put(_, _, _, _, _) => PutKeeps(hash, w, s, n);
    case _ => assert Bytes(map[]) == 0;
  }

  lemma {:induction false} RunKeeps(hash: string -> string, ws: seq<World>, steps: seq<Step>, i: nat)
    requires Run(hash, ws, steps) && Start(hash, ws[0]) && i < |ws|
    ensures Holds(hash, ws[i])
  {
    if i > 0 {
      RunKeeps(hash, ws, steps, i - 1);
      StepKeeps(hash, ws[i - 1], steps[i - 1], ws[i]);
    }
  }

  /** In every run, a look-up answers with code that was stored for that very source, if no two sources have one
      hash; and memory stays within its cap. */
  lemma AnswersWereStored(hash: string -> string, ws: seq<World>, steps: seq<Step>, i: nat)
    requires Run(hash, ws, steps) && Start(hash, ws[0]) && i < |ws|
    requires forall a, b :: hash(a) == hash(b) ==> a == b
    ensures ws[i].answered <= ws[i].stored
    ensures ws[i].mem.Some? ==> Bytes(ws[i].mem.value) <= CAP
  {
    RunKeeps(hash, ws, steps, i);
    forall p | p in ws[i].answered ensures p in ws[i].stored {
      assert WasStored(hash, ws[i].stored, hash(p.0), p.1);
      var q :| q in ws[i].stored && hash(q.0) == hash(p.0) && q.1 == p.1;
      assert q == p;
    }
  }

  ghost predicate UsedBefore(m: Entries, k: string, r: Entries)
    requires k in m
  {
    forall j :: j in r ==> j in m && m[k].used <= m[j].used
  }

  /** While an entry stays in memory its code does not change, and unless the cache is shut down an entry leaves
      only for one that is added, when nothing that stays was used before it. */
  lemma EntriesStay(hash: string -> string, w: World, s: Step, n: World, k: string)
    requires Takes(hash, w, s, n) && w.mem.Some? && k in w.mem.value && n.mem.Some?
    ensures k in n.mem.value ==> n.mem.value[k].data == w.mem.value[k].data
    ensures k !in n.mem.value ==>
              exists key :: key in n.mem.value && key !in w.mem.value && UsedBefore(w.mem.value, k, n.mem.value - {key})
  {
    var m, r := w.mem.value, n.mem.value;
    if s.Fill? || s.Put? {
      var key := if s.Put? then hash(s.source) else hash(w.threads[s.t].source);
      if key in r && key !in m {
        if k in r { assert k in r - {key}; } else { assert UsedBefore(m, k, r - {key}); }
      }
    }
  }
}
