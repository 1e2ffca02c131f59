/**
 The life of an ns_es object of src/eventsource.c: a worker thread that posts dispatches, a main loop that
 runs them, and an owner on the main thread that closes and frees the object, also from inside a callback.

 Every access to a shared word is a step of its own, and steps of the two threads interleave freely.  The
 main thread has a stack of activities, because a callback may free the object or run a nested main loop.
 */
module EventProtocol {

  const MAX_PENDING := 256

  /** Where the worker is: in its loop, or at a point of ns_es_post, or at its end. */
  datatype WorkerAt =
    | Looping
    | SawAttached  // post has read `detached` as unset
    | SawRoom      // and `pending` as below the limit
    | Counted      // and has incremented `pending`
    | Referenced   // and has taken a reference for the dispatch
    | Leaving      // out of the loop, before its last unref
    | Done

  /** Where ns_es_dispatch_run is. */
  datatype DispatchAt =
    | ReadForBusy | MayAskBusy | InBusy | ReadForInvoke | MayInvoke | InInvoke | Uncount | Release

  /** Where ns_es_free is. */
  datatype FreeAt = SetDetached | SetExit | Join | Drop

  datatype Frame = Dispatching(at: DispatchAt) | Freeing(step: FreeAt)

  datatype Stack = Empty | Push(top: Frame, rest: Stack)

  datatype State = State(
    worker: WorkerAt,
    main: Stack,
    queue: nat,         // dispatches waiting in the main loop
    owner: bool,        // the owner still holds its reference
    freeCalled: bool,
    refcount: int,
    pending: int,
    detached: bool,
    exit: bool,
    destroyed: bool)

  /** ns_es_new, at the point where the thread starts */
  function Init(): State {
    State(Looping, Empty, 0, true, false, 2, 0, false, false, false)
  }

  datatype Step =
    | ReadDetached | ReadPending | IncPending | TakeRef | Enqueue | LeaveLoop | WorkerUnref
    | Begin | BusyRead(hasBusy: bool) | BeginBusy | EndBusy(busy: bool)
    | InvokeRead(hasInvoke: bool) | BeginInvoke | EndInvoke | DecPending | DispatchUnref
    | Close | CallFree | FreeSetDetached | FreeSetExit | FreeJoin | FreeUnref

  /** The main thread is in its main loop, or in one that a callback runs, or in a callback. */
  predicate MainIsFree(s: State) {
    s.main.Empty? || s.main.top == Dispatching(InBusy) || s.main.top == Dispatching(InInvoke)
  }

  predicate DispatchIsAt(s: State, at: DispatchAt) {
    s.main.Push? && s.main.top == Dispatching(at)
  }

  predicate FreeIsAt(s: State, at: FreeAt) {
    s.main.Push? && s.main.top == Freeing(at)
  }

  predicate Enabled(s: State, step: Step) {
    match step
    case ReadDetached => s.worker == Looping
    case ReadPending => s.worker == SawAttached
    case IncPending => s.worker == SawRoom
    case TakeRef => s.worker == Counted
    case Enqueue => s.worker == Referenced
    case LeaveLoop => s.worker == Looping
    case WorkerUnref => s.worker == Leaving
    case Begin => MainIsFree(s) && s.queue > 0
    case BusyRead(_) => DispatchIsAt(s, ReadForBusy)
    case BeginBusy => DispatchIsAt(s, MayAskBusy)
    case EndBusy(_) => DispatchIsAt(s, InBusy)
    case InvokeRead(_) => DispatchIsAt(s, ReadForInvoke)
    case BeginInvoke => DispatchIsAt(s, MayInvoke)
    case EndInvoke => DispatchIsAt(s, InInvoke)
    case DecPending => DispatchIsAt(s, Uncount)
    case DispatchUnref => DispatchIsAt(s, Release)
    case Close => MainIsFree(s) && s.owner && !s.freeCalled
    case CallFree => MainIsFree(s) && s.owner && !s.freeCalled
    case FreeSetDetached => FreeIsAt(s, SetDetached)
    case FreeSetExit => FreeIsAt(s, SetExit)
    case FreeJoin => FreeIsAt(s, Join) && s.worker == Done
    case FreeUnref => FreeIsAt(s, Drop)
  }

  function Unref(s: State): State {
    s.(refcount := s.refcount - 1, destroyed := s.destroyed || s.refcount == 1)
  }

  function Goto(s: State, frame: Frame): State
    requires s.main.Push?
  {
    s.(main := Push(frame, s.main.rest))
  }

  function Apply(s: State, step: Step): State
    requires Enabled(s, step)
  {
    match step
    case ReadDetached => s.(worker := if s.detached then Looping else SawAttached)
    case ReadPending => s.(worker := if s.pending >= MAX_PENDING then Looping else SawRoom)
    case IncPending => s.(worker := Counted, pending := s.pending + 1)
    case TakeRef => s.(worker := Referenced, refcount := s.refcount + 1)
    case Enqueue => s.(worker := Looping, queue := s.queue + 1)
    case LeaveLoop => s.(worker := Leaving)
    case WorkerUnref => Unref(s.(worker := Done))
    case Begin => s.(queue := s.queue - 1, main := Push(Dispatching(ReadForBusy), s.main))
    case BusyRead(hasBusy) => Goto(s, Dispatching(if !s.detached && hasBusy then MayAskBusy else ReadForInvoke))
    case BeginBusy => Goto(s, Dispatching(InBusy))
    case EndBusy(busy) =>
      if busy then s.(main := s.main.rest, queue := s.queue + 1) else Goto(s, Dispatching(ReadForInvoke))
    case InvokeRead(hasInvoke) => Goto(s, Dispatching(if !s.detached && hasInvoke then MayInvoke else Uncount))
    case BeginInvoke => Goto(s, Dispatching(InInvoke))
    case EndInvoke => Goto(s, Dispatching(Uncount))
    case DecPending => Goto(s, Dispatching(Release)).(pending := s.pending - 1)
    case DispatchUnref => Unref(s.(main := s.main.rest))
    case Close => s.(exit := true)
    case CallFree => s.(freeCalled := true, main := Push(Freeing(SetDetached), s.main))
    case FreeSetDetached => Goto(s, Freeing(SetExit)).(detached := true)
    case FreeSetExit => Goto(s, Freeing(Join)).(exit := true)
    case FreeJoin => Goto(s, Freeing(Drop))
    case FreeUnref => Unref(s.(main := s.main.rest, owner := false))
  }

  /** The steps that read or write a field of the object.  The others only handle the dispatch record. */
  predicate Touches(step: Step) {
    !step.Begin? && !step.EndBusy? && !step.EndInvoke?
  }

  predicate BeginsCallback(step: Step) {
    step.BeginBusy? || step.BeginInvoke?
  }

  // ---------- the invariant ----------

  function One(b: bool): nat {
    if b then 1 else 0
  }

  /** Dispatches that the main thread is running; each still holds its reference. */
  function InFlight(m: Stack): nat {
    match m
    case Empty => 0
    case Push(f, rest) => One(f.Dispatching?) + InFlight(rest)
  }

  /** Those that are still counted in `pending`. */
  function StillCounted(m: Stack): nat {
    match m
    case Empty => 0
    case Push(f, rest) => One(f.Dispatching? && f.at != Release) + StillCounted(rest)
  }

  /** Below the innermost activity there are only callbacks. */
  predicate Suspended(m: Stack) {
    m.Empty? || ((m.top == Dispatching(InBusy) || m.top == Dispatching(InInvoke)) && Suspended(m.rest))
  }

  predicate WellStacked(m: Stack) {
    m.Empty? || Suspended(m.rest)
  }

  predicate IsFreeing(s: State) {
    s.main.Push? && s.main.top.Freeing?
  }

  predicate Counts(s: State) {
    && s.refcount == One(s.owner) + One(s.worker != Done) + One(s.worker == Referenced) + s.queue + InFlight(s.main)
    && s.pending == One(s.worker == Counted || s.worker == Referenced) + s.queue + StillCounted(s.main)
    && s.pending <= MAX_PENDING && (s.worker == SawRoom ==> s.pending < MAX_PENDING)
    && (s.destroyed <==> s.refcount == 0)
  }

  predicate Lifecycle(s: State) {
    && WellStacked(s.main)
    && (s.owner <==> !s.freeCalled || IsFreeing(s))
    && (IsFreeing(s) ==> s.freeCalled)
    && (s.detached <==> s.freeCalled && !FreeIsAt(s, SetDetached))
    && (s.freeCalled && !IsFreeing(s) ==> s.worker == Done && s.exit)
    && (FreeIsAt(s, Join) || FreeIsAt(s, Drop) ==> s.exit)
    && (FreeIsAt(s, Drop) ==> s.worker == Done)
    && (DispatchIsAt(s, MayAskBusy) || DispatchIsAt(s, MayInvoke) ==> !s.detached)
  }

  predicate Inv(s: State) {
    Counts(s) && Lifecycle(s)
  }

  lemma InitHolds()
    ensures Inv(Init())
  {
  }

  predicate ByWorker(step: Step) {
    step.ReadDetached? || step.ReadPending? || step.IncPending? || step.TakeRef? || step.Enqueue? || step.LeaveLoop? ||
    step.WorkerUnref?
  }

  predicate ByOwner(step: Step) {
    step.Close? || step.CallFree? || step.FreeSetDetached? || step.FreeSetExit? || step.FreeJoin? || step.FreeUnref?
  }

  lemma WorkerKeeps(s: State, step: Step)
    requires Inv(s) && Enabled(s, step) && ByWorker(step)
    ensures Inv(Apply(s, step))
  {
  }

  lemma OwnerKeeps(s: State, step: Step)
    requires Inv(s) && Enabled(s, step) && ByOwner(step)
    ensures Inv(Apply(s, step))
  {
  }

  lemma BeginKeepsCounts(s: State)
    requires Counts(s) && Enabled(s, Begin)
    ensures Counts(Apply(s, Begin))
  {
    var t := Apply(s, Begin);
    assert InFlight(t.main) == InFlight(s.main) + 1 && StillCounted(t.main) == StillCounted(s.main) + 1;
  }

  lemma BusyKeepsCounts(s: State, busy: bool)
    requires Counts(s) && Enabled(s, EndBusy(busy))
    ensures Counts(Apply(s, EndBusy(busy)))
  {
    var t := Apply(s, EndBusy(busy));
    if busy {
      assert InFlight(t.main) == InFlight(s.main) - 1 && StillCounted(t.main) == StillCounted(s.main) - 1;
    }
  }

  lemma SettleKeepsCounts(s: State, step: Step)
    requires Counts(s) && Enabled(s, step) && (step.DecPending? || step.DispatchUnref?)
    ensures Counts(Apply(s, step))
  {
    if step.DispatchUnref? {
      var t := Apply(s, step);
      assert InFlight(t.main) == InFlight(s.main) - 1 && StillCounted(t.main) == StillCounted(s.main);
    }
  }

  lemma DispatchKeepsCounts(s: State, step: Step)
    requires Counts(s) && Enabled(s, step) && !ByWorker(step) && !ByOwner(step)
    ensures Counts(Apply(s, step))
  {
    if step.Begin? {
      BeginKeepsCounts(s);
    } else if step.EndBusy? {
      BusyKeepsCounts(s, step.busy);
    } else if step.DecPending? || step.DispatchUnref? {
      SettleKeepsCounts(s, step);
    }
  }

  lemma DispatchKeepsLifecycle(s: State, step: Step)
    requires Lifecycle(s) && Enabled(s, step) && !ByWorker(step) && !ByOwner(step)
    ensures Lifecycle(Apply(s, step))
  {
  }

  lemma StepKeeps(s: State, step: Step)
    requires Inv(s) && Enabled(s, step)
    ensures Inv(Apply(s, step))
  {
    if ByWorker(step) {
      WorkerKeeps(s, step);
    } else if ByOwner(step) {
      OwnerKeeps(s, step);
    } else {
      DispatchKeepsCounts(s, step);
      DispatchKeepsLifecycle(s, step);
    }
  }

  /** `steps` is a run from `s` that ends in `t`. */
  predicate Run(s: State, steps: seq<Step>, t: State)
    decreases steps
  {
    if steps == [] then s == t
    else Enabled(s, steps[0]) && Run(Apply(s, steps[0]), steps[1..], t)
  }

  lemma {:induction false} RunKeeps(s: State, steps: seq<Step>, t: State)
    requires Inv(s) && Run(s, steps, t)
    ensures Inv(t)
    decreases steps
  {
    if steps != [] {
      StepKeeps(s, steps[0]);
      RunKeeps(Apply(s, steps[0]), steps[1..], t);
    }
  }

  predicate Reachable(s: State, steps: seq<Step>) {
    Run(Init(), steps, s)
  }

  // ---------- what it says ----------

  /** The count is exactly the owner, the worker, the queue and what is in flight, at most 256 posts are
      pending, and the object is gone exactly when nobody holds it. */
  lemma Accounting(s: State, steps: seq<Step>)
    requires Reachable(s, steps)
    ensures s.refcount == One(s.owner) + One(s.worker != Done) + One(s.worker == Referenced) + s.queue + InFlight(s.main)
    ensures 0 <= s.pending <= MAX_PENDING
    ensures s.destroyed <==> !s.owner && s.worker == Done && s.queue == 0 && InFlight(s.main) == 0
  {
    InitHolds();
    RunKeeps(Init(), steps, s);
  }

  /** No step touches the object after its destruction. */
  lemma NoUseAfterDestroy(s: State, steps: seq<Step>, step: Step)
    requires Reachable(s, steps) && Enabled(s, step) && Touches(step)
    ensures !s.destroyed
  {
    InitHolds();
    RunKeeps(Init(), steps, s);
  }

  /** No callback begins once ns_es_free has set `detached`, nor after it has returned. */
  lemma NoCallbackAfterDetach(s: State, steps: seq<Step>, step: Step)
    requires Reachable(s, steps) && Enabled(s, step) && BeginsCallback(step)
    ensures !s.detached && !(s.freeCalled && !IsFreeing(s))
  {
    InitHolds();
    RunKeeps(Init(), steps, s);
  }

  /** The flags never go back. */
  lemma {:induction false} FlagsStay(s: State, steps: seq<Step>, t: State)
    requires Run(s, steps, t)
    ensures (s.detached ==> t.detached) && (s.exit ==> t.exit) && (s.destroyed ==> t.destroyed)
    ensures s.freeCalled ==> t.freeCalled
    decreases steps
  {
    if steps != [] {
      FlagsStep(s, steps[0]);
      FlagsStay(Apply(s, steps[0]), steps[1..], t);
    }
  }

  lemma FlagsStep(s: State, step: Step)
    requires Enabled(s, step)
    ensures var t := Apply(s, step);
            && (s.detached ==> t.detached) && (s.exit ==> t.exit) && (s.destroyed ==> t.destroyed)
            && (s.freeCalled ==> t.freeCalled)
  {
  }

  /** Whatever the main thread waits for in g_thread_join, the worker alone can bring about. */
  lemma JoinReturns(s: State, before: seq<Step>) returns (steps: seq<Step>, t: State)
    requires Reachable(s, before) && FreeIsAt(s, Join)
    ensures Run(s, steps, t) && Enabled(t, FreeJoin) && !t.destroyed
  {
    InitHolds();
    RunKeeps(Init(), before, s);
    steps, t := WorkerFinishes(s);
    RunKeeps(s, steps, t);
  }

  lemma {:induction false} WorkerFinishes(s: State) returns (steps: seq<Step>, t: State)
    ensures Run(s, steps, t) && t.worker == Done && t.main == s.main
    decreases match s.worker
      case Done => 0 case Leaving => 1 case Looping => 2 case Referenced => 3
      case Counted => 4 case SawRoom => 5 case SawAttached => 6
  {
    if s.worker == Done { return [], s; }
    var step := match s.worker
      case Looping => LeaveLoop case SawAttached => ReadPending case SawRoom => IncPending
      case Counted => TakeRef case Referenced => Enqueue case _ => WorkerUnref;
    var rest;
    rest, t := WorkerFinishes(Apply(s, step));
    steps := [step] + rest;
    assert steps[1..] == rest;
  }

  /** Once the owner has freed the object, running what is left in the main loop destroys it. */
  lemma {:induction false} Drains(s: State) returns (steps: seq<Step>, t: State)
    requires Inv(s) && s.main.Empty? && s.freeCalled
    ensures Run(s, steps, t) && t.destroyed && t.queue == 0
    decreases s.queue
  {
    if s.queue == 0 { return [], s; }
    var once := [Begin, BusyRead(true), InvokeRead(true), DecPending, DispatchUnref];
    var next := s.(queue := s.queue - 1, pending := s.pending - 1, refcount := s.refcount - 1,
                   destroyed := s.destroyed || s.refcount == 1);
    OneDispatch(s, once, next);
    RunKeeps(s, once, next);
    var rest;
    rest, t := Drains(next);
    RunsJoin(s, once, next, rest, t);
    steps := once + rest;
  }

  lemma OneDispatch(s: State, once: seq<Step>, next: State)
    requires Inv(s) && s.main.Empty? && s.freeCalled && s.queue > 0
    requires once == [Begin, BusyRead(true), InvokeRead(true), DecPending, DispatchUnref]
    requires next == s.(queue := s.queue - 1, pending := s.pending - 1, refcount := s.refcount - 1,
                        destroyed := s.destroyed || s.refcount == 1)
    ensures Run(s, once, next)
  {
    var s1 := Apply(s, once[0]);
    var s2 := Apply(s1, once[1]);
    var s3 := Apply(s2, once[2]);
    var s4 := Apply(s3, once[3]);
    assert Apply(s4, once[4]) == next;
    assert Run(next, once[1..][1..][1..][1..][1..], next);
    assert Run(s4, once[1..][1..][1..][1..], next);
    assert Run(s3, once[1..][1..][1..], next);
    assert Run(s2, once[1..][1..], next);
    assert Run(s1, once[1..], next);
  }

  lemma {:induction false} RunsJoin(s: State, a: seq<Step>, t: State, b: seq<Step>, u: State)
    requires Run(s, a, t) && Run(t, b, u)
    ensures Run(s, a + b, u)
    decreases a
  {
    if a == [] {
      assert a + b == b;
    } else {
      RunsJoin(Apply(s, a[0]), a[1..], t, b, u);
      assert (a + b)[1..] == a[1..] + b;
    }
  }
}
