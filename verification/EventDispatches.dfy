/**
 What becomes of a dispatch (ns_es_dispatch_run of src/eventsource.c), on runs of the protocol: how dispatches are
 counted through the queue and the main thread, which steps each one takes in which order, and that a message is
 delivered unless the owner is busy or has freed the object.
 */
module EventDispatches {
  import opened EventProtocol

  // ---------- counting ----------

  datatype Kind = Enqueues | Begins | PutsBack | Finishes

  predicate Is(step: Step, kind: Kind) {
    match kind
    case Enqueues => step.Enqueue?
    case Begins => step.Begin?
    case PutsBack => step == EndBusy(true)
    case Finishes => step.DispatchUnref?
  }

  /** How many steps of a run are of this kind */
  function Tally(steps: seq<Step>, kind: Kind): nat {
    if steps == [] then 0 else Tally(steps[..|steps| - 1], kind) + One(Is(steps[|steps| - 1], kind))
  }

  lemma {:induction false} RunSplits(s: State, steps: seq<Step>, step: Step, t: State) returns (m: State)
    requires Run(s, steps + [step], t)
    ensures Run(s, steps, m) && Enabled(m, step) && t == Apply(m, step)
    decreases steps
  {
    var all := steps + [step];
    if steps == [] {
      m := s;
      assert all[1..] == [];
    } else {
      assert all[1..] == steps[1..] + [step];
      m := RunSplits(Apply(s, steps[0]), steps[1..], step, t);
    }
  }

  /** The dispatches that were enqueued, or put back because the owner was busy, have begun since or wait in the queue;
      and those that have begun were put back, have finished or are on the main thread. */
  lemma {:induction false} DispatchesCounted(s: State, steps: seq<Step>, t: State)
    requires Run(s, steps, t)
    ensures s.queue + Tally(steps, Enqueues) + Tally(steps, PutsBack) == Tally(steps, Begins) + t.queue
    ensures InFlight(s.main) + Tally(steps, Begins) ==
            Tally(steps, PutsBack) + Tally(steps, Finishes) + InFlight(t.main)
    decreases |steps|
  {
    if steps != [] {
      var init, step := steps[..|steps| - 1], steps[|steps| - 1];
      assert steps == init + [step];
      var m := RunSplits(s, init, step, t);
      DispatchesCounted(s, init, m);
      QueueCounted(m, step, t);
      FlightCounted(m, step, t);
    }
  }

  lemma QueueCounted(m: State, step: Step, t: State)
    requires Enabled(m, step) && t == Apply(m, step)
    ensures m.queue + One(Is(step, Enqueues)) + One(Is(step, PutsBack)) == One(Is(step, Begins)) + t.queue
  {
  }

  lemma FlightCounted(m: State, step: Step, t: State)
    requires Enabled(m, step) && t == Apply(m, step)
    ensures InFlight(m.main) + One(Is(step, Begins)) == One(Is(step, PutsBack)) + One(Is(step, Finishes)) + InFlight(t.main)
  {
    if ByWorker(step) || ByOwner(step) {
      OwnerCounted(m, step, t);
    } else if step.Begin? {
      assert t.main.rest == m.main;
    } else if step == EndBusy(true) || step.DispatchUnref? {
      assert t.main == m.main.rest;
    } else {
      assert t.main.rest == m.main.rest && t.main.top.Dispatching? && m.main.top.Dispatching?;
    }
  }

  lemma OwnerCounted(m: State, step: Step, t: State)
    requires Enabled(m, step) && t == Apply(m, step) && (ByWorker(step) || ByOwner(step))
    ensures InFlight(t.main) == InFlight(m.main)
  {
    if step.CallFree? {
      assert t.main.rest == m.main;
    } else if step.FreeUnref? {
      assert t.main == m.main.rest;
    }
  }

  // ---------- delivery ----------

  lemma RunOn(s: State, step: Step, rest: seq<Step>, t: State)
    requires Enabled(s, step) && Run(Apply(s, step), rest, t)
    ensures Run(s, [step] + rest, t)
  {
    assert ([step] + rest)[1..] == rest;
  }

  lemma RunOnce(s: State, step: Step)
    requires Enabled(s, step)
    ensures Run(s, [step], Apply(s, step))
  {
    assert [step] + [] == [step];
    RunOn(s, step, [], Apply(s, step));
  }

  /** The state in which a dispatch of `s` is at this point */
  function During(s: State, at: DispatchAt): State
    requires s.queue > 0
  {
    s.(queue := s.queue - 1, main := Push(Dispatching(at), s.main))
  }

  /** The owner is asked whether it is busy. */
  function Asking(): seq<Step> {
    [Begin] + ([BusyRead(true)] + [BeginBusy])
  }

  /** There is nobody to ask. */
  function NotAsking(): seq<Step> {
    [Begin] + [BusyRead(false)]
  }

  function Invoking(): seq<Step> {
    [InvokeRead(true)] + [BeginInvoke]
  }

  function Ending(): seq<Step> {
    [EndInvoke] + ([DecPending] + [DispatchUnref])
  }

  lemma Asks(s: State)
    requires MainIsFree(s) && s.queue > 0 && !s.detached
    ensures Run(s, Asking(), During(s, InBusy)) && Run(s, NotAsking(), During(s, ReadForInvoke))
  {
    RunOnce(During(s, MayAskBusy), BeginBusy);
    RunOn(During(s, ReadForBusy), BusyRead(true), [BeginBusy], During(s, InBusy));
    RunOn(s, Begin, [BusyRead(true)] + [BeginBusy], During(s, InBusy));
    RunOnce(During(s, ReadForBusy), BusyRead(false));
    RunOn(s, Begin, [BusyRead(false)], During(s, ReadForInvoke));
  }

  lemma Invokes(s: State)
    requires s.queue > 0 && !s.detached
    ensures Run(During(s, ReadForInvoke), Invoking(), During(s, InInvoke))
  {
    RunOnce(During(s, MayInvoke), BeginInvoke);
    RunOn(During(s, ReadForInvoke), InvokeRead(true), [BeginInvoke], During(s, InInvoke));
  }

  /** While the object is not detached and the main thread is free, a waiting dispatch whose owner is not busy, or has
      no callback that could say so, gets to its callback. */
  lemma Delivered(s: State)
    requires MainIsFree(s) && s.queue > 0 && !s.detached
    ensures Run(s, Asking() + ([EndBusy(false)] + Invoking()), During(s, InInvoke))
    ensures Run(s, NotAsking() + Invoking(), During(s, InInvoke))
  {
    Asks(s);
    Invokes(s);
    RunOn(During(s, InBusy), EndBusy(false), Invoking(), During(s, InInvoke));
    RunsJoin(s, Asking(), During(s, InBusy), [EndBusy(false)] + Invoking(), During(s, InInvoke));
    RunsJoin(s, NotAsking(), During(s, ReadForInvoke), Invoking(), During(s, InInvoke));
  }

  /** If the owner is busy, everything is as if the dispatch had not been tried. */
  lemma PutBack(s: State)
    requires MainIsFree(s) && s.queue > 0 && !s.detached
    ensures Run(s, Asking() + [EndBusy(true)], s)
  {
    Asks(s);
    RunOnce(During(s, InBusy), EndBusy(true));
    RunsJoin(s, Asking(), During(s, InBusy), [EndBusy(true)], s);
  }

  /** When the callback returns, the dispatch gives up its place among the pending ones and its reference. */
  lemma Finished(s: State)
    requires s.queue > 0
    ensures Run(During(s, InInvoke), Ending(),
                s.(queue := s.queue - 1, pending := s.pending - 1, refcount := s.refcount - 1,
                   destroyed := s.destroyed || s.refcount == 1))
  {
    var u := During(s, Release).(pending := s.pending - 1);
    RunOnce(u, DispatchUnref);
    RunOn(During(s, Uncount), DecPending, [DispatchUnref], Apply(u, DispatchUnref));
    RunOn(During(s, InInvoke), EndInvoke, [DecPending] + [DispatchUnref], Apply(u, DispatchUnref));
  }

  function Posting(): seq<Step> {
    [ReadDetached] + ([ReadPending] + ([IncPending] + ([TakeRef] + [Enqueue])))
  }

  /** A post enqueues one dispatch, which is counted and holds a reference, unless the object is detached or too many
      are pending; then it does nothing. */
  lemma Posted(s: State)
    requires s.worker == Looping
    ensures !s.detached && s.pending < MAX_PENDING ==>
            Run(s, Posting(), s.(queue := s.queue + 1, pending := s.pending + 1, refcount := s.refcount + 1))
    ensures !s.detached && s.pending >= MAX_PENDING ==> Run(s, [ReadDetached] + [ReadPending], s)
    ensures s.detached ==> Run(s, [ReadDetached], s)
  {
    RunOnce(s, ReadDetached);
    if !s.detached {
      RunOnce(s.(worker := SawAttached), ReadPending);
      RunOn(s, ReadDetached, [ReadPending], Apply(s.(worker := SawAttached), ReadPending));
      if s.pending < MAX_PENDING { PostedRun(s); }
    }
  }

  lemma PostedRun(s: State)
    requires s.worker == Looping && !s.detached && s.pending < MAX_PENDING
    ensures Run(s, Posting(), s.(queue := s.queue + 1, pending := s.pending + 1, refcount := s.refcount + 1))
  {
    var t := s.(queue := s.queue + 1, pending := s.pending + 1, refcount := s.refcount + 1);
    var counted := s.(worker := Counted, pending := s.pending + 1);
    RunOnce(Apply(counted, TakeRef), Enqueue);
    RunOn(counted, TakeRef, [Enqueue], t);
    RunOn(s.(worker := SawRoom), IncPending, [TakeRef] + [Enqueue], t);
    RunOn(s.(worker := SawAttached), ReadPending, [IncPending] + ([TakeRef] + [Enqueue]), t);
    RunOn(s, ReadDetached, [ReadPending] + ([IncPending] + ([TakeRef] + [Enqueue])), t);
  }
}
