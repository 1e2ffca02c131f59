/**
 The steps of each dispatch in a run of the protocol (ns_es_dispatch_run of src/eventsource.c).  Dispatches are
 numbered as they begin, and since callbacks may run a nested main loop, several can be under way at once.
 */
module EventWords {
  import opened EventProtocol
  import opened EventDispatches

  predicate OfDispatch(step: Step) {
    step.Begin? || !(ByWorker(step) || ByOwner(step))
  }

  /** What the main thread is running after these steps, innermost first: the numbers of dispatches, and -1 for
      ns_es_free. */
  function Running(steps: seq<Step>): seq<int> {
    if steps == [] then []
    else
      var init, step := steps[..|steps| - 1], steps[|steps| - 1];
      var ids := Running(init);
      if step.Begin? then [Tally(init, Begins)] + ids
      else if step.CallFree? then [-1] + ids
      else if ids != [] && (step == EndBusy(true) || step.DispatchUnref? || step.FreeUnref?) then ids[1..]
      else ids
  }

  /** The dispatch that takes a step, or -1 */
  function Actor(before: seq<Step>, step: Step): int {
    if step.Begin? then Tally(before, Begins)
    else if OfDispatch(step) && Running(before) != [] then Running(before)[0]
    else -1
  }

  /** The steps that dispatch `d` has taken */
  function Own(steps: seq<Step>, d: int): seq<Step> {
    if steps == [] then []
    else
      var init, step := steps[..|steps| - 1], steps[|steps| - 1];
      if Actor(init, step) == d then Own(init, d) + [step] else Own(init, d)
  }

  lemma OneMore(steps: seq<Step>, step: Step, d: int)
    ensures Own(steps + [step], d) == if Actor(steps, step) == d then Own(steps, d) + [step] else Own(steps, d)
    ensures Tally(steps + [step], Begins) == Tally(steps, Begins) + One(step.Begin?)
    ensures Running(steps + [step]) ==
            if step.Begin? then [Tally(steps, Begins)] + Running(steps)
            else if step.CallFree? then [-1] + Running(steps)
            else if Running(steps) != [] && (step == EndBusy(true) || step.DispatchUnref? || step.FreeUnref?)
            then Running(steps)[1..]
            else Running(steps)
  {
    assert (steps + [step])[..|steps|] == steps;
  }

  // ---------- the steps that a dispatch takes ----------

  /** It has begun, and its owner was not there to be asked, or was not asked, or said that it is not busy. */
  predicate Asked(w: seq<Step>) {
    w == [Begin, BusyRead(false)] || w == [Begin, BusyRead(true)] || w == [Begin, BusyRead(true), BeginBusy, EndBusy(false)]
  }

  /** Its callback was left out, or was called and has returned. */
  predicate Called(w: seq<Step>) {
    var n := |w|;
    (n > 0 && w[n - 1].InvokeRead? && Asked(w[..n - 1])) ||
    (n > 2 && w[n - 3] == InvokeRead(true) && w[n - 2] == BeginInvoke && w[n - 1] == EndInvoke && Asked(w[..n - 3]))
  }

  /** It was put back since its owner is busy, or it has called its callback or not and given everything up. */
  predicate Over(w: seq<Step>) {
    var n := |w|;
    w == [Begin, BusyRead(true), BeginBusy, EndBusy(true)] ||
    (n > 1 && w[n - 2] == DecPending && w[n - 1] == DispatchUnref && Called(w[..n - 2]))
  }

  /** The steps of a dispatch that is at this point */
  predicate Reaches(w: seq<Step>, at: DispatchAt) {
    var n := |w|;
    match at
    case ReadForBusy => w == [Begin]
    case MayAskBusy => w == [Begin, BusyRead(true)]
    case InBusy => w == [Begin, BusyRead(true), BeginBusy]
    case ReadForInvoke => Asked(w)
    case MayInvoke => n > 0 && w[n - 1] == InvokeRead(true) && Asked(w[..n - 1])
    case InInvoke => n > 1 && w[n - 2] == InvokeRead(true) && w[n - 1] == BeginInvoke && Asked(w[..n - 2])
    case Uncount => Called(w)
    case Release => n > 0 && w[n - 1] == DecPending && Called(w[..n - 1])
  }

  /** One step of a dispatch goes on from its point to the next, or ends it. */
  lemma StepReaches(s: State, step: Step, w: seq<Step>)
    requires Enabled(s, step) && OfDispatch(step) && !step.Begin? && Reaches(w, s.main.top.at)
    ensures var t := Apply(s, step);
            if step == EndBusy(true) || step.DispatchUnref? then t.main == s.main.rest && Over(w + [step])
            else t.main.Push? && t.main.rest == s.main.rest && t.main.top.Dispatching? && Reaches(w + [step], t.main.top.at)
  {
    var v := w + [step];
    assert v[..|v| - 1] == w;
  }

  // ---------- every dispatch of a run ----------

  /** The numbers are those of the main thread's activities, each dispatch has one of its own and is where its steps have
      brought it. */
  ghost predicate Fits(ids: seq<int>, m: Stack, steps: seq<Step>)
    decreases m
  {
    match m
    case Empty => ids == []
    case Push(f, rest) =>
      && ids != [] && Fits(ids[1..], rest, steps)
      && (if f.Freeing? then ids[0] == -1
          else 0 <= ids[0] < Tally(steps, Begins) && ids[0] !in ids[1..] && Reaches(Own(steps, ids[0]), f.at))
  }

  /** Those that are not under way are over. */
  ghost predicate OthersOver(ids: seq<int>, steps: seq<Step>) {
    forall d :: 0 <= d < Tally(steps, Begins) && d !in ids ==> Over(Own(steps, d))
  }

  /** The next dispatch has done nothing yet. */
  ghost predicate NextIsNew(steps: seq<Step>) {
    forall d :: d >= Tally(steps, Begins) ==> Own(steps, d) == []
  }

  ghost predicate Sound(steps: seq<Step>, s: State) {
    Fits(Running(steps), s.main, steps) && OthersOver(Running(steps), steps) && NextIsNew(steps)
  }

  /** A step changes nothing for the dispatches that do not take it. */
  lemma {:induction false} FitsOthers(ids: seq<int>, m: Stack, steps: seq<Step>, step: Step)
    requires Fits(ids, m, steps) && (Actor(steps, step) == -1 || Actor(steps, step) !in ids)
    ensures Fits(ids, m, steps + [step])
    decreases m
  {
    if m.Push? {
      FitsOthers(ids[1..], m.rest, steps, step);
      OneMore(steps, step, ids[0]);
    }
  }

  lemma {:induction false} FitsBelow(ids: seq<int>, m: Stack, steps: seq<Step>, d: int)
    requires Fits(ids, m, steps) && d >= Tally(steps, Begins)
    ensures d !in ids
    decreases m
  {
    if m.Push? { FitsBelow(ids[1..], m.rest, steps, d); }
  }

  lemma BeginSound(steps: seq<Step>, s: State)
    requires Sound(steps, s) && Enabled(s, Begin)
    ensures Sound(steps + [Begin], Apply(s, Begin))
  {
    var ids, n, more := Running(steps), Tally(steps, Begins), steps + [Begin];
    FitsBelow(ids, s.main, steps, n);
    FitsOthers(ids, s.main, steps, Begin);
    OneMore(steps, Begin, n);
    assert Running(more)[1..] == ids && [] + [Begin] == [Begin];
    assert Reaches(Own(more, n), ReadForBusy);
    forall d | d != n ensures Own(more, d) == Own(steps, d) { OneMore(steps, Begin, d); }
  }

  /** Steps of the worker and of the owner */
  lemma OtherSound(steps: seq<Step>, s: State, step: Step)
    requires Sound(steps, s) && Enabled(s, step) && !OfDispatch(step)
    ensures Sound(steps + [step], Apply(s, step))
  {
    var ids, more := Running(steps), steps + [step];
    forall d ensures 0 <= d ==> Own(more, d) == Own(steps, d) { OneMore(steps, step, d); }
    OneMore(steps, step, -1);
    FitsOthers(ids, s.main, steps, step);
    if step.CallFree? { assert Running(more)[1..] == ids; }
  }

  lemma DispatchSound(steps: seq<Step>, s: State, step: Step)
    requires Sound(steps, s) && Enabled(s, step) && OfDispatch(step) && !step.Begin?
    ensures Sound(steps + [step], Apply(s, step))
  {
    var ids, more := Running(steps), steps + [step];
    var id := ids[0];
    StepReaches(s, step, Own(steps, id));
    OneMore(steps, step, id);
    forall d | d != id ensures Own(more, d) == Own(steps, d) { OneMore(steps, step, d); }
    FitsOthers(ids[1..], s.main.rest, steps, step);
  }

  lemma {:induction false} RunSound(steps: seq<Step>, s: State)
    requires Reachable(s, steps)
    ensures Sound(steps, s)
    decreases |steps|
  {
    if steps != [] {
      var init, step := steps[..|steps| - 1], steps[|steps| - 1];
      assert steps == init + [step];
      var m := RunSplits(Init(), init, step, s);
      RunSound(init, m);
      if step.Begin? {
        BeginSound(init, m);
      } else if OfDispatch(step) {
        DispatchSound(init, m, step);
      } else {
        OtherSound(init, m, step);
      }
    }
  }

  /** In every run, each dispatch takes its steps in the order of ns_es_dispatch_run: it asks whether the owner is busy
      or does not; if so, it was put back, and that was its last step; if not, it calls its callback or does not, and
      then gives up its place among the pending ones and its reference.  Those that the main thread is not running have
      come to one of these ends, and those that it is running are on the way. */
  lemma EveryDispatch(steps: seq<Step>, s: State, d: nat)
    requires Reachable(s, steps) && d < Tally(steps, Begins)
    ensures if d in Running(steps) then exists at :: Reaches(Own(steps, d), at) else Over(Own(steps, d))
  {
    RunSound(steps, s);
    if d in Running(steps) { RunningReaches(Running(steps), s.main, steps, d); }
  }

  lemma {:induction false} RunningReaches(ids: seq<int>, m: Stack, steps: seq<Step>, d: nat)
    requires Fits(ids, m, steps) && d in ids
    ensures exists at :: Reaches(Own(steps, d), at)
    decreases m
  {
    if ids[0] != d { RunningReaches(ids[1..], m.rest, steps, d); }
  }

  lemma AskedNotBusy(w: seq<Step>, i: nat)
    requires i < |w| && w[i] == EndBusy(true)
    ensures forall k :: i < k <= |w| ==> !Asked(w[..k])
  {
    forall k | i < k <= |w| ensures !Asked(w[..k]) { assert w[..k][i] == EndBusy(true); }
  }

  lemma CalledNotBusy(w: seq<Step>, i: nat)
    requires i < |w| && w[i] == EndBusy(true)
    ensures forall k :: i < k <= |w| ==> !Called(w[..k])
  {
    AskedNotBusy(w, i);
    forall k | i < k <= |w| ensures !Called(w[..k]) {
      var v := w[..k];
      assert v[i] == EndBusy(true);
      assert forall j :: i < j <= k ==> v[..j] == w[..j];
    }
  }

  /** And so a dispatch that was put back never calls its callback. */
  lemma PutBackIsLast(steps: seq<Step>, s: State, d: nat)
    requires Reachable(s, steps) && d < Tally(steps, Begins) && EndBusy(true) in Own(steps, d)
    ensures Own(steps, d) == [Begin, BusyRead(true), BeginBusy, EndBusy(true)]
  {
    EveryDispatch(steps, s, d);
    var w := Own(steps, d);
    var i :| 0 <= i < |w| && w[i] == EndBusy(true);
    if d in Running(steps) {
      var at :| Reaches(w, at);
      OnTheWay(w, i, at);
    } else {
      CalledNotBusy(w, i);
    }
  }

  lemma OnTheWay(w: seq<Step>, i: nat, at: DispatchAt)
    requires i < |w| && w[i] == EndBusy(true)
    ensures !Reaches(w, at)
  {
    AskedNotBusy(w, i);
    CalledNotBusy(w, i);
    assert w[..|w|] == w;
  }
}
