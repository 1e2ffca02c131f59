/**
 The events of one keyframe animation (src/anim.c): however coarse the ticks, one start, every iteration in order,
 and one end.
 */
module AnimEvents {
  import opened Common
  import opened AnimSteps
  import opened Animations

  const INT_LIMIT := 0x8000_0000

  /** A keyframe animation as observing a style begins it, with a finite number of iterations, in an element whose
      last animation, if any, has sent its end */
  predicate IsFresh(a: Keyframes) {
    && a.active && a.name.Some? && !a.paused && !a.started && a.timing.duration > 0.0
    && 0 < a.count < INT_LIMIT
  }

  /** The same after some ticks; `emitted` iterations have been told. */
  predicate IsGoing(a: Keyframes) {
    IsRunning(a) && (a.started ==> 0 <= a.emitted < a.count)
  }

  predicate IsRunning(a: Keyframes) {
    a.active && a.name.Some? && !a.paused && a.timing.duration > 0.0 && 0 < a.count < INT_LIMIT
  }

  /** Observing a style begins a fresh animation. */
  lemma BeginsFresh(a: Keyframes, e: Entry, count: int, now: int)
    requires !a.active && !a.started && count < MAX_ACTIVE
    requires e.name.Some? && e.timing.duration > 0.0 && !e.paused && 0 < e.count < INT_LIMIT
    ensures var b := ObserveAnimation(a, Some(e), false, count, now).it;
            IsFresh(b) && b.start == now && b.timing == e.timing && b.count == e.count && b.name == e.name
  {
  }

  /** What a tick does to an animation, whatever else is active */
  function TickAlone(a: Keyframes, now: int, wild: int): Told<Keyframes> {
    TickAnimation(a, 1, now, wild).it
  }

  lemma TickedAlone(s: State, now: int, wild: int)
    ensures TickedState(s, now, wild).animation == TickAlone(s.animation, now, wild).it
    ensures var channels := TickChannels(s, 0, now);
            TickedEvents(s, now, wild) == channels.it.events + TickAlone(s.animation, now, wild).events +
              TickGenerics(s.generic, TickAnimation(s.animation, channels.count, now, wild).count, now).it.events
  {
  }

  /** Ticks at some times */
  function Ticks(a: Keyframes, times: seq<int>, wild: int): Told<Keyframes> {
    if times == [] then Told(a, [])
    else
      var n := |times| - 1;
      var p := Ticks(a, times[..n], wild);
      var t := TickAlone(p.it, times[n], wild);
      Told(t.it, p.events + t.events)
  }

  /** How often an animation has run through */
  function Progress(a: Keyframes, now: int): real
    requires a.timing.duration > 0.0
  {
    Elapsed(a, now) / a.timing.duration
  }

  lemma DivisionKeepsOrder(x: real, y: real, d: real)
    requires d > 0.0
    ensures x <= y ==> x / d <= y / d
    ensures x >= 0.0 <==> x / d >= 0.0
  {
    assert x == x / d * d && y == y / d * d;
  }

  /** The iterations told when ticks have come so far */
  function Complete(a: Keyframes, now: int): int
    requires a.timing.duration > 0.0
  {
    if Progress(a, now) < 0.0 then 0 else Progress(a, now).Floor
  }

  function IterationsOf(a: Keyframes, from: int, upTo: int): seq<Event> {
    Iterations(Named(a), a.timing.duration, from, upTo)
  }

  function StartOf(a: Keyframes): Event {
    Event(AnimationStart, Named(a), 0.0)
  }

  /** The events of an animation from its start to its end: each iteration but the last ends with one, at a whole number
      of durations, and the last with the end of the animation. */
  function Exact(a: Keyframes): seq<Event>
    requires IsFresh(a)
  {
    seq(a.count + 1, k requires 0 <= k <= a.count =>
      Event(if k == 0 then AnimationStart else if k < a.count then AnimationIteration else AnimationEnd, a.name.value,
            k as real * a.timing.duration))
  }

  lemma {:induction false} IterationAt(name: string, duration: real, from: int, upTo: int, k: nat)
    requires k < |Iterations(name, duration, from, upTo)|
    ensures Iterations(name, duration, from, upTo)[k] == Event(AnimationIteration, name, (from + 1 + k) as real * duration)
    decreases upTo - from
  {
    if k > 0 { IterationAt(name, duration, from + 1, upTo, k - 1); }
  }

  lemma ExactIs(a: Keyframes)
    requires IsFresh(a)
    ensures Exact(a) == [StartOf(a)] + IterationsOf(a, 0, a.count - 1) + [EndOf(a)]
  {
    var told := IterationsOf(a, 0, a.count - 1);
    forall k | 0 <= k < |told| ensures told[k] == Exact(a)[k + 1] {
      IterationAt(Named(a), a.timing.duration, 0, a.count - 1, k);
    }
    assert Exact(a)[0] == StartOf(a) && Exact(a)[a.count] == EndOf(a);
    assert Exact(a) == [Exact(a)[0]] + Exact(a)[1..a.count] + [Exact(a)[a.count]];
    assert Exact(a)[1..a.count] == told;
  }

  /** An animation has run through as often as its duration fits between the end of its delay and now, in microseconds. */
  lemma ProgressIs(a: Keyframes, now: int)
    requires IsFresh(a)
    ensures now as real == a.start as real + (a.timing.delay + Progress(a, now) * a.timing.duration) * 1000.0
  {
  }

  // ---------- one tick ----------

  lemma NotOver(a: Keyframes, now: int)
    requires IsRunning(a) && Progress(a, now) < a.count as real
    ensures AdvanceAnimation(a, 1, now).it == a
  {
    var x := Progress(a, now);
    if x > MAX_ITERATION as real {
      assert a.count > MAX_ITERATION;
    } else if x >= 0.0 {
      assert x.Floor < a.count;
    } else {
      assert Truncate(x) <= 0;
    }
  }

  /** An animation with more iterations than the cut-off does not end. */
  lemma Over(a: Keyframes, now: int)
    requires IsRunning(a) && Progress(a, now) >= a.count as real
    ensures AdvanceAnimation(a, 1, now).it == if a.count <= MAX_ITERATION then a.(active := false) else a
  {
    DivisionKeepsOrder(Elapsed(a, now), 0.0, a.timing.duration);
    var x := Progress(a, now);
    if x > MAX_ITERATION as real {
      assert Iteration(a, now) == MAX_ITERATION;
    } else {
      assert Iteration(a, now) == x.Floor >= a.count;
    }
  }

  lemma TickBeforeEnd(a: Keyframes, now: int, wild: int)
    requires IsGoing(a) && Progress(a, now) < a.count as real
    requires a.started ==> 0.0 <= Progress(a, now) && a.emitted <= Complete(a, now)
    ensures var k := Complete(a, now);
            && 0 <= k < a.count
            && TickAlone(a, now, wild) ==
               if a.started then Told(a.(emitted := k), IterationsOf(a, a.emitted, k))
               else if Progress(a, now) < 0.0 then Told(a, [])
               else Told(a.(started := true, emitted := k), [StartOf(a)] + IterationsOf(a, 0, k))
  {
    DivisionKeepsOrder(Elapsed(a, now), 0.0, a.timing.duration);
    NotOver(a, now);
    if Progress(a, now) >= 0.0 {
      TellsTo(a, now, wild, Complete(a, now));
    }
  }

  /** What is told when the tick is past the start, and the last iteration reached is known */
  lemma TellsTo(a: Keyframes, now: int, wild: int, k: int)
    requires a.active && a.timing.duration > 0.0 && Elapsed(a, now) >= 0.0
    requires Reached(a, now, wild) == k && 0 <= k && (a.started ==> a.emitted <= k)
    ensures TellAnimation(a, now, wild) ==
            if a.started then Told(a.(emitted := k), IterationsOf(a, a.emitted, k))
            else Told(a.(started := true, emitted := k), [StartOf(a)] + IterationsOf(a, 0, k))
  {
    var begun := if a.started then a else a.(started := true, emitted := 0);
    assert Elapsed(begun, now) == Elapsed(a, now);
  }

  /** The last tick: it catches up with the iterations as far as the conversion to int lets it. */
  lemma TickAtEnd(a: Keyframes, now: int, wild: int)
    requires IsGoing(a) && Progress(a, now) >= a.count as real && a.count <= MAX_ITERATION
    ensures TickAlone(a, now, wild) ==
            Told(a.(active := false, started := false, emitted := 0),
                 (if a.started then [] else [StartOf(a)]) +
                 IterationsOf(a, if a.started then a.emitted else 0, Reached(a, now, wild)) + [EndOf(a)])
  {
    DivisionKeepsOrder(Elapsed(a, now), 0.0, a.timing.duration);
    Over(a, now);
    TellsAll(a, a.(active := false), now, wild);
  }

  lemma TellsAll(a: Keyframes, done: Keyframes, now: int, wild: int)
    requires a.timing.duration > 0.0 && Elapsed(a, now) >= 0.0 && done == a.(active := false)
    ensures TellAnimation(done, now, wild) ==
            Told(a.(active := false, started := false, emitted := 0),
                 (if a.started then [] else [StartOf(a)]) +
                 IterationsOf(a, if a.started then a.emitted else 0, Reached(a, now, wild)) + [EndOf(a)])
  {
    var begun := if a.started then done else done.(started := true, emitted := 0);
    assert Elapsed(begun, now) == Elapsed(a, now);
    assert TellStart(done, now) == Told(begun, if a.started then [] else [StartOf(a)]);
    var r := Reached(a, now, wild);
    var going := TellIterations(begun, now, wild);
    assert going.events == IterationsOf(a, begun.emitted, r);
    TellsEnd(a, going.it);
  }

  lemma TellsEnd(a: Keyframes, b: Keyframes)
    requires b == a.(active := false, started := b.started, emitted := b.emitted)
    ensures TellEnd(b) == Told(a.(active := false, started := false, emitted := 0), [EndOf(a)])
  {
    assert EndOf(b) == EndOf(a);
  }

  // ---------- many ticks ----------

  predicate InOrder(times: seq<int>) {
    forall i, j :: 0 <= i <= j < |times| ==> times[i] <= times[j]
  }

  lemma {:induction false} IterationsMeet(name: string, d: real, i: int, j: int, k: int)
    requires i <= j <= k
    ensures Iterations(name, d, i, j) + Iterations(name, d, j, k) == Iterations(name, d, i, k)
    decreases j - i
  {
    if i < j {
      IterationsMeet(name, d, i + 1, j, k);
    }
  }

  /** What has been told when all ticks have come before the end, the last of them at some time */
  function ToldBy(a: Keyframes, now: int): seq<Event>
    requires a.timing.duration > 0.0
  {
    if Progress(a, now) < 0.0 then [] else [StartOf(a)] + IterationsOf(a, 0, Complete(a, now))
  }

  /** Before the end, exactly the start and the iterations that are complete have been told. */
  lemma {:induction false} TicksBeforeEnd(a: Keyframes, times: seq<int>, wild: int)
    requires IsFresh(a) && InOrder(times) && times != []
    requires Progress(a, times[|times| - 1]) < a.count as real
    ensures var last := times[|times| - 1];
            Ticks(a, times, wild) ==
            Told(if Progress(a, last) < 0.0 then a else a.(started := true, emitted := Complete(a, last)),
                 ToldBy(a, last))
  {
    var n := |times| - 1;
    var now := times[n];
    if n == 0 {
      TickBeforeEnd(a, now, wild);
      assert times[..0] == [];
    } else {
      var before := times[n - 1];
      assert times[..n][n - 1] == before && before <= now;
      DivisionKeepsOrder(Elapsed(a, before), Elapsed(a, now), a.timing.duration);
      TicksBeforeEnd(a, times[..n], wild);
      var p := Ticks(a, times[..n], wild);
      assert p.it.timing == a.timing && Elapsed(p.it, now) == Elapsed(a, now);
      assert Complete(a, before) <= Complete(a, now);
      TickBeforeEnd(p.it, now, wild);
      TickOn(a, p, before, now, wild);
    }
  }

  lemma TickOn(a: Keyframes, p: Told<Keyframes>, before: int, now: int, wild: int)
    requires IsFresh(a) && Progress(a, before) <= Progress(a, now) < a.count as real
    requires p == Told(if Progress(a, before) < 0.0 then a else a.(started := true, emitted := Complete(a, before)),
                       ToldBy(a, before))
    ensures TickAlone(p.it, now, wild).it ==
            if Progress(a, now) < 0.0 then a else a.(started := true, emitted := Complete(a, now))
    ensures p.events + TickAlone(p.it, now, wild).events == ToldBy(a, now)
  {
    assert Elapsed(p.it, now) == Elapsed(a, now);
    TickBeforeEnd(p.it, now, wild);
    if Progress(a, before) >= 0.0 {
      var i, k := Complete(a, before), Complete(a, now);
      Continued(a, i, k);
    }
  }

  lemma Continued(a: Keyframes, i: int, k: int)
    requires 0 <= i <= k
    ensures [StartOf(a)] + IterationsOf(a, 0, i) + IterationsOf(a, i, k) == [StartOf(a)] + IterationsOf(a, 0, k)
  {
    IterationsMeet(Named(a), a.timing.duration, 0, i, k);
    assert [StartOf(a)] + IterationsOf(a, 0, i) + IterationsOf(a, i, k) ==
           [StartOf(a)] + (IterationsOf(a, 0, i) + IterationsOf(a, i, k));
  }

  // ---------- past the end ----------

  /** All ticks come before the end. */
  predicate AllBefore(a: Keyframes, times: seq<int>)
    requires a.timing.duration > 0.0
  {
    InOrder(times) && (times != [] ==> Progress(a, times[|times| - 1]) < a.count as real)
  }

  /** The iterations that ticks before the end have told */
  function ToldBefore(a: Keyframes, times: seq<int>): int
    requires a.timing.duration > 0.0
  {
    if times == [] then 0 else Complete(a, times[|times| - 1])
  }

  function Max(i: int, j: int): int {
    if i < j then j else i
  }

  lemma FirstPastEnd(a: Keyframes, before: seq<int>, now: int, wild: int)
    requires IsFresh(a) && AllBefore(a, before) && Progress(a, now) >= a.count as real && a.count <= MAX_ITERATION
    ensures 0 <= ToldBefore(a, before) < a.count
    ensures Ticks(a, before + [now], wild) ==
            Told(a.(active := false, started := false, emitted := 0),
                 [StartOf(a)] + IterationsOf(a, 0, Max(ToldBefore(a, before), Reached(a, now, wild))) + [EndOf(a)])
  {
    var p, e, r := Ticks(a, before, wild), ToldBefore(a, before), Reached(a, now, wild);
    assert (before + [now])[..|before|] == before;
    if before != [] {
      TicksBeforeEnd(a, before, wild);
      CompleteIsBelow(a, before[|before| - 1]);
    }
    assert Elapsed(p.it, now) == Elapsed(a, now);
    TickAtEnd(p.it, now, wild);
    var t := TickAlone(p.it, now, wild);
    Joined(a, p.it.started, e, r, p.events, t.events);
  }

  lemma CompleteIsBelow(a: Keyframes, now: int)
    requires a.timing.duration > 0.0 && Progress(a, now) < a.count as real && 0 < a.count
    ensures 0 <= Complete(a, now) < a.count
  {
  }

  lemma Joined(a: Keyframes, started: bool, e: int, r: int, before: seq<Event>, last: seq<Event>)
    requires 0 <= e && (!started ==> e == 0)
    requires before == if started then [StartOf(a)] + IterationsOf(a, 0, e) else []
    requires last == (if started then [] else [StartOf(a)]) + IterationsOf(a, e, r) + [EndOf(a)]
    ensures before + last == [StartOf(a)] + IterationsOf(a, 0, Max(e, r)) + [EndOf(a)]
  {
    var s, done, rest, end := [StartOf(a)], IterationsOf(a, 0, e), IterationsOf(a, e, r), [EndOf(a)];
    IterationsMeet(Named(a), a.timing.duration, 0, e, Max(e, r));
    assert rest == IterationsOf(a, e, Max(e, r));
    if started {
      assert s + done + ([] + rest + end) == s + (done + rest) + end;
    } else {
      assert [] + (s + rest + end) == s + rest + end;
    }
  }

  /** After the end nothing more is told. */
  lemma {:induction false} TicksAfterEnd(a: Keyframes, times: seq<int>, after: seq<int>, wild: int)
    requires !Ticks(a, times, wild).it.active
    ensures Ticks(a, times + after, wild) == Ticks(a, times, wild)
  {
    if after == [] {
      assert times + after == times;
    } else {
      var n := |after| - 1;
      assert (times + after)[..|times| + n] == times + after[..n];
      TicksAfterEnd(a, times, after[..n], wild);
    }
  }

  /** However coarse the ticks, a fresh animation that ends tells one start, every iteration but the last in order,
      and one end: exactly when the ticks are not so coarse that the first one past the end finds more iterations
      than an int can hold, or the machine then gives a number that is large enough, or all have been told. */
  lemma ToldExactly(a: Keyframes, before: seq<int>, now: int, after: seq<int>, wild: int)
    requires IsFresh(a) && AllBefore(a, before) && Progress(a, now) >= a.count as real && a.count <= MAX_ITERATION
    ensures var r := Ticks(a, before + [now] + after, wild);
            && !r.it.active
            && (r.events == Exact(a) <==>
                Progress(a, now) < INT_LIMIT as real || wild >= a.count - 1 || ToldBefore(a, before) == a.count - 1)
  {
    FirstPastEnd(a, before, now, wild);
    TicksAfterEnd(a, before + [now], after, wild);
    ExactIs(a);
    var m := Max(ToldBefore(a, before), Reached(a, now, wild));
    var r := Ticks(a, before + [now] + after, wild);
    assert m == a.count - 1 <==>
           Progress(a, now) < INT_LIMIT as real || wild >= a.count - 1 || ToldBefore(a, before) == a.count - 1 by {
      ReachedAtEnd(a, now, wild);
    }
    assert |r.events| == m + 2;
    assert |Exact(a)| == a.count + 1;
  }

  lemma ReachedAtEnd(a: Keyframes, now: int, wild: int)
    requires IsFresh(a) && Progress(a, now) >= a.count as real
    ensures Reached(a, now, wild) <= a.count - 1
    ensures Reached(a, now, wild) == a.count - 1 <==> Progress(a, now) < INT_LIMIT as real || wild >= a.count - 1
  {
  }

  /** An animation with more iterations than the cut-off never ends, whenever it is ticked. */
  lemma {:induction false} NeverEnds(a: Keyframes, times: seq<int>, wild: int)
    requires IsRunning(a) && a.count > MAX_ITERATION
    ensures var r := Ticks(a, times, wild);
            r.it.active && r.it == a.(started := r.it.started, emitted := r.it.emitted) && EndOf(a) !in r.events
  {
    if times != [] {
      var n := |times| - 1;
      NeverEnds(a, times[..n], wild);
      var p := Ticks(a, times[..n], wild);
      assert EndOf(p.it) == EndOf(a);
      GoesOn(p.it, times[n], wild);
    }
  }

  lemma GoesOn(a: Keyframes, now: int, wild: int)
    requires IsRunning(a) && a.count > MAX_ITERATION
    ensures var t := TickAlone(a, now, wild);
            t.it == a.(started := t.it.started, emitted := t.it.emitted) && EndOf(a) !in t.events
  {
    if Progress(a, now) < a.count as real { NotOver(a, now); } else { Over(a, now); }
    var begun := TellStart(a, now);
    var going := TellIterations(begun.it, now, wild);
    NoEndAmong(Named(a), a.timing.duration, begun.it.emitted, Reached(begun.it, now, wild));
    assert EndOf(a).kind.AnimationEnd?;
    assert TickAlone(a, now, wild) == Told(going.it, begun.events + going.events + []);
  }

  lemma {:induction false} NoEndAmong(name: string, d: real, from: int, upTo: int)
    ensures forall e :: e in Iterations(name, d, from, upTo) ==> e.kind.AnimationIteration?
    decreases upTo - from
  {
    if from < upTo { NoEndAmong(name, d, from + 1, upTo); }
  }

  /** A tick so late that the iterations do not fit an int, on a machine that then gives the least int: the one
      iteration event is missing. */
  lemma LateTick()
    ensures var a := Keyframes(true, Some("a"), 0, Timing(1.0, 0.0), 2, false, 0.0, false, 0);
            IsFresh(a) && Ticks(a, [2147483648000], -INT_LIMIT).events != Exact(a)
  {
    var a := Keyframes(true, Some("a"), 0, Timing(1.0, 0.0), 2, false, 0.0, false, 0);
    var now := 2147483648000;
    assert Elapsed(a, now) == 2147483648.0;
    assert Progress(a, now) == 2147483648.0;
    ToldExactly(a, [], now, [], -INT_LIMIT);
    assert [] + [now] + [] == [now];
  }

  // ---------- pausing ----------

  /** The entry of a style that goes on with the animation, paused or not */
  predicate GoesOnWith(a: Keyframes, e: Entry) {
    a.active && a.name.Some? && a.name == e.name && a.timing.duration == e.timing.duration && e.timing.duration > 0.0
  }

  lemma TruncateWhole(k: int)
    ensures Truncate(k as real) == k
  {
    if k < 0 { assert (-(k as real)) == (-k) as real; }
  }

  /** Paused at one time and resumed at another, an animation goes on as if the time between had not passed, exactly
      if its delay was over when it was paused or ended within that microsecond. */
  lemma PauseShifts(a: Keyframes, stop: Entry, go: Entry, p: int, r: int, now: int, count: int)
    requires GoesOnWith(a, stop) && GoesOnWith(a, go) && !a.paused && stop.paused && !go.paused
    ensures var paused := ObserveAnimation(a, Some(stop), false, count, p).it;
            var resumed := ObserveAnimation(paused, Some(go), false, count, r).it;
            && (forall t :: Elapsed(paused, t) == if Elapsed(a, p) > 0.0 then Elapsed(a, p) else 0.0)
            && (Elapsed(resumed, now) == Elapsed(a, now - (r - p)) <==>
                Elapsed(a, p) >= 0.0 || p - a.start == Truncate(a.timing.delay * 1000.0))
  {
    var paused := Pause(a, p);
    var e := Since(a.start, a.timing.delay, p);
    TruncateWhole(p - a.start);
    if e >= 0.0 {
      assert (paused.base + a.timing.delay) * 1000.0 == (p - a.start) as real;
    } else {
      assert (paused.base + a.timing.delay) * 1000.0 == a.timing.delay * 1000.0;
    }
  }

  /** Paused in its delay, it begins when it is resumed. */
  lemma DelayIsLost(a: Keyframes, stop: Entry, go: Entry, p: int, r: int, count: int)
    requires GoesOnWith(a, stop) && GoesOnWith(a, go) && !a.paused && stop.paused && !go.paused && Elapsed(a, p) < 0.0
    ensures var paused := ObserveAnimation(a, Some(stop), false, count, p).it;
            var resumed := ObserveAnimation(paused, Some(go), false, count, r).it;
            -0.001 < Elapsed(resumed, r) < 0.001
  {
    var x := a.timing.delay * 1000.0;
    assert x - 1.0 < Truncate(x) as real < x + 1.0;
  }
}
