/**
 Runs of the animator, as one element sees them (src/anim.c): ticks of the clock, and steps that concern other
 elements only. Between the ticks other elements may come and go, start and end.
 */
module AnimRuns {
  import opened Common
  import opened AnimSteps
  import opened Animations
  import opened AnimEvents

  datatype Step = Clock(now: int) | Elsewhere

  /** A tick, or a step that leaves the element's state and events alone */
  ghost predicate StepFor(n: Node, a: World, s: Step, b: World, wild: int) {
    && Sound(a) && n in a.states && n in b.states
    && match s
       case Clock(now) => AfterTick(a, b, now, wild)
       case Elsewhere => b.states[n] == a.states[n] && EventsOf(b.events, n) == EventsOf(a.events, n)
  }

  ghost predicate RunFor(n: Node, ws: seq<World>, steps: seq<Step>, wild: int) {
    && |ws| == |steps| + 1 && (forall i :: 0 <= i < |ws| ==> n in ws[i].states)
    && forall i :: 0 <= i < |steps| ==> StepFor(n, ws[i], steps[i], ws[i + 1], wild)
  }

  /** The times of the ticks */
  function Times(steps: seq<Step>): seq<int> {
    if steps == [] then []
    else
      var n := |steps| - 1;
      Times(steps[..n]) + if steps[n].Clock? then [steps[n].now] else []
  }

  /** The events of keyframe animations */
  function OfKeyframes(events: seq<Event>): seq<Event> {
    if events == [] then []
    else if events[0].kind.TransitionEnd? then OfKeyframes(events[1..])
    else [events[0]] + OfKeyframes(events[1..])
  }

  lemma {:induction false} OfKeyframesMore(a: seq<Event>, b: seq<Event>)
    ensures OfKeyframes(a + b) == OfKeyframes(a) + OfKeyframes(b)
  {
    if a == [] {
      assert a + b == b;
    } else {
      assert a + b == [a[0]] + (a[1..] + b);
      OfKeyframesMore(a[1..], b);
    }
  }

  lemma {:induction false} AllOfKeyframes(events: seq<Event>)
    requires forall e :: e in events ==> !e.kind.TransitionEnd?
    ensures OfKeyframes(events) == events
  {
    if events != [] { AllOfKeyframes(events[1..]); }
  }

  lemma {:induction false} NoneOfKeyframes(events: seq<Event>)
    requires forall e :: e in events ==> e.kind.TransitionEnd?
    ensures OfKeyframes(events) == []
  {
    if events != [] { NoneOfKeyframes(events[1..]); }
  }

  lemma {:induction false} GenericsTellTransitions(gs: seq<Generic>, count: int, now: int)
    ensures forall e :: e in TickGenerics(gs, count, now).it.events ==> e.kind.TransitionEnd?
  {
    if gs != [] { GenericsTellTransitions(gs[1..], AdvanceGeneric(gs[0].channel, count, now).count, now); }
  }

  lemma AnimationTellsKeyframes(a: Keyframes, now: int, wild: int)
    ensures forall e :: e in TickAlone(a, now, wild).events ==> !e.kind.TransitionEnd?
  {
    if a.active {
      var b := AdvanceAnimation(a, 1, now).it;
      var begun := TellStart(b, now);
      if begun.it.timing.duration > 0.0 {
        NoEndAmong(Named(begun.it), begun.it.timing.duration, begun.it.emitted, Reached(begun.it, now, wild));
      }
    }
  }

  /** A tick of a state tells of its keyframe animation what a tick of the animation alone does. */
  lemma TickedKeyframes(s: State, now: int, wild: int)
    ensures OfKeyframes(TickedEvents(s, now, wild)) == TickAlone(s.animation, now, wild).events
    ensures TickedState(s, now, wild).animation == TickAlone(s.animation, now, wild).it
  {
    TickedAlone(s, now, wild);
    var channels := TickChannels(s, 0, now);
    var own := TickAlone(s.animation, now, wild).events;
    var count := TickAnimation(s.animation, channels.count, now, wild).count;
    var others := TickGenerics(s.generic, count, now).it.events;
    NoneOfKeyframes(channels.it.events);
    AnimationTellsKeyframes(s.animation, now, wild);
    AllOfKeyframes(own);
    GenericsTellTransitions(s.generic, count, now);
    NoneOfKeyframes(others);
    OfKeyframesMore(channels.it.events, own);
    OfKeyframesMore(channels.it.events + own, others);
  }

  /** A state that is not in the active set has no animation that a tick would change, unless it is paused. */
  lemma InactiveIsStill(s: State, now: int, wild: int)
    requires !IsActive(s) && !s.animation.paused
    ensures TickAlone(s.animation, now, wild) == Told(s.animation, [])
  {
  }

  lemma TickKeepsPaused(a: Keyframes, now: int, wild: int)
    ensures TickAlone(a, now, wild).it.paused == a.paused
  {
  }

  /** The animation `t.it`, and the events `t.events` told since `first` */
  ghost predicate HasTold(n: Node, first: seq<Event>, w: World, t: Told<Keyframes>)
    requires n in w.states
  {
    && w.states[n].animation == t.it && !t.it.paused
    && OfKeyframes(EventsOf(w.events, n)) == first + t.events
  }

  lemma ClockTells(n: Node, a: World, b: World, first: seq<Event>, p: Told<Keyframes>, now: int, wild: int, t: Told<Keyframes>)
    requires Sound(a) && n in a.states && n in b.states && NodeAfterTick(a, b, now, wild, n)
    requires HasTold(n, first, a, p) && t == TickAlone(p.it, now, wild)
    ensures HasTold(n, first, b, Told(t.it, p.events + t.events))
  {
    var s, told := a.states[n], OfKeyframes(EventsOf(a.events, n));
    TickKeepsPaused(p.it, now, wild);
    if n in a.active {
      TickedKeyframes(s, now, wild);
      OfKeyframesMore(EventsOf(a.events, n), TickedEvents(s, now, wild));
      assert first + p.events + t.events == first + (p.events + t.events);
    } else {
      InactiveIsStill(s, now, wild);
      assert p.events + [] == p.events;
    }
  }

  lemma OneMoreTick(a: Keyframes, times: seq<int>, now: int, wild: int)
    ensures var p := Ticks(a, times, wild);
            var t := TickAlone(p.it, now, wild);
            Ticks(a, times + [now], wild) == Told(t.it, p.events + t.events)
  {
    assert (times + [now])[..|times|] == times;
  }

  /** In every run, the keyframe animation of an element and its events are those of the animation ticked alone. */
  lemma {:induction false} RunTells(n: Node, ws: seq<World>, steps: seq<Step>, wild: int, k: nat, a: Keyframes)
    requires RunFor(n, ws, steps, wild) && a == ws[0].states[n].animation && !a.paused && k <= |steps|
    ensures HasTold(n, OfKeyframes(EventsOf(ws[0].events, n)), ws[k], Ticks(a, Times(steps[..k]), wild))
    decreases k
  {
    var first := OfKeyframes(EventsOf(ws[0].events, n));
    if k == 0 {
      assert first + [] == first;
    } else {
      RunTells(n, ws, steps, wild, k - 1, a);
      assert StepFor(n, ws[k - 1], steps[k - 1], ws[k], wild);
      NextTimes(steps, k - 1);
      if steps[k - 1].Clock? {
        var now, p := steps[k - 1].now, Ticks(a, Times(steps[..k - 1]), wild);
        ClockTells(n, ws[k - 1], ws[k], first, p, now, wild, TickAlone(p.it, now, wild));
        OneMoreTick(a, Times(steps[..k - 1]), now, wild);
      }
    }
  }

  lemma NextTimes(steps: seq<Step>, k: nat)
    requires k < |steps|
    ensures Times(steps[..k + 1]) == Times(steps[..k]) + if steps[k].Clock? then [steps[k].now] else []
    ensures steps[k].Elsewhere? ==> Times(steps[..k + 1]) == Times(steps[..k])
  {
    assert steps[..k + 1][..k] == steps[..k];
  }

  /** However coarse the ticks, and whatever other elements do between them: an element with a fresh keyframe animation
      tells of it exactly one start, every iteration but the last in order, and one end, under the condition of
      ToldExactly, and then it has ended. */
  lemma AnimatorTells(n: Node, ws: seq<World>, steps: seq<Step>, wild: int, before: seq<int>, now: int, after: seq<int>)
    requires RunFor(n, ws, steps, wild) && IsFresh(ws[0].states[n].animation) && Times(steps) == before + [now] + after
    requires var a := ws[0].states[n].animation;
             AllBefore(a, before) && Progress(a, now) >= a.count as real && a.count <= MAX_ITERATION
    ensures var a := ws[0].states[n].animation;
            && !ws[|steps|].states[n].animation.active
            && (OfKeyframes(EventsOf(ws[|steps|].events, n)) == OfKeyframes(EventsOf(ws[0].events, n)) + Exact(a) <==>
                Progress(a, now) < INT_LIMIT as real || wild >= a.count - 1 || ToldBefore(a, before) == a.count - 1)
  {
    var a := ws[0].states[n].animation;
    RunTells(n, ws, steps, wild, |steps|, a);
    assert steps[..|steps|] == steps;
    ToldExactly(a, before, now, after, wild);
    Cancel(OfKeyframes(EventsOf(ws[0].events, n)), Ticks(a, Times(steps), wild).events, Exact(a));
  }

  lemma Cancel(a: seq<Event>, b: seq<Event>, c: seq<Event>)
    ensures a + b == a + c <==> b == c
  {
    if a + b == a + c { assert b == (a + b)[|a|..] == (a + c)[|a|..] == c; }
  }
}
