/**
 The animations of a document (src/anim.c): a state for each element that has been animatable, the number of active
 channels that they share, the set of states that a tick looks at, and the events that wait to be sent.
 */
module Animations {
  import opened Common
  import opened Totals
  import opened AnimSteps

  type Node = nat

  type States = map<Node, State>

  ghost function Counts(states: States): map<Node, nat> {
    map n | n in states :: Running(states[n])
  }

  /** The active channels of all states */
  ghost function AllRunning(states: States): nat {
    Total(Counts(states))
  }

  lemma RunningWithout(states: States, n: Node)
    requires n in states
    ensures AllRunning(states) == Running(states[n]) + AllRunning(states - {n})
  {
    TotalWithout(Counts(states), n);
    assert Counts(states) - {n} == Counts(states - {n});
  }

  lemma RunningWith(states: States, n: Node, s: State)
    ensures AllRunning(states[n := s]) == Running(s) + AllRunning(states - {n})
  {
    RunningWithout(states[n := s], n);
    assert states[n := s] - {n} == states - {n};
  }

  /** A step of one state that accounts for itself keeps the shared count right. */
  lemma StepIsCounted(states: States, n: Node, count: int, s: State, newCount: int)
    requires count == AllRunning(states) <= MAX_ACTIVE && n in states
    requires Accounts(Running(states[n]), count, Running(s), newCount)
    ensures newCount == AllRunning(states[n := s]) <= MAX_ACTIVE
  {
    RunningWithout(states, n);
    RunningWith(states, n, s);
  }

  /** One state's part of the events */
  function EventsOf(events: seq<(Node, Event)>, n: Node): seq<Event> {
    if events == [] then []
    else if events[0].0 == n then [events[0].1] + EventsOf(events[1..], n)
    else EventsOf(events[1..], n)
  }

  lemma {:induction false} EventsOfMore(events: seq<(Node, Event)>, more: seq<(Node, Event)>, n: Node)
    ensures EventsOf(events + more, n) == EventsOf(events, n) + EventsOf(more, n)
  {
    if events == [] {
      assert events + more == more;
    } else {
      var rest := events[1..] + more;
      assert events + more == [events[0]] + rest;
      EventsOfMore(events[1..], more, n);
      assert EventsOf([events[0]] + rest, n) ==
             if events[0].0 == n then [events[0].1] + EventsOf(rest, n) else EventsOf(rest, n);
    }
  }

  function From(n: Node, events: seq<Event>): seq<(Node, Event)> {
    seq(|events|, i requires 0 <= i < |events| => (n, events[i]))
  }

  lemma {:induction false} EventsOfFrom(n: Node, events: seq<Event>, k: Node)
    ensures EventsOf(From(n, events), k) == if k == n then events else []
  {
    if events != [] {
      EventsOfFrom(n, events[1..], k);
      assert From(n, events)[1..] == From(n, events[1..]);
    }
  }

  lemma RebasedRuns(s: State, base: int)
    ensures Running(Rebased(s, base)) == Running(s)
    ensures IsActive(Rebased(s, base)) <==> IsActive(s)
  {
  }

  lemma RebaseRuns(states: States, all: States, base: int)
    requires all.Keys == states.Keys && forall n :: n in states ==> all[n] == Rebased(states[n], base)
    ensures AllRunning(all) == AllRunning(states)
    ensures forall n :: n in states ==> (IsActive(all[n]) <==> IsActive(states[n]))
  {
    forall n | n in states
      ensures Running(all[n]) == Running(states[n]) && (IsActive(all[n]) <==> IsActive(states[n]))
    {
      RebasedRuns(states[n], base);
    }
    assert Counts(all) == Counts(states);
  }

  /** state_for */
  function StateFor(states: States, n: Node): State {
    if n in states then states[n] else Fresh()
  }

  function TickedState(s: State, now: int, wild: int): State {
    TickState(s, 0, now, wild).it.it
  }

  function TickedEvents(s: State, now: int, wild: int): seq<Event> {
    TickState(s, 0, now, wild).it.events
  }

  lemma {:induction false} GenericsIgnoreCount(gs: seq<Generic>, c: int, d: int, now: int)
    ensures TickGenerics(gs, c, now).it == TickGenerics(gs, d, now).it
  {
    if gs != [] {
      var g, h := AdvanceGeneric(gs[0].channel, c, now), AdvanceGeneric(gs[0].channel, d, now);
      GenericsIgnoreCount(gs[1..], g.count, h.count, now);
    }
  }

  lemma TickIgnoresCount(s: State, c: int, now: int, wild: int)
    ensures TickState(s, c, now, wild).it == Told(TickedState(s, now, wild), TickedEvents(s, now, wild))
  {
    var ch, dh := TickChannels(s, c, now), TickChannels(s, 0, now);
    var a, b := TickAnimation(s.animation, ch.count, now, wild), TickAnimation(s.animation, dh.count, now, wild);
    GenericsIgnoreCount(s.generic, a.count, b.count, now);
  }

  // ---------- a tick of many states ----------

  datatype World = World(states: States, active: set<Node>, count: int, events: seq<(Node, Event)>)

  /** The count is that of the active channels and within its limit, and the active set is that of the active
      states. */
  ghost predicate Sound(w: World) {
    w.count == AllRunning(w.states) <= MAX_ACTIVE && ActiveSet(w.states, w.active)
  }

  ghost predicate ActiveSet(states: States, active: set<Node>) {
    (forall n :: n in active ==> n in states && IsActive(states[n])) &&
    forall n :: n in states && IsActive(states[n]) ==> n in active
  }

  function Tracked(w: World, n: Node, s: State, count: int): World {
    w.(states := w.states[n := s], count := count, active := if IsActive(s) then w.active + {n} else w.active - {n})
  }

  /** A step of one state, with what it does to the count, and anim_track */
  lemma ChangeIsSound(w: World, n: Node, s: State, count: int)
    requires Sound(w) && n in w.states && Accounts(Running(w.states[n]), w.count, Running(s), count)
    ensures Sound(Tracked(w, n, s, count))
  {
    StepIsCounted(w.states, n, w.count, s, count);
  }

  lemma AddedIsSound(w: World, n: Node)
    requires Sound(w) && n !in w.states
    ensures Sound(w.(states := w.states[n := Fresh()]))
  {
    AddedRuns(w.states, n, Fresh());
    AddedInactive(w.states, w.active, n, Fresh());
  }

  lemma AddedRuns(states: States, n: Node, s: State)
    requires n !in states && Running(s) == 0
    ensures AllRunning(states[n := s]) == AllRunning(states)
  {
    RunningWith(states, n, s);
    assert states - {n} == states;
  }

  lemma AddedInactive(states: States, active: set<Node>, n: Node, s: State)
    requires ActiveSet(states, active) && n !in states && !IsActive(s)
    ensures ActiveSet(states[n := s], active)
  {
  }

  function TickNode(w: World, n: Node, now: int, wild: int): World
    requires n in w.states
  {
    var r := TickState(w.states[n], w.count, now, wild);
    Tracked(w, n, r.it.it, r.count).(events := w.events + From(n, r.it.events))
  }

  /** Several states ticked one after the other */
  function TickNodes(w: World, order: seq<Node>, now: int, wild: int): (r: World)
    requires forall n :: n in order ==> n in w.states
    ensures r.states.Keys == w.states.Keys
  {
    if order == [] then w
    else TickNode(TickNodes(w, order[..|order| - 1], now, wild), order[|order| - 1], now, wild)
  }

  lemma OneMoreNode(w: World, order: seq<Node>, n: Node, now: int, wild: int, p: World, r: World)
    requires (forall k :: k in order ==> k in w.states) && n in w.states && p == TickNodes(w, order, now, wild)
    requires r == TickNode(p, n, now, wild)
    ensures (forall k :: k in order + [n] ==> k in w.states) && r == TickNodes(w, order + [n], now, wild)
  {
    var more := order + [n];
    OneMoreIn(order, n, w.states.Keys);
    assert forall k :: k in more ==> k in w.states;
    assert more != [] && more[..|more| - 1] == order && more[|more| - 1] == n;
    assert TickNodes(w, more, now, wild) == TickNode(p, n, now, wild);
  }

  lemma OneMoreIn(order: seq<Node>, n: Node, all: set<Node>)
    requires (forall k :: k in order ==> k in all) && n in all
    ensures forall k :: k in order + [n] ==> k in all
  {
  }

  lemma NodeKeepsSound(w: World, n: Node, now: int, wild: int, r: World)
    requires Sound(w) && n in w.states && r == TickNode(w, n, now, wild)
    ensures Sound(r)
  {
    RunningWithout(w.states, n);
    TickAccounts(w.states[n], w.count, now, wild);
    var t := TickState(w.states[n], w.count, now, wild);
    ChangeIsSound(w, n, t.it.it, t.count);
  }

  function More(events: seq<Event>, ticked: bool, told: seq<Event>): seq<Event> {
    if ticked then events + told else events
  }

  /** `told` is what a tick makes of a state. */
  predicate Tells(s: State, now: int, wild: int, told: Told<State>) {
    told == Told(TickedState(s, now, wild), TickedEvents(s, now, wild))
  }

  lemma NodeTicks(w: World, n: Node, now: int, wild: int, r: World, k: Node, told: Told<State>)
    requires n in w.states && r == TickNode(w, n, now, wild) && (k == n ==> Tells(w.states[n], now, wild, told))
    ensures k in w.states ==> r.states[k] == if k == n then told.it else w.states[k]
    ensures EventsOf(r.events, k) == More(EventsOf(w.events, k), k == n, told.events)
  {
    var t := TickState(w.states[n], w.count, now, wild);
    TickIgnoresCount(w.states[n], w.count, now, wild);
    EventsOfMore(w.events, From(n, t.it.events), k);
    EventsOfFrom(n, t.it.events, k);
  }

  lemma {:induction false} NodesKeepSound(w: World, order: seq<Node>, now: int, wild: int)
    requires Sound(w) && forall n :: n in order ==> n in w.states
    ensures Sound(TickNodes(w, order, now, wild))
  {
    if order != [] {
      var before, n := order[..|order| - 1], order[|order| - 1];
      NodesKeepSound(w, before, now, wild);
      NodeKeepsSound(TickNodes(w, before, now, wild), n, now, wild, TickNodes(w, order, now, wild));
    }
  }

  /** No state is ticked twice. */
  predicate Distinct(order: seq<Node>) {
    forall i, j :: 0 <= i < j < |order| ==> order[i] != order[j]
  }

  /** What becomes of one state, and its events, does not depend on the order. */
  lemma {:induction false} NodesTick(
      w: World, order: seq<Node>, now: int, wild: int, r: World, k: Node, told: Told<State>)
    requires Distinct(order) && (forall n :: n in order ==> n in w.states) && r == TickNodes(w, order, now, wild)
    requires k in w.states ==> Tells(w.states[k], now, wild, told)
    ensures k in w.states ==> r.states[k] == if k in order then told.it else w.states[k]
    ensures EventsOf(r.events, k) == More(EventsOf(w.events, k), k in order, told.events)
  {
    if order != [] {
      var before, n := order[..|order| - 1], order[|order| - 1];
      var p := TickNodes(w, before, now, wild);
      NodesTick(w, before, now, wild, p, k, told);
      assert k in order <==> k in before || k == n;
      assert k == n ==> k !in before;
      NodeTicks(p, n, now, wild, r, k, told);
    }
  }

  /** What a tick makes of one state and of its part of the events: something if the state was in the active set */
  ghost predicate NodeAfterTick(a: World, b: World, now: int, wild: int, n: Node)
    requires n in a.states && n in b.states
  {
    if n in a.active
    then b.states[n] == TickedState(a.states[n], now, wild) &&
         EventsOf(b.events, n) == EventsOf(a.events, n) + TickedEvents(a.states[n], now, wild)
    else b.states[n] == a.states[n] && EventsOf(b.events, n) == EventsOf(a.events, n)
  }

  ghost predicate AfterTick(a: World, b: World, now: int, wild: int) {
    a.states.Keys == b.states.Keys && forall n :: n in a.states ==> NodeAfterTick(a, b, now, wild, n)
  }

  class Animator {
    var states: States
    var active: set<Node>
    var count: int
    var events: seq<(Node, Event)>

    constructor ()
      ensures Valid() && states == map[] && events == []
    {
      states, active, count, events := map[], {}, 0, [];
    }

    ghost function Value(): World
      reads this
    {
      World(states, active, count, events)
    }

    ghost predicate Valid()
      reads this
    {
      Sound(Value())
    }

    /** ns_anim_observe */
    method Observe(n: Node, style: Style, now: int)
      requires Valid()
      modifies this
      ensures Valid() && events == old(events)
      ensures if n !in old(states) && style.transition.None? && style.animation.None? then states == old(states)
              else states == old(states)[n := ObserveState(StateFor(old(states), n), style, old(count), now).it]
    {
      if n !in states {
        if style.transition.None? && style.animation.None? { return; }
        AddState(n);
      }
      ObserveStyle(n, style, now);
    }

    /** state_for, for an element that has no state */
    method AddState(n: Node)
      requires Valid() && n !in states
      modifies this`states
      ensures Valid() && states == old(states)[n := Fresh()]
    {
      AddedIsSound(Value(), n);
      states := states[n := Fresh()];
    }

    method ObserveStyle(n: Node, style: Style, now: int)
      requires Valid() && n in states
      modifies this
      ensures Valid() && events == old(events)
      ensures states == old(states)[n := ObserveState(StateFor(old(states), n), style, old(count), now).it]
    {
      RunningWithout(states, n);
      ObserveAccounts(states[n], style, count, now);
      var r := ObserveState(states[n], style, count, now);
      ChangeIsSound(Value(), n, r.it, r.count);
      states, count := states[n := r.it], r.count;
      Track(n);
    }

    /** anim_track */
    method Track(n: Node)
      requires n in states
      modifies this`active
      ensures active == if IsActive(states[n]) then old(active) + {n} else old(active) - {n}
    {
      active := if IsActive(states[n]) then active + {n} else active - {n};
    }

    /** ns_anim_tick, with the states in whatever order the set is iterated */
    method Tick(now: int, wild: int)
      requires Valid()
      modifies this
      ensures Valid() && AfterTick(old(Value()), Value(), now, wild)
    {
      ghost var order := TickAll(now, wild);
      NodesKeepSound(old(Value()), order, now, wild);
      forall n | n in states ensures NodeAfterTick(old(Value()), Value(), now, wild, n) {
        var told := Told(TickedState(old(states)[n], now, wild), TickedEvents(old(states)[n], now, wild));
        NodesTick(old(Value()), order, now, wild, Value(), n, told);
      }
    }

    method TickAll(now: int, wild: int) returns (ghost order: seq<Node>)
      requires Valid()
      modifies this
      ensures Distinct(order) && forall n :: n in order <==> n in old(active)
      ensures Value() == TickNodes(old(Value()), order, now, wild)
    {
      var rest := active;
      order := [];
      while rest != {}
        invariant rest <= old(active) && Distinct(order)
        invariant forall n :: n in order <==> n in old(active) && n !in rest
        invariant Value() == TickNodes(old(Value()), order, now, wild)
        decreases |rest|
      {
        var n :| n in rest;
        ghost var p := Value();
        TickOne(n, now, wild);
        OneMoreNode(old(Value()), order, n, now, wild, p, Value());
        rest, order := rest - {n}, order + [n];
      }
    }

    method TickOne(n: Node, now: int, wild: int)
      requires n in states
      modifies this
      ensures Value() == TickNode(old(Value()), n, now, wild)
    {
      var r := TickState(states[n], count, now, wild);
      states, count, events := states[n := r.it.it], r.count, events + From(n, r.it.events);
      Track(n);
    }

    /** ns_anim_prune */
    method Prune(live: set<Node>)
      requires Valid()
      modifies this
      ensures Valid() && events == old(events)
      ensures states == map n | n in old(states) && n in live :: old(states)[n]
    {
      ghost var was := states;
      var rest := states.Keys;
      while rest != {}
        invariant Valid() && events == old(events) && rest <= states.Keys <= was.Keys
        invariant forall n :: n in was && (n in rest || n in live) ==> n in states
        invariant forall n :: n in states ==> states[n] == was[n] && (n in rest || n in live)
        decreases |rest|
      {
        var n :| n in rest;
        rest := rest - {n};
        if n !in live { Forget(n); }
      }
    }

    method Forget(n: Node)
      requires Valid() && n in states
      modifies this
      ensures Valid() && events == old(events) && states == old(states) - {n}
    {
      RunningWithout(states, n);
      DropAccounts(states[n], count);
      count := DropState(states[n], count);
      active, states := active - {n}, states - {n};
    }

    /** ns_anim_rebase */
    method Rebase(base: int)
      requires Valid()
      modifies this`states
      ensures Valid() && states == map n | n in old(states) :: Rebased(old(states)[n], base)
    {
      var all := map n | n in states :: Rebased(states[n], base);
      RebaseRuns(states, all, base);
      states := all;
    }

    /** ns_anim_drain_events */
    method Drain() returns (sent: seq<(Node, Event)>)
      requires Valid()
      modifies this`events
      ensures Valid() && sent == old(events) && events == []
    {
      sent, events := events, [];
    }
  }
}
