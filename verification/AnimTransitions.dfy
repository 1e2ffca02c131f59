/**
 The transitions of one element (src/anim.c): when a style starts them, and that each sends one event, at the first
 tick at which its delay and its duration are over.
 */
module AnimTransitions {
  import opened Common
  import opened AnimSteps
  import opened Animations
  import opened AnimEvents
  import opened AnimRuns

  // ---------- the channels of a state ----------

  predicate IsNamed(name: string) {
    name == "opacity" || name == "transform" || name == "color" || name == "background-color"
  }

  /** Every channel has its own name. */
  ghost predicate NamesApart(s: State) {
    OthersApart(s.generic) && forall i :: 0 <= i < |s.generic| ==> !IsNamed(s.generic[i].prop)
  }

  ghost predicate OthersApart(gs: seq<Generic>) {
    forall i, j :: 0 <= i < j < |gs| ==> gs[i].prop != gs[j].prop
  }

  /** The channel of a property, idle if there is none yet */
  function ChannelOf(s: State, name: string): Channel {
    if name == "opacity" then s.opacity
    else if name == "transform" then s.transform
    else if name == "color" then s.color
    else if name == "background-color" then s.background
    else OtherChannel(s.generic, name)
  }

  function OtherChannel(gs: seq<Generic>, name: string): Channel {
    if gs == [] then Idle() else if gs[0].prop == name then gs[0].channel else OtherChannel(gs[1..], name)
  }

  /** The ends of transitions of a property among some events */
  function EndsOf(events: seq<Event>, name: string): seq<Event> {
    if events == [] then []
    else
      var rest := EndsOf(events[1..], name);
      if events[0].kind.TransitionEnd? && events[0].name == name then [events[0]] + rest else rest
  }

  lemma {:induction false} EndsOfMore(a: seq<Event>, b: seq<Event>, name: string)
    ensures EndsOf(a + b, name) == EndsOf(a, name) + EndsOf(b, name)
  {
    if a == [] {
      assert a + b == b;
    } else {
      assert a + b == [a[0]] + (a[1..] + b);
      EndsOfMore(a[1..], b, name);
    }
  }

  // ---------- one tick ----------

  /** The time at which a transition is over, in microseconds, has come. */
  predicate IsDue(ch: Channel, now: int) {
    now as real >= ch.start as real + (ch.timing.delay + ch.timing.duration) * 1000.0
  }

  /** A transition that observing a style has started */
  predicate Lasts(ch: Channel) {
    ch.active ==> ch.timing.duration > 0.0
  }

  function Ended(ch: Channel, now: int): Channel {
    if ch.active && IsDue(ch, now) then ch.(active := false) else ch
  }

  function EndsAt(ch: Channel, name: string, now: int): seq<Event> {
    if ch.active && IsDue(ch, now) then [Event(TransitionEnd, name, ch.timing.duration)] else []
  }

  lemma AdvanceEnds(ch: Channel, count: int, now: int)
    requires Lasts(ch)
    ensures AdvanceChannel(ch, count, now).it == Ended(ch, now) && AdvanceGeneric(ch, count, now).it == Ended(ch, now)
  {
  }

  /** What observing keeps of every transition: a duration, and a name of its own */
  ghost predicate Orderly(s: State) {
    && NamesApart(s) && Lasts(s.opacity) && Lasts(s.transform) && Lasts(s.color) && Lasts(s.background)
    && OthersLast(s.generic)
  }

  ghost predicate OthersLast(gs: seq<Generic>) {
    forall i :: 0 <= i < |gs| ==> Lasts(gs[i].channel)
  }

  lemma {:induction false} NoSuchOther(gs: seq<Generic>, name: string)
    requires forall i :: 0 <= i < |gs| ==> gs[i].prop != name
    ensures OtherChannel(gs, name) == Idle()
  {
    if gs != [] { NoSuchOther(gs[1..], name); }
  }

  /** The same properties as before */
  predicate SameProps(gs: seq<Generic>, hs: seq<Generic>) {
    |gs| == |hs| && forall i :: 0 <= i < |gs| ==> gs[i].prop == hs[i].prop
  }

  lemma {:induction false} GenericsTick(gs: seq<Generic>, count: int, now: int, name: string, r: Counted<Told<seq<Generic>>>)
    requires r == TickGenerics(gs, count, now) && OthersApart(gs) && OthersLast(gs)
    ensures SameProps(gs, r.it.it) && OthersLast(r.it.it)
    ensures OtherChannel(r.it.it, name) == Ended(OtherChannel(gs, name), now)
    ensures EndsOf(r.it.events, name) == EndsAt(OtherChannel(gs, name), name, now)
  {
    if gs != [] {
      var ch, prop := gs[0].channel, gs[0].prop;
      var g := AdvanceGeneric(ch, count, now);
      var rest := TickGenerics(gs[1..], g.count, now);
      AdvanceEnds(ch, count, now);
      GenericsTick(gs[1..], g.count, now, name, rest);
      assert r.it.it[1..] == rest.it.it;
      var own := EndsAt(ch, prop, now);
      assert r.it.events == own + rest.it.events;
      EndsOfMore(own, rest.it.events, name);
      EndsOfOne(ch, prop, name, now);
      if prop == name { NoSuchOther(gs[1..], name); }
    }
  }

  lemma EndsOfOne(ch: Channel, prop: string, name: string, now: int)
    ensures EndsOf(EndsAt(ch, prop, now), name) == if prop == name then EndsAt(ch, name, now) else []
  {
    if ch.active && IsDue(ch, now) { assert EndsAt(ch, prop, now)[1..] == []; }
  }

  /** The ends of the four channels that every state has */
  lemma ChannelsTick(s: State, count: int, now: int, name: string, r: Counted<Told<State>>)
    requires r == TickChannels(s, count, now) && Orderly(s)
    ensures r.it.it == s.(opacity := Ended(s.opacity, now), transform := Ended(s.transform, now),
                          color := Ended(s.color, now), background := Ended(s.background, now))
    ensures EndsOf(r.it.events, name) == if IsNamed(name) then EndsAt(ChannelOf(s, name), name, now) else []
  {
    FourEnd(s, count, now, r);
    var a, b, c, d := EndsAt(s.opacity, "opacity", now), EndsAt(s.transform, "transform", now),
                      EndsAt(s.color, "color", now), EndsAt(s.background, "background-color", now);
    EndsOfMore(a + b + c, d, name);
    EndsOfMore(a + b, c, name);
    EndsOfMore(a, b, name);
    EndsOfOne(s.opacity, "opacity", name, now);
    EndsOfOne(s.transform, "transform", name, now);
    EndsOfOne(s.color, "color", name, now);
    EndsOfOne(s.background, "background-color", name, now);
  }

  lemma FourEnd(s: State, count: int, now: int, r: Counted<Told<State>>)
    requires r == TickChannels(s, count, now) && Orderly(s)
    ensures r.it.it == s.(opacity := Ended(s.opacity, now), transform := Ended(s.transform, now),
                          color := Ended(s.color, now), background := Ended(s.background, now))
    ensures r.it.events == EndsAt(s.opacity, "opacity", now) + EndsAt(s.transform, "transform", now) +
                           EndsAt(s.color, "color", now) + EndsAt(s.background, "background-color", now)
  {
    var opacity := AdvanceChannel(s.opacity, count, now);
    var transform := AdvanceChannel(s.transform, opacity.count, now);
    var color := AdvanceChannel(s.color, transform.count, now);
    AdvanceEnds(s.opacity, count, now);
    AdvanceEnds(s.transform, opacity.count, now);
    AdvanceEnds(s.color, transform.count, now);
    AdvanceEnds(s.background, color.count, now);
  }

  lemma {:induction false} NoTransitionEnds(events: seq<Event>, name: string)
    requires forall e :: e in events ==> !e.kind.TransitionEnd?
    ensures EndsOf(events, name) == []
  {
    if events != [] { NoTransitionEnds(events[1..], name); }
  }

  /** A tick ends exactly the transitions that are due and sends one event for each. */
  lemma StateTicks(s: State, now: int, wild: int, name: string)
    requires Orderly(s)
    ensures var t := TickedState(s, now, wild); Orderly(t) && ChannelOf(t, name) == Ended(ChannelOf(s, name), now)
    ensures EndsOf(TickedEvents(s, now, wild), name) == EndsAt(ChannelOf(s, name), name, now)
  {
    var channels := TickChannels(s, 0, now);
    var animation := TickAnimation(s.animation, channels.count, now, wild);
    var own := TickAlone(s.animation, now, wild).events;
    var generic := TickGenerics(s.generic, animation.count, now);
    TickedAlone(s, now, wild);
    ChannelsTick(s, 0, now, name, channels);
    GenericsTick(s.generic, animation.count, now, name, generic);
    AnimationTellsKeyframes(s.animation, now, wild);
    NoTransitionEnds(own, name);
    EndsOfMore(channels.it.events, own, name);
    EndsOfMore(channels.it.events + own, generic.it.events, name);
    if IsNamed(name) { NoSuchOther(s.generic, name); }
  }

  // ---------- runs ----------

  predicate AnyDue(ch: Channel, times: seq<int>) {
    exists i :: 0 <= i < |times| && IsDue(ch, times[i])
  }

  lemma {:induction false} InactiveOther(gs: seq<Generic>, name: string)
    requires forall i :: 0 <= i < |gs| ==> !gs[i].channel.active
    ensures !OtherChannel(gs, name).active
  {
    if gs != [] { InactiveOther(gs[1..], name); }
  }

  /** What a tick of the animator does to one transition of one element */
  lemma ClockEnds(n: Node, a: World, b: World, now: int, wild: int, name: string)
    requires Sound(a) && n in a.states && n in b.states && NodeAfterTick(a, b, now, wild, n) && Orderly(a.states[n])
    ensures var ch := ChannelOf(a.states[n], name);
            && Orderly(b.states[n]) && ChannelOf(b.states[n], name) == Ended(ch, now)
            && EndsOf(EventsOf(b.events, n), name) == EndsOf(EventsOf(a.events, n), name) + EndsAt(ch, name, now)
  {
    var s := a.states[n];
    if n in a.active {
      StateTicks(s, now, wild, name);
      EndsOfMore(EventsOf(a.events, n), TickedEvents(s, now, wild), name);
    } else {
      InactiveOther(s.generic, name);
    }
  }

  /** The transition, and what it has sent, when these ticks have passed */
  ghost predicate HasSent(n: Node, first: seq<Event>, w: World, name: string, ch: Channel, times: seq<int>)
    requires n in w.states
  {
    && ChannelOf(w.states[n], name) == (if AnyDue(ch, times) then ch.(active := false) else ch)
    && EndsOf(EventsOf(w.events, n), name) ==
       first + if AnyDue(ch, times) then [Event(TransitionEnd, name, ch.timing.duration)] else []
  }

  lemma OneMoreDue(ch: Channel, times: seq<int>, now: int)
    ensures AnyDue(ch, times + [now]) <==> AnyDue(ch, times) || IsDue(ch, now)
  {
    if AnyDue(ch, times) {
      var i :| 0 <= i < |times| && IsDue(ch, times[i]);
      assert (times + [now])[i] == times[i];
    }
    assert (times + [now])[|times|] == now;
  }

  lemma ClockSends(n: Node, a: World, b: World, now: int, wild: int, name: string, first: seq<Event>, ch: Channel,
                   times: seq<int>)
    requires Sound(a) && n in a.states && n in b.states && NodeAfterTick(a, b, now, wild, n) && Orderly(a.states[n])
    requires ch.active && HasSent(n, first, a, name, ch, times)
    ensures Orderly(b.states[n]) && HasSent(n, first, b, name, ch, times + [now])
  {
    ClockEnds(n, a, b, now, wild, name);
    OneMoreDue(ch, times, now);
  }

  lemma {:induction false} RunSends(n: Node, ws: seq<World>, steps: seq<Step>, wild: int, k: nat, name: string, ch: Channel)
    requires RunFor(n, ws, steps, wild) && k <= |steps| && Orderly(ws[0].states[n])
    requires ch == ChannelOf(ws[0].states[n], name) && ch.active
    ensures Orderly(ws[k].states[n])
    ensures HasSent(n, EndsOf(EventsOf(ws[0].events, n), name), ws[k], name, ch, Times(steps[..k]))
    decreases k
  {
    var first := EndsOf(EventsOf(ws[0].events, n), name);
    if k == 0 {
      assert first + [] == first;
    } else {
      RunSends(n, ws, steps, wild, k - 1, name, ch);
      assert StepFor(n, ws[k - 1], steps[k - 1], ws[k], wild);
      NextTimes(steps, k - 1);
      if steps[k - 1].Clock? {
        ClockSends(n, ws[k - 1], ws[k], steps[k - 1].now, wild, name, first, ch, Times(steps[..k - 1]));
      }
    }
  }

  /** However the clock ticks, and whatever other elements do: at every point of a run a transition has sent nothing and
      goes on, as long as no tick has come at or after its end, and else it has sent exactly one event, with its
      duration, and is over.  So it ends at the first such tick. */
  lemma TransitionTells(n: Node, ws: seq<World>, steps: seq<Step>, wild: int, name: string)
    requires RunFor(n, ws, steps, wild) && Orderly(ws[0].states[n]) && ChannelOf(ws[0].states[n], name).active
    ensures var ch, first := ChannelOf(ws[0].states[n], name), EndsOf(EventsOf(ws[0].events, n), name);
            forall k :: 0 <= k <= |steps| ==> HasSent(n, first, ws[k], name, ch, Times(steps[..k]))
  {
    forall k | 0 <= k <= |steps|
      ensures HasSent(n, EndsOf(EventsOf(ws[0].events, n), name), ws[k], name, ChannelOf(ws[0].states[n], name), Times(steps[..k]))
    {
      RunSends(n, ws, steps, wild, k, name, ChannelOf(ws[0].states[n], name));
    }
  }

  // ---------- observing ----------

  /** A transition starts if the property has been seen before, is seen again with another value, and has a
      transition with a duration.  Otherwise the channel stays as it is, but for having been seen. */
  function Seen(ch: Channel, sight: Sight, now: int): Channel {
    if sight.present && sight.differs && ch.hasLast && sight.timing.Some? && sight.timing.value.duration > 0.0
    then Channel(true, true, now, sight.timing.value)
    else Channel(ch.active, ch.hasLast || sight.present, ch.start, ch.timing)
  }

  /** What a style says of a property that it names once, or not at all */
  function SightOf(t: Transitions, name: string): Option<Sight> {
    if name == "opacity" then Some(t.opacity)
    else if name == "transform" then Some(t.transform)
    else if name == "color" then Some(t.color)
    else if name == "background-color" then Some(t.background)
    else OtherSight(t.others, name)
  }

  function OtherSight(others: seq<(string, Sight)>, name: string): Option<Sight> {
    if others == [] then None else if others[0].0 == name then Some(others[0].1) else OtherSight(others[1..], name)
  }

  /** A style that names no property twice */
  ghost predicate NamesOnce(t: Transitions) {
    && (forall i :: 0 <= i < |t.others| ==> !IsNamed(t.others[i].0))
    && forall i, j :: 0 <= i < j < |t.others| ==> t.others[i].0 != t.others[j].0
  }

  lemma {:induction false} OneObserved(gs: seq<Generic>, prop: string, sight: Sight, count: int, now: int, name: string,
                                       r: Counted<seq<Generic>>)
    requires r == ObserveGeneric(gs, prop, sight, count, now) && count < MAX_ACTIVE && OthersApart(gs) && OthersLast(gs)
    requires !IsNamed(prop) && forall i :: 0 <= i < |gs| ==> !IsNamed(gs[i].prop)
    ensures OtherChannel(r.it, name) == if name == prop then Seen(OtherChannel(gs, prop), sight, now) else OtherChannel(gs, name)
    ensures OthersApart(r.it) && OthersLast(r.it) && r.count <= count + 1
    ensures forall i :: 0 <= i < |r.it| ==> !IsNamed(r.it[i].prop) && (r.it[i].prop == prop || HasProp(gs, r.it[i].prop))
  {
    if gs != [] && gs[0].prop == prop {
      assert r.it[1..] == gs[1..];
    } else if gs != [] {
      var t := ObserveGeneric(gs[1..], prop, sight, count, now);
      OneObserved(gs[1..], prop, sight, count, now, name, t);
      assert r.it[1..] == t.it;
      PropsApart(gs, prop, t.it, r.it);
    }
  }

  predicate HasProp(gs: seq<Generic>, prop: string) {
    exists i :: 0 <= i < |gs| && gs[i].prop == prop
  }

  lemma PropsApart(gs: seq<Generic>, prop: string, t: seq<Generic>, r: seq<Generic>)
    requires gs != [] && gs[0].prop != prop && OthersApart(gs) && OthersApart(t) && r == [gs[0]] + t
    requires forall i :: 0 <= i < |t| ==> t[i].prop == prop || HasProp(gs[1..], t[i].prop)
    ensures OthersApart(r) && forall i :: 0 <= i < |r| ==> r[i].prop == prop || HasProp(gs, r[i].prop)
  {
    forall i | 0 <= i < |t| && t[i].prop != prop ensures t[i].prop != gs[0].prop && HasProp(gs, t[i].prop) {
      var k :| 0 <= k < |gs[1..]| && gs[1..][k].prop == t[i].prop;
      assert gs[k + 1].prop == t[i].prop;
    }
  }

  lemma {:induction false} OthersObserved(gs: seq<Generic>, others: seq<(string, Sight)>, count: int, now: int, name: string,
                                          r: Counted<seq<Generic>>)
    requires r == ObserveGenerics(gs, others, count, now) && count + |others| <= MAX_ACTIVE && OthersApart(gs) && OthersLast(gs)
    requires forall i :: 0 <= i < |gs| ==> !IsNamed(gs[i].prop)
    requires forall i :: 0 <= i < |others| ==> !IsNamed(others[i].0)
    requires forall i, j :: 0 <= i < j < |others| ==> others[i].0 != others[j].0
    ensures OthersApart(r.it) && OthersLast(r.it) && forall i :: 0 <= i < |r.it| ==> !IsNamed(r.it[i].prop)
    ensures OtherChannel(r.it, name) == match OtherSight(others, name)
                                        case None => OtherChannel(gs, name)
                                        case Some(sight) => Seen(OtherChannel(gs, name), sight, now)
    decreases |others|
  {
    if others != [] {
      var t := ObserveGeneric(gs, others[0].0, others[0].1, count, now);
      OneObserved(gs, others[0].0, others[0].1, count, now, name, t);
      OthersObserved(t.it, others[1..], t.count, now, name, r);
      if others[0].0 == name { NotNamedAgain(others[1..], name); }
    }
  }

  lemma {:induction false} NotNamedAgain(others: seq<(string, Sight)>, name: string)
    requires forall i :: 0 <= i < |others| ==> others[i].0 != name
    ensures OtherSight(others, name) == None
  {
    if others != [] { NotNamedAgain(others[1..], name); }
  }

  lemma ChannelSeen(ch: Channel, sight: Sight, count: int, now: int)
    requires count < MAX_ACTIVE && Lasts(ch)
    ensures var r := ObserveChannel(ch, sight, count, now); r.it == Seen(ch, sight, now) && Lasts(r.it) && r.count <= count + 1
  {
  }

  /** Observing a style starts exactly the transitions that it should, at that time and each for its own property, as
      long as there is room for all of them. */
  lemma StyleSeen(s: State, t: Transitions, count: int, now: int, name: string)
    requires Orderly(s) && NamesOnce(t) && count + 4 + |t.others| <= MAX_ACTIVE
    ensures var r := ObserveTransition(s, t, count, now).it;
            && Orderly(r) && r.animation == s.animation
            && ChannelOf(r, name) == match SightOf(t, name)
                                     case None => ChannelOf(s, name)
                                     case Some(sight) => Seen(ChannelOf(s, name), sight, now)
  {
    var opacity := ObserveChannel(s.opacity, t.opacity, count, now);
    var transform := ObserveChannel(s.transform, t.transform, opacity.count, now);
    var color := ObserveChannel(s.color, t.color, transform.count, now);
    var background := ObserveChannel(s.background, t.background, color.count, now);
    var generic := ObserveGenerics(s.generic, t.others, background.count, now);
    ChannelSeen(s.opacity, t.opacity, count, now);
    ChannelSeen(s.transform, t.transform, opacity.count, now);
    ChannelSeen(s.color, t.color, transform.count, now);
    ChannelSeen(s.background, t.background, color.count, now);
    OthersObserved(s.generic, t.others, background.count, now, name, generic);
  }
}
