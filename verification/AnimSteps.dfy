/**
 Transitions and keyframe animations of one element (src/anim.c): what observing a style and a tick of the clock
 do to its channels, to the number of active channels and to the events.

 Times are microseconds, durations and delays milliseconds. The values that are animated are left out: an observed
 value is present or not, and differs from the last one or not.
 */
module AnimSteps {
  import opened Common

  const MAX_ACTIVE := 64
  const MAX_ITERATION := 1000000000

  datatype Timing = Timing(duration: real, delay: real)

  /** A transition of one property */
  datatype Channel = Channel(active: bool, hasLast: bool, start: int, timing: Timing)

  datatype Generic = Generic(prop: string, channel: Channel)

  /** A keyframe animation. `count` is the number of iterations, 0 or less if there is no end to them; `base` is the
      time that had elapsed when it was paused; `started` and `emitted` say which events have been sent. */
  datatype Keyframes = Keyframes(
    active: bool,
    name: Option<string>,
    start: int,
    timing: Timing,
    count: int,
    paused: bool,
    base: real,
    started: bool,
    emitted: int)

  datatype State = State(
    opacity: Channel,
    transform: Channel,
    color: Channel,
    background: Channel,
    generic: seq<Generic>,
    animation: Keyframes)

  /** What a style says of a property: its value is present, differs from the last one, and has a transition */
  datatype Sight = Sight(present: bool, differs: bool, timing: Option<Timing>)

  datatype Entry = Entry(name: Option<string>, timing: Timing, count: int, paused: bool)

  datatype Transitions = Transitions(
    opacity: Sight, transform: Sight, color: Sight, background: Sight, others: seq<(string, Sight)>)

  datatype Style = Style(transition: Option<Transitions>, animation: Option<Entry>, reducedMotion: bool)

  datatype Kind = TransitionEnd | AnimationStart | AnimationIteration | AnimationEnd

  datatype Event = Event(kind: Kind, name: string, elapsed: real)

  function Idle(): Channel {
    Channel(false, false, 0, Timing(0.0, 0.0))
  }

  /** The state of state_for: all zero */
  function Fresh(): State {
    State(Idle(), Idle(), Idle(), Idle(), [],
          Keyframes(false, None, 0, Timing(0.0, 0.0), 0, false, 0.0, false, 0))
  }

  // ---------- the shared count ----------

  function One(b: bool): nat {
    if b then 1 else 0
  }

  function RunningGenerics(gs: seq<Generic>): nat {
    if gs == [] then 0 else One(gs[0].channel.active) + RunningGenerics(gs[1..])
  }

  /** The active channels of a state */
  function Running(s: State): nat {
    RunningChannels(s) + One(s.animation.active) + RunningGenerics(s.generic)
  }

  function RunningChannels(s: State): nat {
    One(s.opacity.active) + One(s.transform.active) + One(s.color.active) + One(s.background.active)
  }

  /** state_is_active: something changes with the time. A paused animation does not, but counts. */
  predicate IsActive(s: State) {
    || s.opacity.active || s.transform.active || s.color.active || s.background.active
    || (s.animation.active && !s.animation.paused)
    || exists i :: 0 <= i < |s.generic| && s.generic[i].channel.active
  }

  /** active_count going down, with its guard */
  function Drop(count: int): int {
    if count > 0 then count - 1 else count
  }

  /** Some part of a state, or all of it, and the shared count */
  datatype Counted<T> = Counted(it: T, count: int)

  // ---------- observing ----------

  predicate Starts(ch: Channel, sight: Sight, count: int) {
    && sight.present && ch.hasLast && sight.differs
    && sight.timing.Some? && sight.timing.value.duration > 0.0
    && (ch.active || count < MAX_ACTIVE)
  }

  /** The part of observe_transition for one property, and observe_color_chan */
  function ObserveChannel(ch: Channel, sight: Sight, count: int, now: int): Counted<Channel> {
    if Starts(ch, sight, count) then
      Counted(Channel(true, true, now, sight.timing.value), if ch.active then count else count + 1)
    else Counted(ch.(hasLast := ch.hasLast || sight.present), count)
  }

  /** observe_generic_chan: the first channel of the property, or a new one at the end */
  function ObserveGeneric(gs: seq<Generic>, prop: string, sight: Sight, count: int, now: int): Counted<seq<Generic>> {
    if gs == [] then
      var r := ObserveChannel(Idle(), sight, count, now);
      Counted([Generic(prop, r.it)], r.count)
    else if gs[0].prop == prop then
      var r := ObserveChannel(gs[0].channel, sight, count, now);
      Counted([Generic(prop, r.it)] + gs[1..], r.count)
    else
      var r := ObserveGeneric(gs[1..], prop, sight, count, now);
      Counted([gs[0]] + r.it, r.count)
  }

  function ObserveGenerics(gs: seq<Generic>, others: seq<(string, Sight)>, count: int, now: int): Counted<seq<Generic>>
    decreases |others|
  {
    if others == [] then Counted(gs, count)
    else
      var r := ObserveGeneric(gs, others[0].0, others[0].1, count, now);
      ObserveGenerics(r.it, others[1..], r.count, now)
  }

  /** observe_transition */
  function ObserveTransition(s: State, t: Transitions, count: int, now: int): Counted<State> {
    var opacity := ObserveChannel(s.opacity, t.opacity, count, now);
    var transform := ObserveChannel(s.transform, t.transform, opacity.count, now);
    var color := ObserveChannel(s.color, t.color, transform.count, now);
    var background := ObserveChannel(s.background, t.background, color.count, now);
    var generic := ObserveGenerics(s.generic, t.others, background.count, now);
    Counted(State(opacity.it, transform.it, color.it, background.it, generic.it, s.animation), generic.count)
  }

  function Truncate(x: real): int {
    if x >= 0.0 then x.Floor else -((-x).Floor)
  }

  function Since(start: int, delay: real, now: int): real {
    (now - start) as real / 1000.0 - delay
  }

  /** The time that an animation has run for */
  function Elapsed(a: Keyframes, now: int): real {
    if a.paused then a.base else Since(a.start, a.timing.delay, now)
  }

  function Pause(a: Keyframes, now: int): Keyframes {
    var e := Since(a.start, a.timing.delay, now);
    a.(paused := true, base := if e > 0.0 then e else 0.0)
  }

  function Resume(a: Keyframes, now: int): Keyframes {
    a.(paused := false, start := now - Truncate((a.base + a.timing.delay) * 1000.0))
  }

  /** observe_animation */
  function ObserveAnimation(a: Keyframes, entry: Option<Entry>, reduced: bool, count: int, now: int)
    : Counted<Keyframes>
  {
    if entry.None? then
      if a.active then Counted(a.(active := false, name := None), Drop(count)) else Counted(a, count)
    else
      var e := entry.value;
      if reduced || e.name.None? || e.timing.duration <= 0.0 then Counted(a, count)
      else if a.active && a.name == e.name && a.timing.duration == e.timing.duration then
        Counted(if e.paused && !a.paused then Pause(a, now)
                else if !e.paused && a.paused then Resume(a, now)
                else a, count)
      else if !a.active && count >= MAX_ACTIVE then Counted(a, count)
      else
        var begun := Keyframes(true, e.name, now, e.timing, e.count, e.paused, 0.0, a.started, a.emitted);
        var c := if a.active then count else count + 1;
        if e.paused then AdvanceAnimation(begun, c, now) else Counted(begun, c)
  }

  /** ns_anim_observe, for an element that has a state */
  function ObserveState(s: State, style: Style, count: int, now: int): Counted<State> {
    var t := if style.transition.None? || style.reducedMotion then Counted(s, count)
             else ObserveTransition(s, style.transition.value, count, now);
    var a := ObserveAnimation(t.it.animation, style.animation, style.reducedMotion, t.count, now);
    Counted(t.it.(animation := a.it), a.count)
  }

  // ---------- a tick ----------

  predicate IsOver(ch: Channel, now: int) {
    Since(ch.start, ch.timing.delay, now) >= ch.timing.duration && Since(ch.start, ch.timing.delay, now) >= 0.0
  }

  /** advance_opacity, advance_transform and advance_color_chan, for a channel that is active */
  function AdvanceChannel(ch: Channel, count: int, now: int): Counted<Channel> {
    if ch.active && IsOver(ch, now) then Counted(ch.(active := false), Drop(count)) else Counted(ch, count)
  }

  /** The iteration that an animation is in, cut off as advance_animation does */
  function Iteration(a: Keyframes, now: int): int {
    var cycle := if a.timing.duration > 0.0 then a.timing.duration else 1.0;
    var i := Elapsed(a, now) / cycle;
    Truncate(if i > MAX_ITERATION as real then MAX_ITERATION as real else i)
  }

  /** advance_animation */
  function AdvanceAnimation(a: Keyframes, count: int, now: int): Counted<Keyframes> {
    if a.name.Some? && Elapsed(a, now) >= 0.0 && a.count > 0 && Iteration(a, now) >= a.count && a.active
    then Counted(a.(active := false), Drop(count))
    else Counted(a, count)
  }

  /** A conversion to int; what it gives when the value does not fit is up to the machine. */
  function ToInt(x: real, wild: int): int {
    if -2147483649.0 < x < 2147483648.0 then Truncate(x) else wild
  }

  /** How many iterations ns_anim_tick takes to be complete */
  function Reached(a: Keyframes, now: int, wild: int): int
    requires a.timing.duration > 0.0
  {
    var r := ToInt(Elapsed(a, now) / a.timing.duration, wild);
    if a.count > 0 && r > a.count - 1 then a.count - 1 else r
  }

  function Named(a: Keyframes): string {
    if a.name.Some? then a.name.value else ""
  }

  /** The iteration events from one number up to another */
  function Iterations(name: string, duration: real, from: int, upTo: int): (r: seq<Event>)
    ensures |r| == if from < upTo then upTo - from else 0
    decreases upTo - from
  {
    if from >= upTo then []
    else [Event(AnimationIteration, name, (from + 1) as real * duration)] + Iterations(name, duration, from + 1, upTo)
  }

  datatype Told<T> = Told(it: T, events: seq<Event>)

  function TellStart(a: Keyframes, now: int): Told<Keyframes> {
    if !a.started && Elapsed(a, now) >= 0.0
    then Told(a.(started := true, emitted := 0), [Event(AnimationStart, Named(a), 0.0)])
    else Told(a, [])
  }

  function TellIterations(a: Keyframes, now: int, wild: int): Told<Keyframes> {
    if a.started && a.timing.duration > 0.0 && a.emitted < Reached(a, now, wild)
    then Told(a.(emitted := Reached(a, now, wild)),
              Iterations(Named(a), a.timing.duration, a.emitted, Reached(a, now, wild)))
    else Told(a, [])
  }

  function EndOf(a: Keyframes): Event {
    Event(AnimationEnd, Named(a), WholeTime(a.timing.duration, a.count))
  }

  function WholeTime(duration: real, count: int): real {
    duration * (if count > 0 then count else 1) as real
  }

  function TellEnd(a: Keyframes): Told<Keyframes> {
    if a.active then Told(a, []) else Told(a.(started := false, emitted := 0), [EndOf(a)])
  }

  /** The events of an animation that was active before the tick */
  function TellAnimation(a: Keyframes, now: int, wild: int): Told<Keyframes> {
    var begun := TellStart(a, now);
    var going := TellIterations(begun.it, now, wild);
    var done := TellEnd(going.it);
    Told(done.it, begun.events + going.events + done.events)
  }

  function TickAnimation(a: Keyframes, count: int, now: int, wild: int): Counted<Told<Keyframes>> {
    if !a.active then Counted(Told(a, []), count)
    else
      var r := AdvanceAnimation(a, count, now);
      Counted(TellAnimation(r.it, now, wild), r.count)
  }

  /** The generic channels have their own test of the end. */
  function AdvanceGeneric(ch: Channel, count: int, now: int): Counted<Channel> {
    if ch.active && Since(ch.start, ch.timing.delay, now) >= ch.timing.duration
    then Counted(ch.(active := false), Drop(count))
    else Counted(ch, count)
  }

  function TickGenerics(gs: seq<Generic>, count: int, now: int): Counted<Told<seq<Generic>>> {
    if gs == [] then Counted(Told([], []), count)
    else
      var g := AdvanceGeneric(gs[0].channel, count, now);
      var ended := gs[0].channel.active && !g.it.active;
      var rest := TickGenerics(gs[1..], g.count, now);
      Counted(Told([gs[0].(channel := g.it)] + rest.it.it, TransitionEnds(ended, gs[0].prop, g.it) + rest.it.events),
              rest.count)
  }

  function TransitionEnds(ended: bool, prop: string, ch: Channel): seq<Event> {
    if ended then [Event(TransitionEnd, prop, ch.timing.duration)] else []
  }

  /** The part of ns_anim_tick for the four channels that every state has */
  function TickChannels(s: State, count: int, now: int): Counted<Told<State>> {
    var opacity := AdvanceChannel(s.opacity, count, now);
    var transform := AdvanceChannel(s.transform, opacity.count, now);
    var color := AdvanceChannel(s.color, transform.count, now);
    var background := AdvanceChannel(s.background, color.count, now);
    Counted(Told(s.(opacity := opacity.it, transform := transform.it, color := color.it, background := background.it),
                 TransitionEnds(s.opacity.active && !opacity.it.active, "opacity", s.opacity) +
                 TransitionEnds(s.transform.active && !transform.it.active, "transform", s.transform) +
                 TransitionEnds(s.color.active && !color.it.active, "color", s.color) +
                 TransitionEnds(s.background.active && !background.it.active, "background-color", s.background)),
            background.count)
  }

  /** What ns_anim_tick does to a state of the active set */
  function TickState(s: State, count: int, now: int, wild: int): Counted<Told<State>> {
    var channels := TickChannels(s, count, now);
    var animation := TickAnimation(s.animation, channels.count, now, wild);
    var generic := TickGenerics(s.generic, animation.count, now);
    Counted(Told(channels.it.it.(generic := generic.it.it, animation := animation.it.it),
                 channels.it.events + animation.it.events + generic.it.events),
            generic.count)
  }

  // ---------- the end of a state ----------

  function DropGenerics(gs: seq<Generic>, count: int): int {
    if gs == [] then count else DropGenerics(gs[1..], DropIf(gs[0].channel.active, count))
  }

  function DropIf(active: bool, count: int): int {
    if active then Drop(count) else count
  }

  /** What ns_anim_prune does to the count for a state that goes */
  function DropState(s: State, count: int): int {
    DropGenerics(s.generic,
                 DropIf(s.animation.active,
                        DropIf(s.background.active,
                               DropIf(s.color.active, DropIf(s.transform.active, DropIf(s.opacity.active, count))))))
  }

  /** ns_anim_rebase, for one state; the generic channels keep their start */
  function Rebased(s: State, base: int): State {
    s.(opacity := s.opacity.(start := base), transform := s.transform.(start := base),
       color := s.color.(start := base), background := s.background.(start := base),
       animation := s.animation.(start := base))
  }

  // ---------- the count is right ----------

  /** A step has changed the count as it has changed the number of active channels, and kept it within the limit. */
  predicate Accounts(before: nat, count: int, after: nat, newCount: int) {
    newCount - after == count - before && (count <= MAX_ACTIVE ==> newCount <= MAX_ACTIVE)
  }

  lemma {:induction false} ObserveGenericAccounts(
      gs: seq<Generic>, prop: string, sight: Sight, count: int, now: int, r: Counted<seq<Generic>>)
    requires r == ObserveGeneric(gs, prop, sight, count, now)
    ensures Accounts(RunningGenerics(gs), count, RunningGenerics(r.it), r.count)
  {
    if gs != [] && gs[0].prop != prop {
      var t := ObserveGeneric(gs[1..], prop, sight, count, now);
      ObserveGenericAccounts(gs[1..], prop, sight, count, now, t);
      assert ([gs[0]] + t.it)[1..] == t.it;
    }
  }

  lemma {:induction false} ObserveGenericsAccounts(
      gs: seq<Generic>, others: seq<(string, Sight)>, count: int, now: int, r: Counted<seq<Generic>>)
    requires r == ObserveGenerics(gs, others, count, now)
    ensures Accounts(RunningGenerics(gs), count, RunningGenerics(r.it), r.count)
    decreases |others|
  {
    if others != [] {
      var t := ObserveGeneric(gs, others[0].0, others[0].1, count, now);
      ObserveGenericAccounts(gs, others[0].0, others[0].1, count, now, t);
      ObserveGenericsAccounts(t.it, others[1..], t.count, now, r);
    }
  }

  /** Observing starts no channel beyond the limit and counts every one that it starts or ends. */
  lemma ObserveAccounts(s: State, style: Style, count: int, now: int)
    requires Running(s) <= count
    ensures var r := ObserveState(s, style, count, now); Accounts(Running(s), count, Running(r.it), r.count)
  {
    if style.transition.Some? && !style.reducedMotion {
      TransitionAccounts(s, style.transition.value, count, now, ObserveTransition(s, style.transition.value, count, now));
    }
  }

  lemma TransitionAccounts(s: State, t: Transitions, count: int, now: int, r: Counted<State>)
    requires r == ObserveTransition(s, t, count, now)
    ensures Accounts(Running(s), count, Running(r.it), r.count) && r.it.animation == s.animation
  {
    var opacity := ObserveChannel(s.opacity, t.opacity, count, now);
    var transform := ObserveChannel(s.transform, t.transform, opacity.count, now);
    var color := ObserveChannel(s.color, t.color, transform.count, now);
    var background := ObserveChannel(s.background, t.background, color.count, now);
    var generic := ObserveGenerics(s.generic, t.others, background.count, now);
    ObserveGenericsAccounts(s.generic, t.others, background.count, now, generic);
  }

  lemma {:induction false} TickGenericsAccounts(
      gs: seq<Generic>, count: int, now: int, r: Counted<Told<seq<Generic>>>)
    requires r == TickGenerics(gs, count, now) && RunningGenerics(gs) <= count
    ensures RunningGenerics(r.it.it) <= RunningGenerics(gs)
    ensures Accounts(RunningGenerics(gs), count, RunningGenerics(r.it.it), r.count)
  {
    if gs != [] {
      var g := AdvanceGeneric(gs[0].channel, count, now);
      var rest := TickGenerics(gs[1..], g.count, now);
      TickGenericsAccounts(gs[1..], g.count, now, rest);
      assert r.it.it[1..] == rest.it.it;
    }
  }

  lemma ChannelsAccount(s: State, count: int, now: int, r: Counted<Told<State>>)
    requires r == TickChannels(s, count, now) && RunningChannels(s) <= count
    ensures Accounts(RunningChannels(s), count, RunningChannels(r.it.it), r.count)
    ensures RunningChannels(r.it.it) <= RunningChannels(s)
    ensures r.it.it.generic == s.generic && r.it.it.animation == s.animation
  {
  }

  lemma AnimationAccounts(a: Keyframes, count: int, now: int, wild: int, r: Counted<Told<Keyframes>>)
    requires r == TickAnimation(a, count, now, wild) && One(a.active) <= count
    ensures Accounts(One(a.active), count, One(r.it.it.active), r.count) && One(r.it.it.active) <= One(a.active)
  {
  }

  /** A tick takes from the count what it ends, and its guards do not bind: they would make this false. */
  lemma TickAccounts(s: State, count: int, now: int, wild: int)
    requires Running(s) <= count
    ensures var r := TickState(s, count, now, wild); Accounts(Running(s), count, Running(r.it.it), r.count)
  {
    var channels := TickChannels(s, count, now);
    ChannelsAccount(s, count, now, channels);
    var animation := TickAnimation(s.animation, channels.count, now, wild);
    AnimationAccounts(s.animation, channels.count, now, wild, animation);
    var generic := TickGenerics(s.generic, animation.count, now);
    TickGenericsAccounts(s.generic, animation.count, now, generic);
  }

  lemma {:induction false} DropGenericsAccounts(gs: seq<Generic>, count: int)
    requires RunningGenerics(gs) <= count
    ensures DropGenerics(gs, count) == count - RunningGenerics(gs)
  {
    if gs != [] { DropGenericsAccounts(gs[1..], DropIf(gs[0].channel.active, count)); }
  }

  lemma DropAccounts(s: State, count: int)
    requires Running(s) <= count
    ensures DropState(s, count) == count - Running(s)
  {
    var c := DropIf(s.animation.active,
                    DropIf(s.background.active,
                           DropIf(s.color.active, DropIf(s.transform.active, DropIf(s.opacity.active, count)))));
    DropGenericsAccounts(s.generic, c);
  }
}
