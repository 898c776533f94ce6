/**
 Leading-edge debounce of rollouts: the first change applies at once, later ones
 wait for a quiet period, bounded by a maximum wait and spaced by a cooldown.
 */
module Debounce {
  import opened Common

  /** Instants and durations, counted from the zero instant that marks an unset field. */
  type Time = nat

  const ZERO: Time := 0

  datatype DebounceConfig = DebounceConfig(cooldown: int, quietPeriod: int, maxWait: int) {

    function Validate(): (r: Result<(), string>)
      ensures r.Ok? <==> 0 < quietPeriod <= maxWait && 0 < cooldown <= maxWait
    {
      if cooldown <= 0 then Err("cooldown must be > 0")
      else if quietPeriod <= 0 then Err("quiet period must be > 0")
      else if maxWait <= 0 then Err("max wait must be > 0")
      else if maxWait < quietPeriod then Err("max wait must be >= quiet period")
      else if maxWait < cooldown then Err("max wait must be >= cooldown")
      else Ok(())
    }
  }

  datatype Reason = Immediate | Cooling | Pending | Quiet | MaxWait | Idle

  datatype Decision = Decision(applyNow: bool, nextAt: Option<Time>, reason: Reason)

  // ---------------------------------------------------------------------------
  // The state machine as a value
  // ---------------------------------------------------------------------------

  datatype State = State(cooldownUntil: Time, pending: bool, debounceStart: Time, lastChange: Time)

  const Initial := State(ZERO, false, ZERO, ZERO)

  predicate Positive(cfg: DebounceConfig)
  {
    cfg.cooldown > 0 && cfg.quietPeriod > 0 && cfg.maxWait > 0
  }

  predicate InCooldown(s: State, at: Time)
  {
    s.cooldownUntil != ZERO && at < s.cooldownUntil
  }

  function NextDue(cfg: DebounceConfig, s: State): (r: (Time, Reason))
    requires Positive(cfg)
  {
    var quietDue, maxDue := s.lastChange + cfg.quietPeriod, s.debounceStart + cfg.maxWait;
    var next := if quietDue < maxDue then quietDue else maxDue;
    (if InCooldown(s, next) then s.cooldownUntil else next, if next == maxDue then MaxWait else Quiet)
  }

  function DueStep(cfg: DebounceConfig, s: State, at: Time): (r: (State, Decision))
    requires Positive(cfg)
  {
    if !s.pending then (s, Decision(false, None, Idle))
    else var (next, reason) := NextDue(cfg, s);
         if at < next then (s, Decision(false, Some(next), Pending))
         else (State(at + cfg.cooldown, false, ZERO, ZERO), Decision(true, None, reason))
  }

  function ChangeStep(cfg: DebounceConfig, s: State, at: Time): (r: (State, Decision))
    requires Positive(cfg)
  {
    var (flushed, due) := DueStep(cfg, s, at);
    if due.applyNow then
      if at == NextDue(cfg, s).0 then (flushed, due)
      else var s' := State(flushed.cooldownUntil, true, at, at);
           (s', Decision(true, Some(NextDue(cfg, s').0), due.reason))
    else if !s.pending && !InCooldown(s, at) then
      (s.(cooldownUntil := at + cfg.cooldown), Decision(true, None, Immediate))
    else
      var start := if !s.pending || at < s.debounceStart then at else s.debounceStart;
      var s' := State(s.cooldownUntil, true, start, at);
      (s', Decision(false, Some(NextDue(cfg, s').0), Cooling))
  }

  // ---------------------------------------------------------------------------
  // The object that is driven by the event loop
  // ---------------------------------------------------------------------------

  class Debouncer {
    const cfg: DebounceConfig
    var cooldownUntil: Time
    var pending: bool
    var debounceStart: Time
    var lastChange: Time

    function Model(): State
      reads this
    {
      State(cooldownUntil, pending, debounceStart, lastChange)
    }

    constructor (cfg: DebounceConfig)
      ensures this.cfg == cfg && Model() == Initial
    {
      this.cfg := cfg;
      cooldownUntil, pending, debounceStart, lastChange := ZERO, false, ZERO, ZERO;
    }

    method RecordChange(at: Time) returns (d: Decision)
      requires Positive(cfg)
      modifies this
      ensures (Model(), d) == ChangeStep(cfg, old(Model()), at)
    {
      if pending {
        var next := NextDue(cfg, Model()).0;
        var due := Due(at);
        if due.applyNow {
          if at == next {
            return due;
          }
          pending, debounceStart, lastChange := true, at, at;
          return Decision(true, Some(NextDue(cfg, Model()).0), due.reason);
        }
      }
      if !pending && !InCooldown(Model(), at) {
        cooldownUntil := at + cfg.cooldown;
        return Decision(true, None, Immediate);
      }
      if !pending {
        pending, debounceStart := true, at;
      } else if at < debounceStart {
        debounceStart := at;
      }
      lastChange := at;
      return Decision(false, Some(NextDue(cfg, Model()).0), Cooling);
    }

    method Due(at: Time) returns (d: Decision)
      requires Positive(cfg)
      modifies this
      ensures (Model(), d) == DueStep(cfg, old(Model()), at)
    {
      if !pending {
        return Decision(false, None, Idle);
      }
      var (next, reason) := NextDue(cfg, Model());
      if at < next {
        return Decision(false, Some(next), Pending);
      }
      pending, debounceStart, lastChange := false, ZERO, ZERO;
      cooldownUntil := at + cfg.cooldown;
      return Decision(true, None, reason);
    }
  }

  method NewDebouncer(cfg: DebounceConfig) returns (r: Result<Debouncer, string>)
    ensures r.Ok? <==> cfg.Validate().Ok?
    ensures r.Ok? ==> fresh(r.value) && r.value.cfg == cfg && r.value.Model() == Initial
    ensures r.Err? ==> r.error == cfg.Validate().error
  {
    match cfg.Validate()
    case Err(e) => return Err(e);
    case Ok(_) =>
      var d := new Debouncer(cfg);
      return Ok(d);
  }

  // ---------------------------------------------------------------------------
  // Runs
  // ---------------------------------------------------------------------------

  datatype Event = Change(at: Time) | Timer(at: Time)

  function Step(cfg: DebounceConfig, s: State, e: Event): (State, Decision)
    requires Positive(cfg)
  {
    if e.Change? then ChangeStep(cfg, s, e.at) else DueStep(cfg, s, e.at)
  }

  /** An apply that covers the change recorded at `change` with the rollout at `apply`. */
  datatype Cover = Cover(change: Time, apply: Time)

  /**
   What an observer of the decisions alone concludes: when the rollouts happened,
   which change each one covers, and which changes are still waiting. An apply
   covers every change recorded so far; one that also schedules a timer leaves out
   the change that triggered it.
   */
  datatype Trace = Trace(state: State, applies: seq<Time>, covered: seq<Cover>, waiting: seq<Time>)

  function Observe(waiting: seq<Time>, e: Event, d: Decision): (r: (seq<Cover>, seq<Time>))
  {
    var all := if e.Change? then waiting + [e.at] else waiting;
    if !d.applyNow then ([], all)
    else if d.nextAt.Some? then
      (seq(|waiting|, i requires 0 <= i < |waiting| => Cover(waiting[i], e.at)), if e.Change? then [e.at] else [])
    else (seq(|all|, i requires 0 <= i < |all| => Cover(all[i], e.at)), [])
  }

  function Run(cfg: DebounceConfig, events: seq<Event>): (t: Trace)
    requires Positive(cfg)
  {
    if events == [] then Trace(Initial, [], [], [])
    else var before := Run(cfg, events[..|events| - 1]);
         var e := events[|events| - 1];
         var (s, d) := Step(cfg, before.state, e);
         var (covers, waiting) := Observe(before.waiting, e, d);
         Trace(s,
               before.applies + if d.applyNow then [e.at] else [],
               before.covered + covers,
               waiting)
  }

  ghost predicate Spaced(cfg: DebounceConfig, applies: seq<Time>, cooldownUntil: Time)
  {
    && (forall i, j :: 0 <= i < j < |applies| ==> applies[i] + cfg.cooldown <= applies[j])
    && cooldownUntil == if applies == [] then ZERO else applies[|applies| - 1] + cfg.cooldown
  }

  /** Rollouts are at least one cooldown apart, whatever times the caller passes. */
  lemma {:induction false} AppliesSpaced(cfg: DebounceConfig, events: seq<Event>)
    requires Positive(cfg)
    ensures Spaced(cfg, Run(cfg, events).applies, Run(cfg, events).state.cooldownUntil)
  {
    if events != [] {
      hide Step, Observe, Spaced;
      AppliesSpaced(cfg, events[..|events| - 1]);
      StepSpaced(cfg, Run(cfg, events[..|events| - 1]), events[|events| - 1]);
    }
  }

  lemma StepSpaced(cfg: DebounceConfig, before: Trace, e: Event)
    requires Positive(cfg) && Spaced(cfg, before.applies, before.state.cooldownUntil)
    ensures var (s, d) := Step(cfg, before.state, e);
            Spaced(cfg, before.applies + if d.applyNow then [e.at] else [], s.cooldownUntil)
  {
    StepRespectsCooldown(cfg, before.state, e, before.applies != []);
    hide Step;
  }

  /** A rollout starts a cooldown; one that is not the first waits for the last cooldown to end. */
  lemma StepRespectsCooldown(cfg: DebounceConfig, s: State, e: Event, appliedBefore: bool)
    requires Positive(cfg)
    requires !appliedBefore ==> s.cooldownUntil == ZERO
    requires appliedBefore ==> s.cooldownUntil != ZERO
    ensures var (s', d) := Step(cfg, s, e);
            && (d.applyNow && appliedBefore ==> e.at >= s.cooldownUntil)
            && s'.cooldownUntil == if d.applyNow then e.at + cfg.cooldown else s.cooldownUntil
  {
  }

  predicate Ordered(events: seq<Event>)
  {
    forall i, j :: 0 <= i < j < |events| ==> events[i].at <= events[j].at
  }

  /** What holds of the fields while time does not run backwards. */
  ghost predicate Tracks(cfg: DebounceConfig, t: Trace, now: Time)
  {
    && (t.state.pending <==> t.waiting != [])
    && (t.waiting != [] ==> t.state.debounceStart == t.waiting[0] && t.state.lastChange == t.waiting[|t.waiting| - 1])
    && (t.waiting != [] ==> t.state.cooldownUntil <= t.waiting[0] + cfg.cooldown)
    && t.state.cooldownUntil <= now + cfg.cooldown
    && (forall i, j :: 0 <= i < j < |t.waiting| ==> t.waiting[i] <= t.waiting[j])
    && (forall i :: 0 <= i < |t.waiting| ==> t.waiting[i] <= now)
  }

  function Now(events: seq<Event>): Time
  {
    if events == [] then ZERO else events[|events| - 1].at
  }

  /** `pending` holds exactly while some recorded change has not been covered by a rollout. */
  lemma {:induction false} PendingTracksWaiting(cfg: DebounceConfig, events: seq<Event>)
    requires Positive(cfg) && Ordered(events)
    ensures Tracks(cfg, Run(cfg, events), Now(events))
  {
    if events != [] {
      hide Tracks, Step, Observe;
      var init, e := events[..|events| - 1], events[|events| - 1];
      PendingTracksWaiting(cfg, init);
      StepTracks(cfg, Run(cfg, init), e, Now(init), Run(cfg, events));
    } else {
      assert Tracks(cfg, Run(cfg, []), ZERO);
    }
  }

  lemma StepTracks(cfg: DebounceConfig, before: Trace, e: Event, now: Time, after: Trace)
    requires Positive(cfg) && Tracks(cfg, before, now) && now <= e.at
    requires var (s, d) := Step(cfg, before.state, e);
             after.state == s && after.waiting == Observe(before.waiting, e, d).1
    ensures Tracks(cfg, after, e.at)
  {
    if e.Change? {
      ChangeTracks(cfg, before, e.at, now, after);
    }
  }

  lemma ChangeTracks(cfg: DebounceConfig, before: Trace, at: Time, now: Time, after: Trace)
    requires Positive(cfg) && Tracks(cfg, before, now) && now <= at
    requires var (s, d) := ChangeStep(cfg, before.state, at);
             after.state == s && after.waiting == Observe(before.waiting, Change(at), d).1
    ensures Tracks(cfg, after, at)
  {
    var (s, d) := ChangeStep(cfg, before.state, at);
    assert after.waiting == if !d.applyNow then before.waiting + [at] else if d.nextAt.Some? then [at] else [];
    hide Observe;
  }

  function ChangeTimes(events: seq<Event>): seq<Time>
  {
    if events == [] then []
    else ChangeTimes(events[..|events| - 1]) + if events[|events| - 1].Change? then [events[|events| - 1].at] else []
  }

  function Changes(covers: seq<Cover>): (r: seq<Time>)
    ensures |r| == |covers|
  {
    seq(|covers|, i requires 0 <= i < |covers| => covers[i].change)
  }

  /** Every recorded change is covered exactly once or still waiting, in the order of arrival. */
  lemma {:induction false} NothingLost(cfg: DebounceConfig, events: seq<Event>)
    requires Positive(cfg)
    ensures var t := Run(cfg, events); Changes(t.covered) + t.waiting == ChangeTimes(events)
  {
    if events != [] {
      var init, e := events[..|events| - 1], events[|events| - 1];
      hide Step, Observe, Changes;
      NothingLost(cfg, init);
      var before := Run(cfg, init);
      var (s, d) := Step(cfg, before.state, e);
      var (covers, waiting) := Observe(before.waiting, e, d);
      ChangesAppend(before.covered, covers);
      ObservedOnce(before.waiting, e, d);
    }
  }

  lemma ChangesAppend(covers: seq<Cover>, more: seq<Cover>)
    ensures Changes(covers + more) == Changes(covers) + Changes(more)
  {
  }

  lemma ObservedOnce(waiting: seq<Time>, e: Event, d: Decision)
    ensures var (covers, left) := Observe(waiting, e, d);
            Changes(covers) + left == waiting + if e.Change? then [e.at] else []
  {
    var (covers, left) := Observe(waiting, e, d);
    var all := waiting + if e.Change? then [e.at] else [];
    assert d.applyNow ==> Changes(covers) == if d.nextAt.Some? then waiting else all;
  }

  // ---------------------------------------------------------------------------
  // When exactly a rollout happens
  // ---------------------------------------------------------------------------

  /** Quiet for long enough since the last waiting change, or the first has waited too long. */
  function Ripe(cfg: DebounceConfig, waiting: seq<Time>): Time
    requires Positive(cfg) && waiting != []
  {
    var quiet, limit := waiting[|waiting| - 1] + cfg.quietPeriod, waiting[0] + cfg.maxWait;
    if quiet < limit then quiet else limit
  }

  /** And never within a cooldown of the rollout before. */
  function DueAt(cfg: DebounceConfig, applies: seq<Time>, waiting: seq<Time>): Time
    requires Positive(cfg) && waiting != []
  {
    var ripe := Ripe(cfg, waiting);
    if applies != [] && applies[|applies| - 1] + cfg.cooldown > ripe
    then applies[|applies| - 1] + cfg.cooldown
    else ripe
  }

  function DueReason(cfg: DebounceConfig, waiting: seq<Time>): Reason
    requires Positive(cfg) && waiting != []
  {
    if waiting[0] + cfg.maxWait <= waiting[|waiting| - 1] + cfg.quietPeriod then MaxWait else Quiet
  }

  /** What an event must lead to, from the rollouts so far and the changes that wait. */
  ghost predicate Answers(cfg: DebounceConfig, before: Trace, e: Event, d: Decision, after: Trace)
    requires Positive(cfg)
  {
    if before.waiting == [] then
      if e.Timer? then d == Decision(false, None, Idle) && after.waiting == []
      else if before.applies == [] || before.applies[|before.applies| - 1] + cfg.cooldown <= e.at
      then d == Decision(true, None, Immediate) && after.waiting == []
      else after.waiting == [e.at] && d == Decision(false, Some(DueAt(cfg, after.applies, [e.at])), Cooling)
    else
      var due, reason := DueAt(cfg, before.applies, before.waiting), DueReason(cfg, before.waiting);
      if e.at < due then
        && after.waiting == before.waiting + (if e.Change? then [e.at] else [])
        && d == Decision(false, Some(DueAt(cfg, after.applies, after.waiting)), if e.Change? then Cooling else Pending)
      else if e.Timer? || e.at == due then d == Decision(true, None, reason) && after.waiting == []
      else after.waiting == [e.at] && d == Decision(true, Some(DueAt(cfg, after.applies, [e.at])), reason)
  }

  /**
   Every decision of every ordered run: with changes waiting, the announced time is the
   later of the end of the cooldown and the earlier of quiet and limit; nothing is rolled
   out before it, and the first event at or after it rolls out, for the reason that came first.
   */
  lemma DecidesExactly(cfg: DebounceConfig, events: seq<Event>)
    requires Positive(cfg) && Ordered(events) && events != []
    ensures var before, e := Run(cfg, events[..|events| - 1]), events[|events| - 1];
            Answers(cfg, before, e, Step(cfg, before.state, e).1, Run(cfg, events))
  {
    hide Step, Answers, Observe;
    var init, e := events[..|events| - 1], events[|events| - 1];
    PendingTracksWaiting(cfg, init);
    AppliesSpaced(cfg, init);
    StepAnswers(cfg, Run(cfg, init), e, Now(init), Run(cfg, events));
  }

  lemma StepAnswers(cfg: DebounceConfig, before: Trace, e: Event, now: Time, after: Trace)
    requires Positive(cfg) && Tracks(cfg, before, now) && now <= e.at
    requires Spaced(cfg, before.applies, before.state.cooldownUntil)
    requires var (s, d) := Step(cfg, before.state, e);
             && after.state == s && after.waiting == Observe(before.waiting, e, d).1
             && after.applies == before.applies + if d.applyNow then [e.at] else []
    ensures Answers(cfg, before, e, Step(cfg, before.state, e).1, after)
  {
    StepTracks(cfg, before, e, now, after);
    StepSpaced(cfg, before, e);
    NextDueIsDueAt(cfg, before, now);
    NextDueIsDueAt(cfg, after, e.at);
    CooldownIsLastApply(cfg, before, e.at);
    hide NextDue, Spaced, DueAt, DueReason, InCooldown;
    if before.waiting == [] {
      AnswersWhenIdle(cfg, before, e, after);
    } else {
      AnswersWhenWaiting(cfg, before, e, after);
    }
  }

  lemma NextDueIsDueAt(cfg: DebounceConfig, t: Trace, now: Time)
    requires Positive(cfg) && Tracks(cfg, t, now) && Spaced(cfg, t.applies, t.state.cooldownUntil)
    ensures t.waiting != [] ==> NextDue(cfg, t.state) == (DueAt(cfg, t.applies, t.waiting), DueReason(cfg, t.waiting))
  {
  }

  lemma CooldownIsLastApply(cfg: DebounceConfig, t: Trace, at: Time)
    requires Positive(cfg) && Spaced(cfg, t.applies, t.state.cooldownUntil)
    ensures !InCooldown(t.state, at) <==> t.applies == [] || t.applies[|t.applies| - 1] + cfg.cooldown <= at
  {
  }

  lemma AnswersWhenIdle(cfg: DebounceConfig, before: Trace, e: Event, after: Trace)
    requires Positive(cfg) && before.waiting == [] && !before.state.pending
    requires var (s, d) := Step(cfg, before.state, e);
             after.state == s && after.waiting == Observe([], e, d).1
    requires after.waiting != [] ==> NextDue(cfg, after.state).0 == DueAt(cfg, after.applies, after.waiting)
    requires !InCooldown(before.state, e.at) <==>
             before.applies == [] || before.applies[|before.applies| - 1] + cfg.cooldown <= e.at
    ensures Answers(cfg, before, e, Step(cfg, before.state, e).1, after)
  {
    LeftWaiting([], e, Step(cfg, before.state, e).1);
    assert [] + [e.at] == [e.at];
    hide NextDue, DueAt, DueReason, InCooldown, Observe;
  }

  lemma AnswersWhenWaiting(cfg: DebounceConfig, before: Trace, e: Event, after: Trace)
    requires Positive(cfg) && before.waiting != [] && before.state.pending
    requires var (s, d) := Step(cfg, before.state, e);
             after.state == s && after.waiting == Observe(before.waiting, e, d).1
    requires NextDue(cfg, before.state) == (DueAt(cfg, before.applies, before.waiting), DueReason(cfg, before.waiting))
    requires after.waiting != [] ==> NextDue(cfg, after.state).0 == DueAt(cfg, after.applies, after.waiting)
    ensures Answers(cfg, before, e, Step(cfg, before.state, e).1, after)
  {
    StepWhenWaiting(cfg, before.state, e);
    LeftWaiting(before.waiting, e, Step(cfg, before.state, e).1);
    hide NextDue, DueAt, DueReason, Step, Observe;
  }

  /** One step of a pending state, by when it is due. */
  lemma StepWhenWaiting(cfg: DebounceConfig, s: State, e: Event)
    requires Positive(cfg) && s.pending
    ensures var (due, reason) := NextDue(cfg, s);
            var (s', d) := Step(cfg, s, e);
            if e.at < due then
              && s'.pending
              && d == Decision(false, Some(NextDue(cfg, s').0), if e.Change? then Cooling else Pending)
            else if e.Timer? || e.at == due then d == Decision(true, None, reason)
            else s'.pending && d == Decision(true, Some(NextDue(cfg, s').0), reason)
  {
    hide NextDue;
  }

  lemma LeftWaiting(waiting: seq<Time>, e: Event, d: Decision)
    ensures Observe(waiting, e, d).1 ==
            var here := if e.Change? then [e.at] else [];
            if !d.applyNow then waiting + here else if d.nextAt.Some? then here else []
  {
  }

  lemma DueWithinMaxWait(cfg: DebounceConfig, t: Trace, now: Time)
    requires cfg.Validate().Ok? && Tracks(cfg, t, now) && Spaced(cfg, t.applies, t.state.cooldownUntil)
    ensures t.waiting != [] ==>
              t.waiting[0] < DueAt(cfg, t.applies, t.waiting) <= t.waiting[0] + cfg.maxWait
  {
  }

  /** The timer the caller is told to set lies within the maximum wait of the first waiting change. */
  lemma NextAtBounded(cfg: DebounceConfig, events: seq<Event>)
    requires cfg.Validate().Ok? && Ordered(events)
    ensures var t := Run(cfg, events);
            t.waiting != [] ==> t.waiting[0] < DueAt(cfg, t.applies, t.waiting) <= t.waiting[0] + cfg.maxWait
    ensures events != [] ==>
              var t, before := Run(cfg, events), Run(cfg, events[..|events| - 1]);
              Step(cfg, before.state, events[|events| - 1]).1.nextAt ==
              if t.waiting != [] then Some(DueAt(cfg, t.applies, t.waiting)) else None
  {
    hide Step, Run, Tracks, Spaced, DueAt, DueReason;
    PendingTracksWaiting(cfg, events);
    AppliesSpaced(cfg, events);
    DueWithinMaxWait(cfg, Run(cfg, events), Now(events));
    if events != [] {
      DecidesExactly(cfg, events);
    }
  }

  /** The event loop never lets the announced timer pass without calling in. */
  ghost predicate Punctual(cfg: DebounceConfig, events: seq<Event>)
    requires Positive(cfg)
  {
    forall i :: 0 <= i < |events| ==> InTime(cfg, Run(cfg, events[..i]), events[i])
  }

  predicate InTime(cfg: DebounceConfig, before: Trace, e: Event)
    requires Positive(cfg)
  {
    before.waiting != [] ==> e.at <= DueAt(cfg, before.applies, before.waiting)
  }

  lemma PunctualBefore(cfg: DebounceConfig, events: seq<Event>)
    requires Positive(cfg) && Punctual(cfg, events) && events != []
    ensures Punctual(cfg, events[..|events| - 1])
    ensures InTime(cfg, Run(cfg, events[..|events| - 1]), events[|events| - 1])
  {
    hide Run, InTime;
    var init := events[..|events| - 1];
    forall i | 0 <= i < |init| ensures InTime(cfg, Run(cfg, init[..i]), init[i]) {
      assert init[..i] == events[..i];
    }
    assert InTime(cfg, Run(cfg, events[..|events| - 1]), events[|events| - 1]);
  }

  ghost predicate RolledOutInTime(cfg: DebounceConfig, covered: seq<Cover>)
  {
    forall i :: 0 <= i < |covered| ==>
      covered[i].change <= covered[i].apply <= covered[i].change + cfg.maxWait
  }

  /** Every change recorded at t is rolled out within [t, t + MaxWait], or still has time left. */
  lemma {:induction false} AppliedWithinMaxWait(cfg: DebounceConfig, events: seq<Event>)
    requires cfg.Validate().Ok? && Ordered(events) && Punctual(cfg, events)
    ensures var t := Run(cfg, events);
            && RolledOutInTime(cfg, t.covered)
            && (forall i :: 0 <= i < |t.waiting| ==> t.waiting[i] <= Now(events) <= t.waiting[i] + cfg.maxWait)
  {
    if events != [] {
      hide Step, Observe, Tracks, Spaced, DueAt, Punctual, RolledOutInTime;
      var init, e := events[..|events| - 1], events[|events| - 1];
      PunctualBefore(cfg, events);
      AppliedWithinMaxWait(cfg, init);
      NextAtBounded(cfg, init);
      PendingTracksWaiting(cfg, init);
      var before := Run(cfg, init);
      StepInTime(cfg, before, e, Now(init));
      InTimeAppends(cfg, before.covered, Observe(before.waiting, e, Step(cfg, before.state, e).1).0);
    } else {
      assert RolledOutInTime(cfg, []);
    }
  }

  lemma InTimeAppends(cfg: DebounceConfig, a: seq<Cover>, b: seq<Cover>)
    requires RolledOutInTime(cfg, a) && RolledOutInTime(cfg, b)
    ensures RolledOutInTime(cfg, a + b)
  {
  }

  lemma StepInTime(cfg: DebounceConfig, before: Trace, e: Event, now: Time)
    requires cfg.Validate().Ok? && Tracks(cfg, before, now) && now <= e.at
    requires before.waiting != [] ==> e.at <= before.waiting[0] + cfg.maxWait
    ensures var (covers, waiting) := Observe(before.waiting, e, Step(cfg, before.state, e).1);
            && RolledOutInTime(cfg, covers)
            && (forall i :: 0 <= i < |waiting| ==> waiting[i] <= e.at <= waiting[i] + cfg.maxWait)
  {
    hide Step;
    assert forall i :: 0 <= i < |before.waiting| ==> before.waiting[i] <= e.at <= before.waiting[i] + cfg.maxWait;
  }

  /** The announced timer never lies beyond the maximum wait of the first waiting change. */
  ghost predicate WaitBounded(cfg: DebounceConfig, events: seq<Event>)
    requires Positive(cfg)
  {
    var t := Run(cfg, events);
    t.waiting != [] ==> NextDue(cfg, t.state).0 <= t.waiting[0] + cfg.maxWait
  }

  /** The validated bound MaxWait >= Cooldown is exactly what keeps the wait within MaxWait. */
  lemma MaxWaitNeedsCooldownBound(cfg: DebounceConfig)
    requires Positive(cfg)
    ensures cfg.cooldown <= cfg.maxWait <==>
            forall events :: Ordered(events) ==> WaitBounded(cfg, events)
  {
    if cfg.cooldown <= cfg.maxWait {
      forall events | Ordered(events) ensures WaitBounded(cfg, events) {
        PendingTracksWaiting(cfg, events);
      }
    } else {
      var events := [Change(0), Change(0)];
      var one := [Change(0)];
      assert events[..1] == one && one[..0] == [];
      var t1 := Run(cfg, one);
      assert Run(cfg, one[..0]) == Trace(Initial, [], [], []);
      assert t1.state == State(cfg.cooldown, false, ZERO, ZERO) && t1.waiting == [];
      var t := Run(cfg, events);
      assert t.state == State(cfg.cooldown, true, 0, 0) && t.waiting == [0];
      assert NextDue(cfg, t.state).0 == cfg.cooldown;
      assert Ordered(events) && !WaitBounded(cfg, events);
    }
  }
}
