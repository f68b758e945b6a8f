/** The match reducer: a total transition function over `MatchState`. The
    wall clock `Date.now()` that START_MATCH reads is the parameter `now`. */
module MatchContext {
  import opened Types

  /** The ten actions. `matchActions.setHomeTeam(t)` and the other creators
      build exactly these values. */
  datatype Action =
    | SetHomeTeam(team: Team)
    | SetAwayTeam(team: Team)
    | StartMatch
    | PauseMatch
    | ResumeMatch
    | EndMatch
    | AddEvent(event: MatchEvent)
    | UpdateTime(time: int)
    | SwitchHalf
    | ResetMatch

  const InitialState: MatchState :=
    MatchState(None, None, [], false, None, 0, 1)

  function Reduce(state: MatchState, action: Action, now: int): MatchState {
    match action
    case SetHomeTeam(t) => state.(homeTeam := Some(t))
    case SetAwayTeam(t) => state.(awayTeam := Some(t))
    case StartMatch => state.(isPlaying := true, startTime := Some(now))
    case PauseMatch => state.(isPlaying := false)
    case ResumeMatch => state.(isPlaying := true)
    case EndMatch => state.(isPlaying := false)
    case AddEvent(e) => state.(events := state.events + [e])
    case UpdateTime(t) => state.(elapsedTime := t)
    case SwitchHalf => state.(currentHalf := if state.currentHalf == 1 then 2 else 1, elapsedTime := 0)
    case ResetMatch => InitialState
  }

  /** One dispatched action with the clock reading at that moment. */
  datatype Step = Step(action: Action, now: int)

  /** The state after dispatching `steps` in order. */
  function Run(state: MatchState, steps: seq<Step>): MatchState
    decreases |steps|
  {
    if steps == [] then state
    else Run(Reduce(state, steps[0].action, steps[0].now), steps[1..])
  }

  // ---------------------------------------------------------------------
  // One action at a time

  lemma SetTeamFrames(s: MatchState, t: Team, now: int)
    ensures Reduce(s, SetHomeTeam(t), now) == s.(homeTeam := Some(t))
    ensures Reduce(s, SetAwayTeam(t), now) == s.(awayTeam := Some(t))
    ensures Reduce(s, SetHomeTeam(t), now).awayTeam == s.awayTeam
    ensures Reduce(s, SetAwayTeam(t), now).homeTeam == s.homeTeam
  {
  }

  lemma StartMatchFrame(s: MatchState, now: int)
    ensures var r := Reduce(s, StartMatch, now);
      r.isPlaying && r.startTime == Some(now) &&
      r.events == s.events && r.elapsedTime == s.elapsedTime && r.currentHalf == s.currentHalf &&
      r.homeTeam == s.homeTeam && r.awayTeam == s.awayTeam
  {
  }

  /** PAUSE_MATCH and END_MATCH are the same transition; RESUME_MATCH only
      raises `isPlaying`. */
  lemma PauseEndResumeFrames(s: MatchState, now: int)
    ensures Reduce(s, PauseMatch, now) == Reduce(s, EndMatch, now) == s.(isPlaying := false)
    ensures Reduce(s, ResumeMatch, now) == s.(isPlaying := true)
  {
  }

  lemma AddEventAppends(s: MatchState, e: MatchEvent, now: int)
    ensures var r := Reduce(s, AddEvent(e), now);
      |r.events| == |s.events| + 1 && r.events[..|s.events|] == s.events &&
      r.events[|s.events|] == e && r == s.(events := r.events)
  {
  }

  lemma UpdateTimeFrame(s: MatchState, t: int, now: int)
    ensures Reduce(s, UpdateTime(t), now) == s.(elapsedTime := t)
  {
  }

  /** SWITCH_HALF toggles the half, zeroes the clock and nothing else; twice
      it restores the half of a state whose half is 1 or 2. */
  lemma SwitchHalfToggles(s: MatchState, now: int, now': int)
    requires ValidHalf(s)
    ensures var r := Reduce(s, SwitchHalf, now);
      r.currentHalf == 3 - s.currentHalf && r.elapsedTime == 0 &&
      r == s.(currentHalf := r.currentHalf, elapsedTime := 0)
    ensures Reduce(Reduce(s, SwitchHalf, now), SwitchHalf, now').currentHalf == s.currentHalf
  {
  }

  lemma ResetIdempotent(s: MatchState, now: int, now': int)
    ensures Reduce(s, ResetMatch, now) == InitialState
    ensures Reduce(Reduce(s, ResetMatch, now), ResetMatch, now') == Reduce(s, ResetMatch, now)
  {
  }

  /** Only START_MATCH reads the clock. */
  lemma ClockOnlyForStart(s: MatchState, a: Action, now: int, now': int)
    requires !a.StartMatch?
    ensures Reduce(s, a, now) == Reduce(s, a, now')
  {
  }

  // ---------------------------------------------------------------------
  // Sequences of actions

  lemma ReducePreservesHalf(s: MatchState, a: Action, now: int)
    requires ValidHalf(s)
    ensures ValidHalf(Reduce(s, a, now))
  {
  }

  /** From a state whose half is 1 or 2, every run of actions stays in range;
      in particular every state reachable from `InitialState` does. */
  lemma {:induction false} RunPreservesHalf(s: MatchState, steps: seq<Step>)
    requires ValidHalf(s)
    ensures ValidHalf(Run(s, steps))
    decreases |steps|
  {
    if steps != [] {
      ReducePreservesHalf(s, steps[0].action, steps[0].now);
      RunPreservesHalf(Reduce(s, steps[0].action, steps[0].now), steps[1..]);
    }
  }

  /** The events that the ADD_EVENT steps of `steps` carry, in order. */
  function AddedEvents(steps: seq<Step>): seq<MatchEvent>
    decreases |steps|
  {
    if steps == [] then []
    else (if steps[0].action.AddEvent? then [steps[0].action.event] else []) + AddedEvents(steps[1..])
  }

  predicate NoReset(steps: seq<Step>) {
    forall k :: 0 <= k < |steps| ==> !steps[k].action.ResetMatch?
  }

  /** Every action but RESET_MATCH keeps the events, adding the payload of
      an ADD_EVENT at the end. */
  lemma ReduceEvents(s: MatchState, a: Action, now: int)
    requires !a.ResetMatch?
    ensures Reduce(s, a, now).events == s.events + (if a.AddEvent? then [a.event] else [])
  {
    if !a.AddEvent? {
      assert s.events + [] == s.events;
    }
  }

  lemma NoResetTail(steps: seq<Step>)
    requires steps != [] && NoReset(steps)
    ensures !steps[0].action.ResetMatch? && NoReset(steps[1..])
  {
    forall k | 0 <= k < |steps[1..]| ensures !steps[1..][k].action.ResetMatch? {
      assert steps[1..][k] == steps[k + 1];
    }
  }

  /** The event list is append-only: without a RESET_MATCH, a run leaves the
      old events as a prefix followed by exactly the added events. */
  lemma {:induction false} RunAppendsEvents(s: MatchState, steps: seq<Step>)
    requires NoReset(steps)
    ensures Run(s, steps).events == s.events + AddedEvents(steps)
    decreases |steps|
  {
    if steps != [] {
      var a := steps[0].action;
      var s' := Reduce(s, a, steps[0].now);
      var added := if a.AddEvent? then [a.event] else [];
      NoResetTail(steps);
      ReduceEvents(s, a, steps[0].now);
      RunAppendsEvents(s', steps[1..]);
      assert AddedEvents(steps) == added + AddedEvents(steps[1..]);
      assert (s.events + added) + AddedEvents(steps[1..]) == s.events + (added + AddedEvents(steps[1..]));
    }
  }

  /** A RESET_MATCH anywhere in a run forgets everything before it. */
  lemma {:induction false} RunAfterReset(s: MatchState, before: seq<Step>, now: int, after: seq<Step>)
    ensures Run(s, before + [Step(ResetMatch, now)] + after) == Run(InitialState, after)
    decreases |before|
  {
    if before == [] {
      assert before + [Step(ResetMatch, now)] + after == [Step(ResetMatch, now)] + after;
    } else {
      assert (before + [Step(ResetMatch, now)] + after)[1..] == before[1..] + [Step(ResetMatch, now)] + after;
      RunAfterReset(Reduce(s, before[0].action, before[0].now), before[1..], now, after);
    }
  }
}
