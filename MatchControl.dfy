/** The match-control page: the phase it derives from the match state and
    its own `isFinished` flag, and the handlers, each a fixed sequence of
    dispatches to the reducer. */
module MatchControl {
  import opened Types
  import opened MatchContext

  datatype MatchPhase = PreMatch | Playing | Paused | Finished

  /** `getPhase(isPlaying, startTime, elapsedTime)`. */
  function GetPhase(isPlaying: bool, startTime: Option<int>, elapsedTime: int): (p: MatchPhase)
    ensures p != Finished
  {
    if startTime == None then PreMatch
    else if isPlaying then Playing
    else if elapsedTime > 0 then Paused
    else PreMatch
  }

  /** The page's `phase`: `isFinished` overrides the derived phase. */
  function PhaseOf(isFinished: bool, s: MatchState): (p: MatchPhase)
    ensures p == Finished <==> isFinished
  {
    if isFinished then Finished else GetPhase(s.isPlaying, s.startTime, s.elapsedTime)
  }

  /** Which phase follows from which facts, in both directions. */
  lemma PhaseCases(s: MatchState)
    ensures PhaseOf(false, s) == Playing <==> s.startTime != None && s.isPlaying
    ensures PhaseOf(false, s) == Paused <==> s.startTime != None && !s.isPlaying && s.elapsedTime > 0
    ensures PhaseOf(false, s) == PreMatch <==> s.startTime == None || (!s.isPlaying && s.elapsedTime <= 0)
  {
  }

  class MatchControlPage {
    var state: MatchState
    var isFinished: bool

    /** The page mounts over whatever state the match provider holds, with
        `isFinished` false. */
    constructor (current: MatchState)
      ensures state == current && !isFinished
    {
      state := current;
      isFinished := false;
    }

    function Phase(): MatchPhase
      reads this
    {
      PhaseOf(isFinished, state)
    }

    method HandleStart(now: int)
      modifies this
      ensures state == Reduce(old(state), StartMatch, now) && isFinished == old(isFinished)
      ensures !isFinished ==> Phase() == Playing
    {
      state := Reduce(state, StartMatch, now);
    }

    method HandlePause(now: int)
      modifies this
      ensures state == Reduce(old(state), PauseMatch, now) && isFinished == old(isFinished)
      ensures !isFinished && old(state).startTime != None ==>
        Phase() == if old(state).elapsedTime > 0 then Paused else PreMatch
    {
      state := Reduce(state, PauseMatch, now);
    }

    method HandleResume(now: int)
      modifies this
      ensures state == Reduce(old(state), ResumeMatch, now) && isFinished == old(isFinished)
      ensures !isFinished && old(state).startTime != None ==> Phase() == Playing
    {
      state := Reduce(state, ResumeMatch, now);
    }

    /** Pause, then switch half: the clock stops at zero in the other half,
        so an unfinished match is back in the pre-match phase. */
    method HandleSwitchHalf(now: int)
      modifies this
      ensures state == Reduce(Reduce(old(state), PauseMatch, now), SwitchHalf, now)
      ensures isFinished == old(isFinished)
      ensures !state.isPlaying && state.elapsedTime == 0
      ensures ValidHalf(old(state)) ==> state.currentHalf == 3 - old(state).currentHalf
      ensures Phase() == if isFinished then Finished else PreMatch
    {
      state := Reduce(state, PauseMatch, now);
      state := Reduce(state, SwitchHalf, now);
    }

    method HandleEnd(now: int)
      modifies this
      ensures state == Reduce(old(state), EndMatch, now) && isFinished
      ensures !state.isPlaying && Phase() == Finished
    {
      state := Reduce(state, EndMatch, now);
      isFinished := true;
    }

    /** Reset restores the initial state and clears `isFinished`. Leaving for
        the line-up screen (`onBackToLineup`) is outside the model. */
    method HandleReset(now: int)
      modifies this
      ensures state == InitialState && !isFinished
      ensures Phase() == PreMatch
    {
      state := Reduce(state, ResetMatch, now);
      isFinished := false;
    }
  }

  /** From any state and either flag value, the switch-half sequence lands in
      the pre-match phase unless the match is finished. */
  lemma SwitchHalfPhase(s: MatchState, isFinished: bool, now: int)
    ensures var r := Reduce(Reduce(s, PauseMatch, now), SwitchHalf, now);
      PhaseOf(isFinished, r) == if isFinished then Finished else PreMatch
  {
  }
}
