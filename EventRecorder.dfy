/** The event recorder: three pieces of component state (the selected team,
    the selected event type and, during a substitution, the player leaving)
    and the click handlers that update them and dispatch `MatchEvent`s. */
module EventRecorder {
  import opened Types

  datatype Side = Home | Away

  /** The team whose players the recorder lists; without it the component
      renders nothing, so no handler can run. */
  function TeamOf(s: MatchState, side: Side): Option<Team> {
    if side == Home then s.homeTeam else s.awayTeam
  }

  /** `players.find(p => p.id === id)`: the first player with that id. */
  function FindPlayer(players: seq<Player>, id: string): (r: Option<Player>)
    ensures r.None? <==> forall k :: 0 <= k < |players| ==> players[k].id != id
    ensures r.Some? ==>
      exists k :: (0 <= k < |players| && players[k] == r.value && r.value.id == id &&
                   forall j :: 0 <= j < k ==> players[j].id != id)
  {
    if players == [] then None
    else if players[0].id == id then Some(players[0])
    else FindPlayer(players[1..], id)
  }

  const LeavingPrompt: string := "Selecciona jugador que SALE"

  const EnteringPrompt: string := " \U{2014} Selecciona jugador que ENTRA"

  class EventRecorder {
    var selectedTeam: Side
    var selectedEvent: Option<EventType>
    var subOutPlayerId: Option<string>

    constructor ()
      ensures selectedTeam == Home && selectedEvent == None && subOutPlayerId == None
    {
      selectedTeam := Home;
      selectedEvent := None;
      subOutPlayerId := None;
    }

    /** The team buttons: switching team clears both selections. */
    method SelectTeam(side: Side)
      modifies this
      ensures selectedTeam == side && selectedEvent == None && subOutPlayerId == None
    {
      selectedTeam := side;
      selectedEvent := None;
      subOutPlayerId := None;
    }

    /** `handleEventSelect`: choosing the selected type again deselects it;
        any choice forgets the leaving player. */
    method HandleEventSelect(t: EventType)
      modifies this
      ensures selectedTeam == old(selectedTeam)
      ensures selectedEvent == if old(selectedEvent) == Some(t) then None else Some(t)
      ensures subOutPlayerId == None
    {
      selectedEvent := if selectedEvent == Some(t) then None else Some(t);
      subOutPlayerId := None;
    }

    /** `handlePlayerSelect`: the event it dispatches, if any. `eventId`
        stands for `crypto.randomUUID()`. The leaving player's id is used only
        when it is truthy, so a recorded empty id falls back to the clicked
        player. */
    method HandlePlayerSelect(state: MatchState, playerId: string, eventId: string)
      returns (emitted: Option<MatchEvent>)
      requires TeamOf(state, selectedTeam).Some?
      modifies this
      ensures selectedTeam == old(selectedTeam)
      ensures old(selectedEvent) == None ==>
        emitted == None && selectedEvent == None && subOutPlayerId == old(subOutPlayerId)
      ensures old(selectedEvent) == Some(Substitution) && old(subOutPlayerId) == None ==>
        emitted == None && selectedEvent == Some(Substitution) && subOutPlayerId == Some(playerId)
      ensures old(selectedEvent) != None && !(old(selectedEvent) == Some(Substitution) && old(subOutPlayerId) == None) ==>
        && selectedEvent == None && subOutPlayerId == None
        && emitted.Some?
        && emitted.value.id == eventId
        && emitted.value.eventType == old(selectedEvent).value
        && emitted.value.timestamp == state.elapsedTime
        && emitted.value.teamId == TeamOf(state, selectedTeam).value.id
        && emitted.value.description == None
        && (old(selectedEvent) == Some(Substitution) ==>
              && emitted.value.secondPlayerId == Some(playerId)
              && emitted.value.playerId == if old(subOutPlayerId).value != "" then old(subOutPlayerId).value else playerId)
        && (old(selectedEvent) != Some(Substitution) ==>
              emitted.value.playerId == playerId && emitted.value.secondPlayerId == None)
    {
      if selectedEvent == None {
        return None;
      }
      var t := selectedEvent.value;
      if t == Substitution && subOutPlayerId == None {
        subOutPlayerId := Some(playerId);
        return None;
      }
      var teamId := TeamOf(state, selectedTeam).value.id;
      var event := MatchEvent(
        eventId,
        t,
        state.elapsedTime,
        if t == Substitution && subOutPlayerId.Some? && subOutPlayerId.value != "" then subOutPlayerId.value else playerId,
        teamId,
        if t == Substitution then Some(playerId) else None,
        None);
      emitted := Some(event);
      selectedEvent := None;
      subOutPlayerId := None;
    }

    /** `getSubstitutionLabel`: the prompt shown while a substitution is
        selected. Once the leaving player is recorded, it names the first
        player with that id, or `?` when no player has it. */
    function SubstitutionLabel(players: seq<Player>): (prompt: string)
      reads this
      ensures subOutPlayerId == None <==> prompt == LeavingPrompt
      ensures subOutPlayerId.Some? && FindPlayer(players, subOutPlayerId.value).Some? ==>
        prompt == "Sale: " + FindPlayer(players, subOutPlayerId.value).value.name + EnteringPrompt
      ensures subOutPlayerId.Some? && (forall k :: 0 <= k < |players| ==> players[k].id != subOutPlayerId.value) ==>
        prompt == "Sale: " + "?" + EnteringPrompt
    {
      if subOutPlayerId == None then LeavingPrompt
      else
        var p := FindPlayer(players, subOutPlayerId.value);
        var prompt := "Sale: " + (if p.Some? then p.value.name else "?") + EnteringPrompt;
        assert prompt[1] == 'a' != LeavingPrompt[1];
        prompt
    }
  }

  /** A substitution takes two player clicks after choosing the event type:
      the first emits nothing, the second emits one event with the leaving
      player first and the entering player second. */
  method SubstitutionTakesTwoClicks(state: MatchState, side: Side, outId: string, inId: string, eventId: string)
    returns (first: Option<MatchEvent>, second: Option<MatchEvent>)
    requires TeamOf(state, side).Some?
    ensures first == None
    ensures second == Some(MatchEvent(eventId, Substitution, state.elapsedTime,
      if outId != "" then outId else inId, TeamOf(state, side).value.id, Some(inId), None))
  {
    var recorder := new EventRecorder();
    recorder.SelectTeam(side);
    recorder.HandleEventSelect(Substitution);
    first := recorder.HandlePlayerSelect(state, outId, eventId);
    second := recorder.HandlePlayerSelect(state, inId, eventId);
  }

  /** Any other event type is recorded by a single player click. */
  method OtherEventTakesOneClick(state: MatchState, side: Side, t: EventType, playerId: string, eventId: string)
    returns (emitted: Option<MatchEvent>)
    requires TeamOf(state, side).Some? && t != Substitution
    ensures emitted == Some(MatchEvent(eventId, t, state.elapsedTime, playerId, TeamOf(state, side).value.id, None, None))
  {
    var recorder := new EventRecorder();
    recorder.SelectTeam(side);
    recorder.HandleEventSelect(t);
    emitted := recorder.HandlePlayerSelect(state, playerId, eventId);
  }

  /** Choosing an event type twice returns to "nothing selected", so a player
      click afterwards emits nothing. */
  method ReselectingDeselects(state: MatchState, side: Side, t: EventType, playerId: string, eventId: string)
    returns (emitted: Option<MatchEvent>)
    requires TeamOf(state, side).Some?
    ensures emitted == None
  {
    var recorder := new EventRecorder();
    recorder.SelectTeam(side);
    recorder.HandleEventSelect(t);
    recorder.HandleEventSelect(t);
    emitted := recorder.HandlePlayerSelect(state, playerId, eventId);
  }
}
