/** The event log card: the label maps it fills from the two teams, and one
    line per event, newest first. */
module EventLog {
  import opened JsString
  import opened Types
  import MatchExport

  /** `EVENT_ICONS`. */
  function EventIcon(t: EventType): string {
    match t
    case Goal => "GOL"
    case YellowCard => "\U{1F7E1}"
    case RedCard => "\U{1F534}"
    case Substitution => "\U{1F504}"
    case Corner => "COR"
    case Shot => "TIR"
  }

  /** Distinct event types get distinct icons. */
  lemma EventIconsDistinct(t: EventType, u: EventType)
    ensures EventIcon(t) == EventIcon(u) ==> t == u
  {
  }

  /** `${p.number} ${p.name}`: the number, a space, the name. */
  function PlayerLabel(p: Player): (s: string)
    ensures s != "" && s != "?"
  {
    var n := IntToString(p.number);
    assert (n + " " + p.name)[|n|] == ' ';
    n + " " + p.name
  }

  /** The players a team contributes; an absent team contributes none. */
  function TeamPlayers(t: Option<Team>): seq<Player> {
    if t.Some? then t.value.players else []
  }

  /** The label map after `set(p.id, label)` for every player in order: the
      label of the player the player index keeps for that id. */
  function LabelIndex(ps: seq<Player>): (m: map<string, string>)
    ensures forall id :: id in m ==> m[id] != "?"
  {
    map id | id in PlayerIndex(ps) :: PlayerLabel(PlayerIndex(ps)[id])
  }

  /** The team-name map: home first, then away, each only when present. */
  function TeamNameIndex(home: Option<Team>, away: Option<Team>): (m: map<string, string>)
    ensures away.Some? ==> away.value.id in m && m[away.value.id] == away.value.name
    ensures home.Some? && (away.None? || away.value.id != home.value.id) ==>
      home.value.id in m && m[home.value.id] == home.value.name
    ensures forall id :: id in m ==> (home.Some? && id == home.value.id) || (away.Some? && id == away.value.id)
  {
    var m0: map<string, string> := map[];
    var m1 := if home.Some? then m0[home.value.id := home.value.name] else m0;
    if away.Some? then m1[away.value.id := away.value.name] else m1
  }

  /** Setting one more player's label is the label map of the longer list. */
  lemma LabelIndexAppend(ps: seq<Player>, p: Player)
    ensures LabelIndex(ps + [p]) == LabelIndex(ps)[p.id := PlayerLabel(p)]
  {
    assert (ps + [p])[..|ps|] == ps;
    assert PlayerIndex(ps + [p]) == PlayerIndex(ps)[p.id := p];
  }

  /** `allPlayers` and `teamNames` as the two loops fill them. */
  method BuildLabels(home: Option<Team>, away: Option<Team>)
    returns (labels: map<string, string>, teamNames: map<string, string>)
    ensures labels == LabelIndex(TeamPlayers(home) + TeamPlayers(away))
    ensures teamNames == TeamNameIndex(home, away)
  {
    labels := map[];
    teamNames := map[];
    var hs := TeamPlayers(home);
    var aw := TeamPlayers(away);
    assert LabelIndex([]) == map[];
    if home.Some? {
      teamNames := teamNames[home.value.id := home.value.name];
      for i := 0 to |hs|
        invariant labels == LabelIndex(hs[..i])
      {
        assert hs[..i + 1] == hs[..i] + [hs[i]];
        LabelIndexAppend(hs[..i], hs[i]);
        labels := labels[hs[i].id := PlayerLabel(hs[i])];
      }
    }
    assert labels == LabelIndex(hs) by {
      assert hs[..|hs|] == hs;
    }
    assert hs + aw[..0] == hs;
    if away.Some? {
      teamNames := teamNames[away.value.id := away.value.name];
      for i := 0 to |aw|
        invariant labels == LabelIndex(hs + aw[..i])
      {
        assert hs + aw[..i + 1] == (hs + aw[..i]) + [aw[i]];
        LabelIndexAppend(hs + aw[..i], aw[i]);
        labels := labels[aw[i].id := PlayerLabel(aw[i])];
      }
    }
    assert hs + aw[..|aw|] == hs + aw;
  }

  /** A key of the label map is an id some player carries, and its label is
      that of the last player listed with it. */
  lemma LabelIndexSpec(ps: seq<Player>, id: string)
    ensures id in LabelIndex(ps) <==> exists k :: 0 <= k < |ps| && ps[k].id == id
    ensures id in LabelIndex(ps) ==>
      exists k :: 0 <= k < |ps| && ps[k].id == id && LabelIndex(ps)[id] == PlayerLabel(ps[k]) &&
        forall j :: k < j < |ps| ==> ps[j].id != id
  {
    PlayerIndexSpec(ps, id);
  }

  /** Who an entry names: one player, or the leaving and the entering player
      of a substitution. */
  datatype Who = One(player: string) | Swap(leaving: string, entering: string)

  datatype LogLine = LogLine(minute: string, icon: string, who: Who, team: string)

  /** The label of an id, `?` when the map has none. */
  function LabelOr(labels: map<string, string>, id: string): string {
    if id in labels then labels[id] else "?"
  }

  /** One entry of the log. The arrow form appears exactly for a
      substitution whose second player id is non-empty and known; `?` stands
      for an unknown id, and only for one when no real label is `?`. */
  function LogLineOf(e: MatchEvent, labels: map<string, string>, teamNames: map<string, string>): (line: LogLine)
    ensures line.who.Swap? <==>
      e.eventType == Substitution && e.secondPlayerId.Some? &&
      e.secondPlayerId.value != "" && e.secondPlayerId.value in labels
    ensures line.who.Swap? ==>
      line.who.leaving == LabelOr(labels, e.playerId) && line.who.entering == labels[e.secondPlayerId.value]
    ensures line.who.One? ==> line.who.player == LabelOr(labels, e.playerId)
    ensures line.team == if e.teamId in teamNames then teamNames[e.teamId] else "?"
    ensures (forall id :: id in labels ==> labels[id] != "?") ==>
      var first := if line.who.One? then line.who.player else line.who.leaving;
      (first == "?" <==> e.playerId !in labels)
    ensures line.icon == EventIcon(e.eventType)
  {
    var playerName := LabelOr(labels, e.playerId);
    var secondKnown := e.secondPlayerId.Some? && e.secondPlayerId.value != "" && e.secondPlayerId.value in labels;
    LogLine(
      MatchExport.FormatMinute(e.timestamp),
      EventIcon(e.eventType),
      if e.eventType == Substitution && secondKnown then Swap(playerName, labels[e.secondPlayerId.value]) else One(playerName),
      LabelOr(teamNames, e.teamId))
  }

  /** A copy of the list in the opposite order. */
  function Reverse<T>(s: seq<T>): (r: seq<T>)
    ensures |r| == |s|
    ensures forall k :: 0 <= k < |s| ==> r[k] == s[|s| - 1 - k]
    decreases |s|
  {
    if s == [] then [] else [s[|s| - 1]] + Reverse(s[..|s| - 1])
  }

  /** The `map` over the events in display order. */
  function LogLines(events: seq<MatchEvent>, labels: map<string, string>, teamNames: map<string, string>): (lines: seq<LogLine>)
    ensures |lines| == |events|
    ensures forall k :: 0 <= k < |events| ==> lines[k] == LogLineOf(events[k], labels, teamNames)
  {
    seq(|events|, k requires 0 <= k < |events| => LogLineOf(events[k], labels, teamNames))
  }

  /** The lines show the events newest first: line `k` is the line of event
      `n - 1 - k`. */
  predicate NewestFirst(lines: seq<LogLine>, events: seq<MatchEvent>, labels: map<string, string>, teamNames: map<string, string>) {
    |lines| == |events| &&
    forall k :: 0 <= k < |events| ==> lines[k] == LogLineOf(events[|events| - 1 - k], labels, teamNames)
  }

  lemma ReversedLines(events: seq<MatchEvent>, labels: map<string, string>, teamNames: map<string, string>)
    ensures NewestFirst(LogLines(Reverse(events), labels, teamNames), events, labels, teamNames)
  {
    var sorted := Reverse(events);
    var lines := LogLines(sorted, labels, teamNames);
    forall k | 0 <= k < |events|
      ensures lines[k] == LogLineOf(events[|events| - 1 - k], labels, teamNames)
    {
      assert sorted[k] == events[|events| - 1 - k];
    }
  }

  /** What the card shows: nothing for an empty event list, otherwise one
      line per event, the last event first. */
  method RenderLog(s: MatchState) returns (view: Option<seq<LogLine>>)
    ensures view.None? <==> s.events == []
    ensures view.Some? ==>
      NewestFirst(view.value, s.events,
        LabelIndex(TeamPlayers(s.homeTeam) + TeamPlayers(s.awayTeam)), TeamNameIndex(s.homeTeam, s.awayTeam))
  {
    if |s.events| == 0 {
      return None;
    }
    var labels, teamNames := BuildLabels(s.homeTeam, s.awayTeam);
    var lines := LogLines(Reverse(s.events), labels, teamNames);
    ReversedLines(s.events, labels, teamNames);
    view := Some(lines);
  }

  /** The minute of every entry follows the export's rule. */
  lemma LogMinute(e: MatchEvent, labels: map<string, string>, teamNames: map<string, string>)
    requires e.timestamp >= 0
    ensures var m := LogLineOf(e, labels, teamNames).minute;
      |m| >= 2 && m[|m| - 1] == '\'' && AllDigits(m[..|m| - 1]) &&
      DigitsValue(m[..|m| - 1]) == e.timestamp / 60000
  {
    var m := MatchExport.FormatMinute(e.timestamp);
    assert m[..|m| - 1] == NatToString(e.timestamp / 60000);
    NatToStringValue(e.timestamp / 60000);
  }
}
