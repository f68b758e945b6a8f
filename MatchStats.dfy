/** Match statistics: per-team counts of each event type over the event list,
    shown for the six rows of `STAT_ROWS`. */
module MatchStats {
  import opened Types

  predicate Matches(e: MatchEvent, t: EventType, teamId: string) {
    e.eventType == t && e.teamId == teamId
  }

  /** `events.filter(e => e.type === type && e.teamId === teamId)`. */
  function Filter(events: seq<MatchEvent>, t: EventType, teamId: string): (r: seq<MatchEvent>)
    ensures |r| <= |events|
    ensures forall k :: 0 <= k < |r| ==> r[k] in events && Matches(r[k], t, teamId)
    decreases |events|
  {
    if events == [] then []
    else
      var last := events[|events| - 1];
      Filter(events[..|events| - 1], t, teamId) + (if Matches(last, t, teamId) then [last] else [])
  }

  /** `countByTeam(events, type, teamId)`. */
  function CountByTeam(events: seq<MatchEvent>, t: EventType, teamId: string): (n: nat)
    ensures n <= |events|
  {
    |Filter(events, t, teamId)|
  }

  /** The indices of the events a count takes in. */
  function MatchingIndices(events: seq<MatchEvent>, t: EventType, teamId: string): set<nat> {
    set k: nat | k < |events| && Matches(events[k], t, teamId)
  }

  /** The count is the number of positions holding a matching event. */
  lemma {:induction false} CountIsMatchingPositions(events: seq<MatchEvent>, t: EventType, teamId: string)
    ensures CountByTeam(events, t, teamId) == |MatchingIndices(events, t, teamId)|
    decreases |events|
  {
    if events != [] {
      var init := events[..|events| - 1];
      CountIsMatchingPositions(init, t, teamId);
      var last := events[|events| - 1];
      var a := MatchingIndices(init, t, teamId);
      var b := MatchingIndices(events, t, teamId);
      if Matches(last, t, teamId) {
        assert b == a + {|events| - 1};
      } else {
        assert b == a;
      }
    }
  }

  /** Appending an event raises exactly its own (type, team) count by one. */
  lemma CountAppend(events: seq<MatchEvent>, e: MatchEvent, t: EventType, teamId: string)
    ensures CountByTeam(events + [e], t, teamId) ==
      CountByTeam(events, t, teamId) + (if Matches(e, t, teamId) then 1 else 0)
  {
    assert (events + [e])[..|events|] == events;
  }

  datatype StatRow = StatRow(eventType: EventType, caption: string)

  const StatRows: seq<StatRow> := [
    StatRow(Goal, "Goles"),
    StatRow(Shot, "Tiros"),
    StatRow(Corner, "Corners"),
    StatRow(YellowCard, "Amarillas"),
    StatRow(RedCard, "Rojas"),
    StatRow(Substitution, "Cambios")
  ]

  /** Every event type has exactly one row. */
  lemma StatRowsCoverEveryType(t: EventType)
    ensures exists k :: 0 <= k < |StatRows| && StatRows[k].eventType == t
    ensures forall j, k :: 0 <= j < k < |StatRows| ==> StatRows[j].eventType != StatRows[k].eventType
  {
    match t
    case Goal => assert StatRows[0].eventType == t;
    case Shot => assert StatRows[1].eventType == t;
    case Corner => assert StatRows[2].eventType == t;
    case YellowCard => assert StatRows[3].eventType == t;
    case RedCard => assert StatRows[4].eventType == t;
    case Substitution => assert StatRows[5].eventType == t;
  }

  /** The sum of a team's counts over `rows`. */
  function RowsTotal(events: seq<MatchEvent>, rows: seq<StatRow>, teamId: string): nat
    decreases |rows|
  {
    if rows == [] then 0 else CountByTeam(events, rows[0].eventType, teamId) + RowsTotal(events, rows[1..], teamId)
  }

  /** The number of events of one team, whatever their type. */
  function TeamEventCount(events: seq<MatchEvent>, teamId: string): nat
    decreases |events|
  {
    if events == [] then 0
    else TeamEventCount(events[..|events| - 1], teamId) + (if events[|events| - 1].teamId == teamId then 1 else 0)
  }

  /** How many of `rows` the event `e` counts towards for the team. */
  function RowsHit(e: MatchEvent, rows: seq<StatRow>, teamId: string): nat
    decreases |rows|
  {
    if rows == [] then 0 else (if Matches(e, rows[0].eventType, teamId) then 1 else 0) + RowsHit(e, rows[1..], teamId)
  }

  /** Appending an event raises the sum over `rows` by the rows it counts
      towards. */
  lemma {:induction false} RowsTotalAppend(events: seq<MatchEvent>, e: MatchEvent, rows: seq<StatRow>, teamId: string)
    ensures RowsTotal(events + [e], rows, teamId) == RowsTotal(events, rows, teamId) + RowsHit(e, rows, teamId)
    decreases |rows|
  {
    if rows != [] {
      CountAppend(events, e, rows[0].eventType, teamId);
      RowsTotalAppend(events, e, rows[1..], teamId);
    }
  }

  /** An event of the team counts towards exactly one of the six rows. */
  lemma StatRowsHitOnce(e: MatchEvent, teamId: string)
    ensures RowsHit(e, StatRows, teamId) == if e.teamId == teamId then 1 else 0
  {
    assert StatRows[1..][1..][1..][1..][1..][1..] == [];
  }

  /** The six rows together count every event of the team exactly once. */
  lemma {:induction false} StatRowsSumToTeamTotal(events: seq<MatchEvent>, teamId: string)
    ensures RowsTotal(events, StatRows, teamId) == TeamEventCount(events, teamId)
    decreases |events|
  {
    if events != [] {
      var init := events[..|events| - 1];
      StatRowsSumToTeamTotal(init, teamId);
      var e := events[|events| - 1];
      assert events == init + [e];
      RowsTotalAppend(init, e, StatRows, teamId);
      StatRowsHitOnce(e, teamId);
    }
  }

  /** The number of events of one type, whatever their team. */
  function TypeCount(events: seq<MatchEvent>, t: EventType): nat
    decreases |events|
  {
    if events == [] then 0
    else TypeCount(events[..|events| - 1], t) + (if events[|events| - 1].eventType == t then 1 else 0)
  }

  /** With distinct team ids, the home and away figures of a row never exceed
      the events of that type. */
  lemma {:induction false} HomeAwayWithinType(events: seq<MatchEvent>, t: EventType, homeId: string, awayId: string)
    requires homeId != awayId
    ensures CountByTeam(events, t, homeId) + CountByTeam(events, t, awayId) <= TypeCount(events, t)
    decreases |events|
  {
    if events != [] {
      var init := events[..|events| - 1];
      HomeAwayWithinType(init, t, homeId, awayId);
    }
  }

  /** The figures the statistics card shows for one row. */
  datatype StatLine = StatLine(caption: string, home: nat, away: nat)

  function StatLines(events: seq<MatchEvent>, homeId: string, awayId: string): (lines: seq<StatLine>)
    ensures |lines| == |StatRows|
    ensures forall k :: 0 <= k < |lines| ==>
      lines[k].caption == StatRows[k].caption &&
      lines[k].home == CountByTeam(events, StatRows[k].eventType, homeId) &&
      lines[k].away == CountByTeam(events, StatRows[k].eventType, awayId)
  {
    seq(|StatRows|, k requires 0 <= k < |StatRows| =>
      StatLine(StatRows[k].caption, CountByTeam(events, StatRows[k].eventType, homeId),
               CountByTeam(events, StatRows[k].eventType, awayId)))
  }
}
