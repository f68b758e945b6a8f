/** The extraction loops of the scraper: the team-name loop, and the table
    and row loops that push teams and players. */
module ScrapeExtract {
  import opened JsString
  import opened JsNumber
  import opened Types
  import opened ScrapeDocument

  /** `teamNames[k] || \`Equipo ${k + 1}\``. */
  function TeamName(names: seq<string>, k: nat): string {
    if k < |names| && names[k] != "" then names[k] else "Equipo " + IntToString(k + 1)
  }

  /** The player an entry becomes in team `k`. `stamp` stands for the
      `Date.now()` and `Math.random()` readings, joined by `-`. */
  function PlayerFor(k: nat, e: Entry, stamp: string): LineupPlayer {
    LineupPlayer(IntToString(k) + "-" + IntToString(e.number) + "-" + stamp, e.name, e.number, None, e.isStarter)
  }

  /** The player keeps the entry's number, trimmed name and starter flag, and
      its id starts with `<k>-<number>-`. */
  lemma PlayerForShape(k: nat, e: Entry, stamp: string)
    ensures var p := PlayerFor(k, e, stamp);
      p.name == e.name && p.number == e.number && p.isStarter == e.isStarter && p.position == None
    ensures var prefix := IntToString(k) + "-" + IntToString(e.number) + "-";
      |prefix| <= |PlayerFor(k, e, stamp).id| && PlayerFor(k, e, stamp).id[..|prefix|] == prefix
  {
    var prefix := IntToString(k) + "-" + IntToString(e.number) + "-";
    assert (prefix + stamp)[..|prefix|] == prefix;
  }

  /** Team `k` as the extraction builds it for its entry: one player. */
  function TeamFor(k: nat, e: Entry, names: seq<string>, stamp: nat -> string): LineupTeamData {
    LineupTeamData(TeamName(names, k), [PlayerFor(k, e, stamp(k))])
  }

  /** The teams the extraction leaves behind. The slot it computes,
      `floor(n / 2) * 2 + n % 2` for `n` teams so far, is `n` itself, so every
      accepted row opens a team of its own (`stamp(k)` is the reading for the
      `k`-th accepted row). */
  function BuildTeams(entries: seq<Entry>, names: seq<string>, stamp: nat -> string): (teams: seq<LineupTeamData>)
    ensures |teams| == |entries|
    decreases |entries|
  {
    if entries == [] then []
    else
      var k := |entries| - 1;
      BuildTeams(entries[..k], names, stamp) + [TeamFor(k, entries[k], names, stamp)]
  }

  /** Team `k` is the one-player team of the `k`-th accepted row. */
  lemma {:induction false} BuildTeamsShape(entries: seq<Entry>, names: seq<string>, stamp: nat -> string)
    ensures forall k :: 0 <= k < |entries| ==>
      BuildTeams(entries, names, stamp)[k] == TeamFor(k, entries[k], names, stamp)
    decreases |entries|
  {
    if entries != [] {
      BuildTeamsShape(entries[..|entries| - 1], names, stamp);
    }
  }

  lemma BuildTeamsAppend(entries: seq<Entry>, e: Entry, names: seq<string>, stamp: nat -> string)
    ensures BuildTeams(entries + [e], names, stamp) ==
      BuildTeams(entries, names, stamp) + [TeamFor(|entries|, e, names, stamp)]
  {
    assert (entries + [e])[..|entries|] == entries;
  }

  /** The header loop: push every trimmed, non-empty span text. */
  method CollectTeamNames(spans: seq<string>) returns (names: seq<string>)
    ensures names == TeamNamesOf(spans)
  {
    names := [];
    for i := 0 to |spans|
      invariant names == TeamNamesOf(spans[..i])
    {
      assert spans[..i + 1][..i] == spans[..i];
      var name := Trim(spans[i]);
      if name != "" {
        names := names + [name];
      }
    }
    assert spans[..|spans|] == spans;
  }

  /** The table loop and, inside it, the row loop, pushing teams and players
      as the handler does. */
  method ExtractTeams(tables: seq<Table>, names: seq<string>, stamp: nat -> string)
    returns (teams: seq<LineupTeamData>)
    ensures teams == BuildTeams(AcceptedRows(tables), names, stamp)
  {
    teams := [];
    for i := 0 to |tables|
      invariant teams == BuildTeams(AcceptedRows(tables[..i]), names, stamp)
    {
      AcceptedRowsStep(tables, i);
      var kind := ReadHeader(tables[i]);
      if kind.Some? {
        teams := ExtractTable(teams, tables[i].rows, kind.value, names, stamp, AcceptedRows(tables[..i]));
      } else {
        assert AcceptedRows(tables[..i]) + [] == AcceptedRows(tables[..i]);
      }
    }
    assert tables[..|tables|] == tables;
  }

  /** The header test: the trimmed header text must be `Titulars` or
      `Suplents`, and `isStarter` is whether it is `Titulars`. */
  method ReadHeader(table: Table) returns (kind: Option<bool>)
    ensures kind == TableKind(table.headerText)
    ensures kind.Some? ==> TableEntries(table) == AcceptedIn(table.rows, kind.value)
    ensures kind.None? ==> TableEntries(table) == []
  {
    var headerText := Trim(table.headerText);
    var isStarter := headerText == "Titulars";
    if headerText != "Titulars" && headerText != "Suplents" {
      return None;
    }
    return Some(isStarter);
  }

  /** The row loop of one player table. */
  method ExtractTable(teams0: seq<LineupTeamData>, rows: seq<Row>, isStarter: bool, names: seq<string>,
                      stamp: nat -> string, ghost before: seq<Entry>)
    returns (teams: seq<LineupTeamData>)
    requires teams0 == BuildTeams(before, names, stamp)
    ensures teams == BuildTeams(before + AcceptedIn(rows, isStarter), names, stamp)
  {
    teams := teams0;
    assert rows[..0] == [];
    assert before + AcceptedIn(rows[..0], isStarter) == before;
    for j := 0 to |rows|
      invariant teams == BuildTeams(before + AcceptedIn(rows[..j], isStarter), names, stamp)
    {
      teams := TakeRow(teams, rows, j, isStarter, names, stamp, before);
    }
    assert rows[..|rows|] == rows;
  }

  /** The body of the row loop: read row `j`, and push its player when it is
      accepted. */
  method TakeRow(teams0: seq<LineupTeamData>, rows: seq<Row>, j: nat, isStarter: bool, names: seq<string>,
                 stamp: nat -> string, ghost before: seq<Entry>)
    returns (teams: seq<LineupTeamData>)
    requires j < |rows|
    requires teams0 == BuildTeams(before + AcceptedIn(rows[..j], isStarter), names, stamp)
    ensures teams == BuildTeams(before + AcceptedIn(rows[..j + 1], isStarter), names, stamp)
  {
    teams := teams0;
    ghost var sofar := before + AcceptedIn(rows[..j], isStarter);
    AcceptedInStep(rows, j, isStarter);
    var entry := ReadRow(rows[j], isStarter);
    if entry.Some? {
      teams := PushPlayer(teams, entry.value, names, stamp, sofar);
      Regroup(before, AcceptedIn(rows[..j], isStarter), entry.value);
    }
  }

  /** The cell texts of one row, trimmed, and the test `name && number`. */
  method ReadRow(row: Row, isStarter: bool) returns (entry: Option<Entry>)
    ensures entry == RowEntry(row, isStarter)
  {
    var numberText := Trim(row.numberText);
    var number := if numberText != "" then ParseInt(numberText) else Num(0);
    var name := Trim(row.nameText);
    if name != "" && Truthy(number) {
      return Some(Entry(number.value, name, isStarter));
    }
    return None;
  }

  lemma Regroup<T>(a: seq<T>, b: seq<T>, x: T)
    ensures a + (b + [x]) == (a + b) + [x]
  {
  }

  /** `floor(n / 2) * 2 + n % 2` is `n`. */
  lemma SlotIsLength(n: nat)
    ensures (n / 2) * 2 + n % 2 == n
  {
  }

  lemma UpdateLast<T>(a: seq<T>, x: T, y: T)
    ensures (a + [x])[|a| := y] == a + [y]
  {
  }

  /** An accepted row: compute the slot, open a team there when the slot is
      empty (it always is, being `teams.length`), and push the player into it.
      `sofar` is the entry list the teams so far were built from. */
  method PushPlayer(teams0: seq<LineupTeamData>, e: Entry, names: seq<string>,
                    stamp: nat -> string, ghost sofar: seq<Entry>)
    returns (teams: seq<LineupTeamData>)
    requires teams0 == BuildTeams(sofar, names, stamp)
    ensures teams == BuildTeams(sofar + [e], names, stamp)
  {
    teams := teams0;
    var teamIndex := (|teams| / 2) * 2 + |teams| % 2;
    SlotIsLength(|teams|);
    if teamIndex >= |teams| {
      teams := teams + [LineupTeamData(TeamName(names, teamIndex), [])];
    } else {
      assert false;
    }
    var player := LineupPlayer(
      IntToString(teamIndex) + "-" + IntToString(e.number) + "-" + stamp(teamIndex),
      e.name, e.number, None, e.isStarter);
    var team := teams[teamIndex];
    var grown := team.(players := team.players + [player]);
    assert grown == TeamFor(teamIndex, e, names, stamp);
    teams := teams[teamIndex := grown];
    UpdateLast(teams0, team, grown);
    BuildTeamsAppend(sofar, e, names, stamp);
  }
}
