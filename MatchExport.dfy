/** The CSV export: the player and team-name maps it builds, the minute
    label, and the text of the file (the download itself is not modelled). */
module MatchExport {
  import opened JsString
  import opened Types

  /** `formatMinute(ms)`: whole minutes followed by an apostrophe. */
  function FormatMinute(ms: int): string {
    IntToString(ms / 60000) + "'"
  }

  /** For a non-negative time the label is the decimal count of whole
      minutes, then `'`. */
  lemma FormatMinuteSpec(ms: int)
    requires ms >= 0
    ensures var r := FormatMinute(ms);
      |r| >= 2 && r[|r| - 1] == '\'' && AllDigits(r[..|r| - 1]) &&
      var m := DigitsValue(r[..|r| - 1]);
      m * 60000 <= ms < (m + 1) * 60000
  {
    var r := FormatMinute(ms);
    assert r[..|r| - 1] == NatToString(ms / 60000);
    NatToStringValue(ms / 60000);
  }

  lemma FormatMinuteExample()
    ensures FormatMinute(2640000) == "44'"
  {
    assert 2640000 / 60000 == 44;
    assert NatToString(44) == "44" by { assert NatToString(4) == "4"; }
  }

  /** `EVENT_LABELS` of the export. */
  function EventLabel(t: EventType): string {
    match t
    case Goal => "Gol"
    case YellowCard => "Tarjeta amarilla"
    case RedCard => "Tarjeta roja"
    case Substitution => "Cambio"
    case Corner => "Corner"
    case Shot => "Tiro"
  }

  /** Distinct event types get distinct labels, so the `Tipo` column tells
      them apart. */
  lemma EventLabelsDistinct(t: EventType, u: EventType)
    ensures EventLabel(t) == EventLabel(u) ==> t == u
  {
  }

  /** The two maps the component fills: players home first then away, so an
      away player wins an id collision; team names the same way. */
  method BuildMaps(home: Team, away: Team) returns (players: map<string, Player>, teamNames: map<string, string>)
    ensures players == PlayerIndex(home.players + away.players)
    ensures teamNames == map[home.id := home.name][away.id := away.name]
  {
    players := map[];
    teamNames := map[];
    teamNames := teamNames[home.id := home.name];
    teamNames := teamNames[away.id := away.name];
    for i := 0 to |home.players|
      invariant players == PlayerIndex(home.players[..i])
    {
      assert home.players[..i + 1][..i] == home.players[..i];
      players := players[home.players[i].id := home.players[i]];
    }
    assert home.players[..|home.players|] == home.players;
    assert home.players + away.players[..0] == home.players;
    for i := 0 to |away.players|
      invariant players == PlayerIndex(home.players + away.players[..i])
    {
      assert (home.players + away.players[..i + 1])[..|home.players| + i] == home.players + away.players[..i];
      players := players[away.players[i].id := away.players[i]];
    }
    assert away.players[..|away.players|] == away.players;
  }

  /** An away player whose id is unique among the away players is the one the
      map holds, whatever the home team contains. */
  lemma AwayWinsCollision(home: Team, away: Team, p: Player)
    requires p in away.players
    requires forall j :: 0 <= j < |away.players| && away.players[j].id == p.id ==> away.players[j] == p
    ensures p.id in PlayerIndex(home.players + away.players) && PlayerIndex(home.players + away.players)[p.id] == p
  {
    PlayerIndexLaterWins(home.players, away.players, p);
  }

  /** The header line, `Minuto,Tipo,Jugador,Dorsal,Equipo,Jugador 2,Dorsal 2`. */
  const CsvHeader: string := "Minuto," + "Tipo," + "Jugador," + "Dorsal," + "Equipo," + "Jugador 2," + "Dorsal 2"

  /** The seven values of one event's line, before quoting. */
  function CsvFields(e: MatchEvent, players: map<string, Player>, teamNames: map<string, string>): (fs: seq<string>)
    ensures |fs| == 7
    ensures fs[0] == FormatMinute(e.timestamp) && fs[1] == EventLabel(e.eventType)
    ensures e.playerId !in players ==> fs[2] == "" && fs[3] == ""
    ensures e.teamId !in teamNames ==> fs[4] == ""
    ensures e.secondPlayerId == None || e.secondPlayerId == Some("") || e.secondPlayerId.value !in players ==>
      fs[5] == "" && fs[6] == ""
  {
    var hasSecond := e.secondPlayerId.Some? && e.secondPlayerId.value != "" && e.secondPlayerId.value in players;
    [ FormatMinute(e.timestamp),
      EventLabel(e.eventType),
      if e.playerId in players then players[e.playerId].name else "",
      if e.playerId in players then IntToString(players[e.playerId].number) else "",
      if e.teamId in teamNames then teamNames[e.teamId] else "",
      if hasSecond then players[e.secondPlayerId.value].name else "",
      if hasSecond then IntToString(players[e.secondPlayerId.value].number) else "" ]
  }

  function Quote(v: string): string {
    "\"" + v + "\""
  }

  function QuoteAll(fs: seq<string>): (qs: seq<string>)
    ensures |qs| == |fs| && forall i :: 0 <= i < |fs| ==> qs[i] == Quote(fs[i])
  {
    if fs == [] then [] else [Quote(fs[0])] + QuoteAll(fs[1..])
  }

  /** One event line: every value in double quotes, no escaping, joined by
      commas. */
  function CsvRow(fs: seq<string>): string {
    Join(",", QuoteAll(fs))
  }

  /** `handleExportCSV`'s text: the header and one line per event, in event
      order, joined by newlines. */
  function ExportCsv(home: Team, away: Team, events: seq<MatchEvent>): string {
    var players := PlayerIndex(home.players + away.players);
    var teamNames := map[home.id := home.name][away.id := away.name];
    Join("\n", [CsvHeader] + EventRows(events, players, teamNames))
  }

  /** The event lines, in event order. */
  function EventRows(events: seq<MatchEvent>, players: map<string, Player>, teamNames: map<string, string>): (rows: seq<string>)
    ensures |rows| == |events|
  {
    seq(|events|, k requires 0 <= k < |events| => CsvRow(CsvFields(events[k], players, teamNames)))
  }

  // ---------------------------------------------------------------------
  // Reading the export back

  /** The values of a line whose values hold no double quote: every second
      piece between quotes. */
  function ParseQuotedRow(line: string): seq<string> {
    var pieces := Split(line, '"');
    seq(|pieces| / 2, i requires 0 <= i < |pieces| / 2 => pieces[2 * i + 1])
  }

  /** The pieces between the quote characters of `CsvRow(fs)`. */
  function Skeleton(fs: seq<string>): seq<string>
    requires |fs| >= 1
  {
    [""] + SkeletonTail(fs)
  }

  function SkeletonTail(fs: seq<string>): (r: seq<string>)
    requires |fs| >= 1
    ensures |r| == 2 * |fs|
    decreases |fs|
  {
    if |fs| == 1 then [fs[0], ""] else [fs[0], ","] + SkeletonTail(fs[1..])
  }

  /** Piece `2i` of the tail is value `i`, and piece `2i + 1` is the comma
      after it, empty after the last value. */
  lemma {:induction false} SkeletonTailAt(fs: seq<string>, i: nat)
    requires i < |fs|
    ensures SkeletonTail(fs)[2 * i] == fs[i]
    ensures SkeletonTail(fs)[2 * i + 1] == if i == |fs| - 1 then "" else ","
    decreases i
  {
    if i > 0 {
      SkeletonTailAt(fs[1..], i - 1);
      assert SkeletonTail(fs) == [fs[0], ","] + SkeletonTail(fs[1..]);
    }
  }

  /** Regroups a quote, the field `a`, a quote, the comma `c`, a quote and
      the rest `j` into the quoted field, the comma and the quoted rest. */
  lemma Shuffle(q: string, a: string, c: string, j: string)
    ensures q + (a + q + (c + q + j)) == (q + a + q) + c + (q + j)
  {
  }

  lemma {:induction false} SkeletonTailJoin(fs: seq<string>)
    requires |fs| >= 1
    ensures "\"" + Join("\"", SkeletonTail(fs)) == CsvRow(fs)
    decreases |fs|
  {
    var q := "\"";
    if |fs| == 1 {
      assert SkeletonTail(fs) == [fs[0], ""];
      assert Join(q, [fs[0], ""]) == fs[0] + q + "";
      assert QuoteAll(fs) == [Quote(fs[0])];
    } else {
      var t := SkeletonTail(fs[1..]);
      SkeletonTailJoin(fs[1..]);
      var comma := [","] + t;
      var all := [fs[0]] + comma;
      assert SkeletonTail(fs) == all;
      assert all[1..] == comma;
      assert comma[1..] == t;
      var j := Join(q, t);
      assert Join(q, all) == fs[0] + q + ("," + q + j);
      var qs := QuoteAll(fs);
      assert qs[1..] == QuoteAll(fs[1..]);
      assert CsvRow(fs) == Quote(fs[0]) + "," + CsvRow(fs[1..]);
      Shuffle(q, fs[0], ",", j);
    }
  }

  predicate Plain(s: string) {
    '"' !in s && '\n' !in s
  }

  /** No piece of the skeleton holds a quote when no value does. */
  lemma SkeletonPlain(fs: seq<string>)
    requires |fs| >= 1
    requires forall i :: 0 <= i < |fs| ==> '"' !in fs[i]
    ensures forall k :: 0 <= k < |Skeleton(fs)| ==> '"' !in Skeleton(fs)[k]
  {
    var sk := Skeleton(fs);
    var t := SkeletonTail(fs);
    forall k | 0 <= k < |sk| ensures '"' !in sk[k] {
      if k > 0 {
        var i := (k - 1) / 2;
        SkeletonTailAt(fs, i);
        assert sk[k] == t[k - 1];
        if (k - 1) % 2 == 0 {
          assert k - 1 == 2 * i;
        } else {
          assert k - 1 == 2 * i + 1;
        }
      }
    }
  }

  /** Quoting without escaping is undone by `ParseQuotedRow` as long as no
      value contains a double quote. */
  lemma CsvRowRoundTrip(fs: seq<string>)
    requires |fs| >= 1
    requires forall i :: 0 <= i < |fs| ==> '"' !in fs[i]
    ensures ParseQuotedRow(CsvRow(fs)) == fs
  {
    var sk := Skeleton(fs);
    var t := SkeletonTail(fs);
    SkeletonTailJoin(fs);
    assert sk[1..] == t;
    assert Join("\"", sk) == "" + "\"" + Join("\"", t);
    assert CsvRow(fs) == Join("\"", sk);
    SkeletonPlain(fs);
    SplitJoin(sk, '"');
    var r := ParseQuotedRow(CsvRow(fs));
    assert |r| == |fs|;
    forall i | 0 <= i < |fs| ensures r[i] == fs[i] {
      SkeletonTailAt(fs, i);
      assert r[i] == sk[2 * i + 1] == t[2 * i];
    }
  }

  lemma {:induction false} JoinAvoids(sep: string, parts: seq<string>, c: char)
    requires c !in sep && forall k :: 0 <= k < |parts| ==> c !in parts[k]
    ensures c !in Join(sep, parts)
    decreases |parts|
  {
    if |parts| > 1 {
      JoinAvoids(sep, parts[1..], c);
    }
  }

  lemma QuoteAllAvoidsNewline(fs: seq<string>)
    requires forall i :: 0 <= i < |fs| ==> '\n' !in fs[i]
    ensures forall i :: 0 <= i < |QuoteAll(fs)| ==> '\n' !in QuoteAll(fs)[i]
  {
    forall i | 0 <= i < |fs| ensures '\n' !in QuoteAll(fs)[i] {
      assert QuoteAll(fs)[i] == "\"" + fs[i] + "\"";
    }
  }

  lemma IntToStringPlain(i: int)
    ensures Plain(IntToString(i))
  {
    var d := NatToString(if i < 0 then -i else i);
    assert forall k :: 0 <= k < |d| ==> IsDigit(d[k]);
  }

  lemma EventLabelPlain(t: EventType)
    ensures Plain(EventLabel(t))
  {
    match t
    case Goal =>
    case YellowCard =>
    case RedCard =>
    case Substitution =>
    case Corner =>
    case Shot =>
  }

  lemma FormatMinutePlain(ms: int)
    ensures Plain(FormatMinute(ms))
  {
    IntToStringPlain(ms / 60000);
    assert FormatMinute(ms) == IntToString(ms / 60000) + "'";
  }

  /** Names without double quotes or line breaks make every value plain. */
  lemma CsvFieldsPlain(e: MatchEvent, players: map<string, Player>, teamNames: map<string, string>)
    requires forall id :: id in players ==> Plain(players[id].name)
    requires forall id :: id in teamNames ==> Plain(teamNames[id])
    ensures forall i :: 0 <= i < 7 ==> Plain(CsvFields(e, players, teamNames)[i])
  {
    var fs := CsvFields(e, players, teamNames);
    FormatMinutePlain(e.timestamp);
    EventLabelPlain(e.eventType);
    if e.playerId in players { IntToStringPlain(players[e.playerId].number); }
    if e.secondPlayerId.Some? && e.secondPlayerId.value in players {
      IntToStringPlain(players[e.secondPlayerId.value].number);
    }
    assert Plain(fs[0]) && Plain(fs[1]);
  }

  /** One event's line holds no line break and reads back as its values. */
  lemma EventRowRoundTrip(e: MatchEvent, players: map<string, Player>, teamNames: map<string, string>)
    requires forall id :: id in players ==> Plain(players[id].name)
    requires forall id :: id in teamNames ==> Plain(teamNames[id])
    ensures '\n' !in CsvRow(CsvFields(e, players, teamNames))
    ensures ParseQuotedRow(CsvRow(CsvFields(e, players, teamNames))) == CsvFields(e, players, teamNames)
  {
    var fs := CsvFields(e, players, teamNames);
    CsvFieldsPlain(e, players, teamNames);
    QuoteAllAvoidsNewline(fs);
    JoinAvoids(",", QuoteAll(fs), '\n');
    CsvRowRoundTrip(fs);
  }

  /** A player map filled from players with plain names holds only plain
      names. */
  lemma IndexPlain(all: seq<Player>)
    requires forall k :: 0 <= k < |all| ==> Plain(all[k].name)
    ensures forall id :: id in PlayerIndex(all) ==> Plain(PlayerIndex(all)[id].name)
  {
    forall id | id in PlayerIndex(all) ensures Plain(PlayerIndex(all)[id].name) {
      PlayerIndexSpec(all, id);
    }
  }

  /** Every event line holds no line break and reads back as its values. */
  lemma EventRowsRoundTrip(events: seq<MatchEvent>, players: map<string, Player>, teamNames: map<string, string>)
    requires forall id :: id in players ==> Plain(players[id].name)
    requires forall id :: id in teamNames ==> Plain(teamNames[id])
    ensures forall k :: 0 <= k < |events| ==>
      '\n' !in EventRows(events, players, teamNames)[k] &&
      ParseQuotedRow(EventRows(events, players, teamNames)[k]) == CsvFields(events[k], players, teamNames)
  {
    var rows := EventRows(events, players, teamNames);
    forall k | 0 <= k < |events|
      ensures '\n' !in rows[k] && ParseQuotedRow(rows[k]) == CsvFields(events[k], players, teamNames)
    {
      EventRowRoundTrip(events[k], players, teamNames);
    }
  }

  /** Lines without line breaks, joined by newlines, split back into
      themselves. */
  lemma LinesSplit(rows: seq<string>)
    requires forall k :: 0 <= k < |rows| ==> '\n' !in rows[k]
    ensures Split(Join("\n", [CsvHeader] + rows), '\n') == [CsvHeader] + rows
  {
    var lines := [CsvHeader] + rows;
    HeaderHasNoNewline();
    forall k | 0 <= k < |lines| ensures '\n' !in lines[k] {
      if k > 0 { assert lines[k] == rows[k - 1]; }
    }
    SplitJoin(lines, '\n');
  }

  lemma ConcatPlain(a: seq<Player>, b: seq<Player>)
    requires forall k :: 0 <= k < |a| ==> Plain(a[k].name)
    requires forall k :: 0 <= k < |b| ==> Plain(b[k].name)
    ensures forall k :: 0 <= k < |a + b| ==> Plain((a + b)[k].name)
  {
    forall k | 0 <= k < |a + b| ensures Plain((a + b)[k].name) {
      if k >= |a| { assert (a + b)[k] == b[k - |a|]; }
    }
  }

  /** The export has one line per event after the header, in event order,
      and each line reads back as exactly that event's seven values, provided
      no player or team name contains a double quote or a line break. */
  lemma ExportCsvRoundTrip(home: Team, away: Team, events: seq<MatchEvent>)
    requires Plain(home.name) && Plain(away.name)
    requires forall k :: 0 <= k < |home.players| ==> Plain(home.players[k].name)
    requires forall k :: 0 <= k < |away.players| ==> Plain(away.players[k].name)
    ensures var lines := Split(ExportCsv(home, away, events), '\n');
      var players := PlayerIndex(home.players + away.players);
      var teamNames := map[home.id := home.name][away.id := away.name];
      && |lines| == |events| + 1
      && lines[0] == CsvHeader
      && forall k :: 0 <= k < |events| ==> ParseQuotedRow(lines[k + 1]) == CsvFields(events[k], players, teamNames)
  {
    var players := PlayerIndex(home.players + away.players);
    var teamNames := map[home.id := home.name][away.id := away.name];
    ConcatPlain(home.players, away.players);
    IndexPlain(home.players + away.players);
    var rows := EventRows(events, players, teamNames);
    EventRowsRoundTrip(events, players, teamNames);
    LinesSplit(rows);
  }

  lemma HeaderHasNoNewline()
    ensures '\n' !in CsvHeader
  {
  }

  /** The values for a goal by number 10, Smith, at 44 minutes for "Home". */
  lemma CsvFieldsExample()
    ensures var smith := Player("p10", "Smith", 10, None);
      var e := MatchEvent("e1", Goal, 2640000, "p10", "home", None, None);
      CsvFields(e, map["p10" := smith], map["home" := "Home"]) == ["44'", "Gol", "Smith", "10", "Home", "", ""]
  {
    FormatMinuteExample();
    assert IntToString(10) == "10" by { assert NatToString(1) == "1"; }
  }

  /** Each value quoted, commas between; an empty value is a pair of quotes. */
  lemma CsvRowExample()
    ensures CsvRow(["44'", "Gol", ""]) == "\"44'\",\"Gol\",\"\""
  {
    var qs := QuoteAll(["44'", "Gol", ""]);
    assert qs[0] == "\"44'\"" && qs[1] == "\"Gol\"" && qs[2] == "\"\"";
    assert Join(",", qs[2..]) == "\"\"";
    assert Join(",", qs[1..]) == "\"Gol\"" + "," + "\"\"";
  }
}
