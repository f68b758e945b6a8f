/** The match report as the scraper sees it, and which parts of it count:
    the team-name spans, the player tables by their header, and the rows with
    a name and a truthy jersey number. The HTML parser's output is taken as
    given: a document is the text of the team-name spans and, per table, the
    header text and the number and name cell texts of each body row. */
module ScrapeDocument {
  import opened JsString
  import opened JsNumber
  import opened Types
  import opened Options

  /** `numberText ? Number.parseInt(numberText, 10) : 0`. */
  function JerseyNumber(numberText: string): (p: ParsedInt)
    ensures numberText == "" ==> p == Num(0)
  {
    if numberText != "" then ParseInt(numberText) else Num(0)
  }

  /** One body row: the texts of the jersey-number cell and the name link. */
  datatype Row = Row(numberText: string, nameText: string)

  /** One `.acta-table`: its header cells' text and its body rows. */
  datatype Table = Table(headerText: string, rows: seq<Row>)

  datatype Document = Document(teamNameSpans: seq<string>, tables: seq<Table>)

  /** `Some(isStarter)` for a player table, `None` for a table that is
      skipped. */
  function TableKind(headerText: string): (k: Option<bool>)
    ensures k.Some? <==> Trim(headerText) == "Titulars" || Trim(headerText) == "Suplents"
    ensures k == Some(true) <==> Trim(headerText) == "Titulars"
  {
    var h := Trim(headerText);
    if h != "Titulars" && h != "Suplents" then None else Some(h == "Titulars")
  }

  /** A row becomes a player when its trimmed name is non-empty and its
      parsed number is truthy. */
  predicate Accepted(r: Row) {
    Trim(r.nameText) != "" && Truthy(JerseyNumber(Trim(r.numberText)))
  }

  /** What an accepted row contributes: the parsed number, the trimmed name
      and whether its table is the starters' table. */
  datatype Entry = Entry(number: int, name: string, isStarter: bool)

  /** The row's entry when it is accepted. */
  function RowEntry(r: Row, isStarter: bool): (e: Option<Entry>)
    ensures e.Some? <==> Accepted(r)
    ensures e.Some? ==>
      e.value == Entry(JerseyNumber(Trim(r.numberText)).value, Trim(r.nameText), isStarter) &&
      e.value.name != "" && e.value.number != 0
  {
    if Accepted(r) then Some(Entry(JerseyNumber(Trim(r.numberText)).value, Trim(r.nameText), isStarter)) else None
  }

  /** Rows without a number, with a number text that is not numeric, and with
      number zero are all dropped; so is a row whose name is blank. */
  lemma RowAcceptance(r: Row)
    ensures Trim(r.numberText) == "" ==> !Accepted(r)
    ensures ParseInt(Trim(r.numberText)) == NaN ==> !Accepted(r)
    ensures ParseInt(Trim(r.numberText)) == Num(0) ==> !Accepted(r)
    ensures Trim(r.nameText) == "" ==> !Accepted(r)
    ensures Accepted(r) <==>
      Trim(r.nameText) != "" && Trim(r.numberText) != "" &&
      ParseInt(Trim(r.numberText)).Num? && ParseInt(Trim(r.numberText)).value != 0
  {
  }

  /** The entries of the accepted rows of one table, in row order. */
  function AcceptedIn(rows: seq<Row>, isStarter: bool): (es: seq<Entry>)
    ensures |es| <= |rows|
    decreases |rows|
  {
    if rows == [] then []
    else
      AcceptedIn(rows[..|rows| - 1], isStarter) + RowTail(rows[|rows| - 1], isStarter)
  }

  /** Entries that all carry the starter flag `isStarter`, a non-empty name
      and a non-zero number. */
  predicate Shaped(es: seq<Entry>, isStarter: bool) {
    forall k :: 0 <= k < |es| ==> es[k].isStarter == isStarter && es[k].name != "" && es[k].number != 0
  }

  lemma ShapedConcat(a: seq<Entry>, b: seq<Entry>, isStarter: bool)
    requires Shaped(a, isStarter) && Shaped(b, isStarter)
    ensures Shaped(a + b, isStarter)
  {
    forall k | 0 <= k < |a + b|
      ensures (a + b)[k].isStarter == isStarter && (a + b)[k].name != "" && (a + b)[k].number != 0
    {
      if k >= |a| { assert (a + b)[k] == b[k - |a|]; }
    }
  }

  /** The entries one row contributes: its entry, or none. */
  function RowTail(r: Row, isStarter: bool): (es: seq<Entry>)
    ensures Shaped(es, isStarter)
    ensures |es| == if Accepted(r) then 1 else 0
  {
    var e := RowEntry(r, isStarter);
    if e.Some? then [e.value] else []
  }

  /** Every entry of a player table has the table's starter flag, a
      non-empty name and a non-zero number. */
  lemma {:induction false} AcceptedInShape(rows: seq<Row>, isStarter: bool)
    ensures Shaped(AcceptedIn(rows, isStarter), isStarter)
    decreases |rows|
  {
    if rows != [] {
      var init := rows[..|rows| - 1];
      AcceptedInShape(init, isStarter);
      var tail := RowTail(rows[|rows| - 1], isStarter);
      assert AcceptedIn(rows, isStarter) == AcceptedIn(init, isStarter) + tail;
      ShapedConcat(AcceptedIn(init, isStarter), tail, isStarter);
    }
  }

  /** One more row extends the entries by that row's entry, if any. */
  lemma AcceptedInStep(rows: seq<Row>, j: nat, isStarter: bool)
    requires j < |rows|
    ensures RowEntry(rows[j], isStarter).None? ==>
      AcceptedIn(rows[..j + 1], isStarter) == AcceptedIn(rows[..j], isStarter)
    ensures RowEntry(rows[j], isStarter).Some? ==>
      AcceptedIn(rows[..j + 1], isStarter) == AcceptedIn(rows[..j], isStarter) + [RowEntry(rows[j], isStarter).value]
  {
    assert rows[..j + 1][..j] == rows[..j];
    assert AcceptedIn(rows[..j], isStarter) + [] == AcceptedIn(rows[..j], isStarter);
  }

  /** Each row's entry, position by position. */
  function RowEntries(rows: seq<Row>, isStarter: bool): (xs: seq<Option<Entry>>)
    ensures |xs| == |rows|
  {
    seq(|rows|, i requires 0 <= i < |rows| => RowEntry(rows[i], isStarter))
  }

  /** The table's entries are the present entries of its rows. */
  lemma {:induction false} AcceptedInIsSomes(rows: seq<Row>, isStarter: bool)
    ensures AcceptedIn(rows, isStarter) == Somes(RowEntries(rows, isStarter))
    decreases |rows|
  {
    if rows != [] {
      var init := rows[..|rows| - 1];
      AcceptedInIsSomes(init, isStarter);
      assert RowEntries(init, isStarter) == RowEntries(rows, isStarter)[..|rows| - 1];
    }
  }

  /** The positions before `j` that hold an accepted row. */
  function AcceptedBefore(rows: seq<Row>, isStarter: bool, j: nat): set<nat> {
    SomeBefore(RowEntries(rows, isStarter), j)
  }

  lemma AcceptedBeforeMembers(rows: seq<Row>, isStarter: bool, j: nat, i: nat)
    ensures i in AcceptedBefore(rows, isStarter, j) <==> i < j && i < |rows| && Accepted(rows[i])
  {
  }

  /** A table yields exactly one entry per accepted row. */
  lemma AcceptedInCount(rows: seq<Row>, isStarter: bool)
    ensures |AcceptedIn(rows, isStarter)| == |AcceptedBefore(rows, isStarter, |rows|)|
  {
    AcceptedInIsSomes(rows, isStarter);
    SomesCount(RowEntries(rows, isStarter));
  }

  /** The entry of accepted row `j` comes after one entry for each accepted
      row before it: the accepted rows' entries appear in row order. */
  lemma AcceptedInAt(rows: seq<Row>, isStarter: bool, j: nat)
    requires j < |rows| && Accepted(rows[j])
    ensures |AcceptedBefore(rows, isStarter, j)| < |AcceptedIn(rows, isStarter)|
    ensures AcceptedIn(rows, isStarter)[|AcceptedBefore(rows, isStarter, j)|] == RowEntry(rows[j], isStarter).value
  {
    AcceptedInIsSomes(rows, isStarter);
    SomesAt(RowEntries(rows, isStarter), j);
  }

  /** Every entry is the entry of an accepted row, the one with exactly `k`
      accepted rows before it. */
  lemma AcceptedInFrom(rows: seq<Row>, isStarter: bool, k: nat)
    requires k < |AcceptedIn(rows, isStarter)|
    ensures exists j ::
              && 0 <= j < |rows| && Accepted(rows[j]) && |AcceptedBefore(rows, isStarter, j)| == k
              && AcceptedIn(rows, isStarter)[k] == RowEntry(rows[j], isStarter).value
  {
    AcceptedInIsSomes(rows, isStarter);
    var xs := RowEntries(rows, isStarter);
    SomesFrom(xs, k);
    var j :| 0 <= j < |xs| && xs[j].Some? && |SomeBefore(xs, j)| == k && Somes(xs)[k] == xs[j].value;
    var e := RowEntry(rows[j], isStarter);
    assert xs[j] == e;
    assert Accepted(rows[j]) && AcceptedIn(rows, isStarter)[k] == e.value;
  }

  function TableEntries(t: Table): seq<Entry> {
    match TableKind(t.headerText)
    case None => []
    case Some(isStarter) => AcceptedIn(t.rows, isStarter)
  }

  /** One more table extends the entries by that table's entries. */
  lemma AcceptedRowsStep(tables: seq<Table>, i: nat)
    requires i < |tables|
    ensures AcceptedRows(tables[..i + 1]) == AcceptedRows(tables[..i]) + TableEntries(tables[i])
  {
    assert tables[..i + 1][..i] == tables[..i];
  }

  /** All accepted rows of all player tables, in document order. */
  function AcceptedRows(tables: seq<Table>): seq<Entry>
    decreases |tables|
  {
    if tables == [] then []
    else AcceptedRows(tables[..|tables| - 1]) + TableEntries(tables[|tables| - 1])
  }

  /** The trimmed, non-empty team-name spans, in document order. */
  function TeamNamesOf(spans: seq<string>): (names: seq<string>)
    ensures |names| <= |spans|
    ensures forall k :: 0 <= k < |names| ==> names[k] != "" && Trim(names[k]) == names[k]
    decreases |spans|
  {
    if spans == [] then []
    else
      var name := Trim(spans[|spans| - 1]);
      TrimIdempotent(spans[|spans| - 1]);
      TeamNamesOf(spans[..|spans| - 1]) + (if name != "" then [name] else [])
  }

  /** A span's trimmed text when it is non-empty. */
  function SpanName(span: string): (n: Option<string>)
    ensures n.Some? <==> Trim(span) != ""
    ensures n.Some? ==> n.value == Trim(span)
  {
    var name := Trim(span);
    if name != "" then Some(name) else None
  }

  /** Each span's name, position by position. */
  function SpanNames(spans: seq<string>): (xs: seq<Option<string>>)
    ensures |xs| == |spans|
  {
    seq(|spans|, i requires 0 <= i < |spans| => SpanName(spans[i]))
  }

  lemma SpanNamesPrefix(spans: seq<string>)
    requires spans != []
    ensures SpanNames(spans[..|spans| - 1]) == SpanNames(spans)[..|spans| - 1]
    ensures SpanNames(spans)[|spans| - 1] == SpanName(spans[|spans| - 1])
  {
  }

  /** The team names are the present names of the spans. */
  lemma {:induction false} TeamNamesIsSomes(spans: seq<string>)
    ensures TeamNamesOf(spans) == Somes(SpanNames(spans))
    decreases |spans|
  {
    if spans != [] {
      var init := spans[..|spans| - 1];
      var xs := SpanNames(spans);
      TeamNamesIsSomes(init);
      SpanNamesPrefix(spans);
      assert Somes(xs) == Somes(xs[..|xs| - 1]) + (if xs[|xs| - 1].Some? then [xs[|xs| - 1].value] else []);
    }
  }

  /** The positions before `j` whose span has a non-blank text. */
  function NamedBefore(spans: seq<string>, j: nat): set<nat> {
    SomeBefore(SpanNames(spans), j)
  }

  lemma NamedBeforeMembers(spans: seq<string>, j: nat, i: nat)
    ensures i in NamedBefore(spans, j) <==> i < j && i < |spans| && Trim(spans[i]) != ""
  {
  }

  /** There is one name per non-blank span. */
  lemma TeamNamesCount(spans: seq<string>)
    ensures |TeamNamesOf(spans)| == |NamedBefore(spans, |spans|)|
  {
    TeamNamesIsSomes(spans);
    SomesCount(SpanNames(spans));
  }

  /** Every non-blank span gives a name, placed after one name per non-blank
      span before it: no span is lost and the order is the document's. */
  lemma TeamNamesAt(spans: seq<string>, j: nat)
    requires j < |spans| && Trim(spans[j]) != ""
    ensures |NamedBefore(spans, j)| < |TeamNamesOf(spans)|
    ensures TeamNamesOf(spans)[|NamedBefore(spans, j)|] == Trim(spans[j])
  {
    TeamNamesIsSomes(spans);
    SomesAt(SpanNames(spans), j);
  }

  /** Every name is the trimmed text of a non-blank span, the one with
      exactly `k` non-blank spans before it. */
  lemma TeamNamesFrom(spans: seq<string>, k: nat)
    requires k < |TeamNamesOf(spans)|
    ensures exists j ::
              && 0 <= j < |spans| && Trim(spans[j]) != "" && |NamedBefore(spans, j)| == k
              && TeamNamesOf(spans)[k] == Trim(spans[j])
  {
    TeamNamesIsSomes(spans);
    var xs := SpanNames(spans);
    SomesFrom(xs, k);
    var j :| 0 <= j < |xs| && xs[j].Some? && |SomeBefore(xs, j)| == k && Somes(xs)[k] == xs[j].value;
    assert xs[j] == SpanName(spans[j]);
  }

  /** Every accepted entry has a non-empty name and a non-zero number. */
  lemma {:induction false} AcceptedRowsShape(tables: seq<Table>)
    ensures forall k :: 0 <= k < |AcceptedRows(tables)| ==>
      AcceptedRows(tables)[k].name != "" && AcceptedRows(tables)[k].number != 0
    decreases |tables|
  {
    if tables != [] {
      var init := tables[..|tables| - 1];
      AcceptedRowsShape(init);
      var t := tables[|tables| - 1];
      var te := TableEntries(t);
      if TableKind(t.headerText).Some? {
        AcceptedInShape(t.rows, TableKind(t.headerText).value);
      }
      assert forall k :: 0 <= k < |te| ==> te[k].name != "" && te[k].number != 0;
      assert AcceptedRows(tables) == AcceptedRows(init) + te;
    }
  }

  /** A table whose trimmed header is neither `Titulars` nor `Suplents`
      contributes nothing, whatever its rows. */
  lemma SkippedTable(tables: seq<Table>, t: Table)
    requires TableKind(t.headerText).None?
    ensures AcceptedRows(tables + [t]) == AcceptedRows(tables)
  {
    assert (tables + [t])[..|tables|] == tables;
  }
}
