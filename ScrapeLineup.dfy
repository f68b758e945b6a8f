/** The `/api/scrape-lineup` handler: request gating, then the extraction
    from the fetched report, then the two-team check. */
module ScrapeLineup {
  import opened JsString
  import opened Types
  import opened ScrapeDocument
  import opened ScrapeExtract

  /** The request body: one whose destructuring throws (with the runtime's
      message), or the `url` field, `None` when it is absent or not a
      string. */
  datatype RequestBody = Unreadable(message: string) | Fields(url: Option<string>)

  datatype Request = Request(verb: string, body: RequestBody)

  /** What `fetch(url)` and `response.text()` produce, the page already
      parsed. */
  datatype Fetch = Rejected(message: string) | Fetched(ok: bool, statusText: string, page: Document)

  datatype ResponseBody = NoContent | ErrorJson(error: string) | DataJson(data: ScrapedLineupData)

  datatype Response = Response(status: int, body: ResponseBody)

  const Marker: string := "fcf.cat/acta"

  const CountHint: string := ". La p\U{00E1}gina puede haber cambiado su estructura."

  /** The answer given before anything is fetched, or `None` when the
      request goes on to the fetch. */
  function Gate(req: Request): (r: Option<Response>)
    ensures r.None? <==>
      req.verb == "POST" && req.body.Fields? && req.body.url.Some? &&
      req.body.url.value != "" && Contains(req.body.url.value, Marker)
    ensures r.Some? ==> r.value.status in {200, 400, 405, 500}
  {
    if req.verb == "OPTIONS" then Some(Response(200, NoContent))
    else if req.verb != "POST" then Some(Response(405, ErrorJson("Method not allowed")))
    else match req.body
      case Unreadable(m) => Some(Response(500, ErrorJson(m)))
      case Fields(url) =>
        if url.None? || url.value == "" then Some(Response(400, ErrorJson("URL is required")))
        else if !Contains(url.value, Marker) then Some(Response(400, ErrorJson("Invalid URL. Must be from fcf.cat/acta")))
        else None
  }

  /** The final check on the teams built. */
  function TeamsResponse(teams: seq<LineupTeamData>): (r: Response)
    ensures r.status == 200 <==> |teams| == 2
    ensures |teams| == 2 ==> r.body == DataJson(ScrapedLineupData(teams[0], teams[1]))
    ensures |teams| != 2 ==>
      r == Response(500, ErrorJson("Expected 2 teams, found " + IntToString(|teams|) + CountHint))
  {
    if |teams| != 2 then Response(500, ErrorJson("Expected 2 teams, found " + IntToString(|teams|) + CountHint))
    else Response(200, DataJson(ScrapedLineupData(teams[0], teams[1])))
  }

  /** The whole handler as one function of the request and the fetch. */
  function Respond(req: Request, fetch: Fetch, stamp: nat -> string): Response {
    if Gate(req).Some? then Gate(req).value
    else match fetch
      case Rejected(m) => Response(500, ErrorJson(m))
      case Fetched(ok, statusText, page) =>
        if !ok then Response(500, ErrorJson("Failed to fetch: " + statusText))
        else TeamsResponse(BuildTeams(AcceptedRows(page.tables), TeamNamesOf(page.teamNameSpans), stamp))
  }

  /** `handler(req, res)`, with the parsed page standing in for the fetch. */
  method Handle(req: Request, fetch: Fetch, stamp: nat -> string) returns (res: Response)
    ensures res == Respond(req, fetch, stamp)
  {
    if req.verb == "OPTIONS" {
      return Response(200, NoContent);
    }
    if req.verb != "POST" {
      return Response(405, ErrorJson("Method not allowed"));
    }
    if req.body.Unreadable? {
      return Response(500, ErrorJson(req.body.message));
    }
    var url := req.body.url;
    if url.None? || url.value == "" {
      return Response(400, ErrorJson("URL is required"));
    }
    if !Contains(url.value, Marker) {
      return Response(400, ErrorJson("Invalid URL. Must be from fcf.cat/acta"));
    }
    if fetch.Rejected? {
      return Response(500, ErrorJson(fetch.message));
    }
    if !fetch.ok {
      return Response(500, ErrorJson("Failed to fetch: " + fetch.statusText));
    }
    var teamNames := CollectTeamNames(fetch.page.teamNameSpans);
    var teams := ExtractTeams(fetch.page.tables, teamNames, stamp);
    if |teams| != 2 {
      return Response(500, ErrorJson("Expected 2 teams, found " + IntToString(|teams|) + CountHint));
    }
    return Response(200, DataJson(ScrapedLineupData(teams[0], teams[1])));
  }

  // ---------------------------------------------------------------------
  // Properties of the handler

  /** Gating happens before the fetch: a request it answers gets the same
      answer whatever the fetch would have produced. */
  lemma GateIgnoresFetch(req: Request, f1: Fetch, f2: Fetch, s1: nat -> string, s2: nat -> string)
    requires Gate(req).Some?
    ensures Respond(req, f1, s1) == Respond(req, f2, s2)
  {
  }

  /** The gating answers in order: preflight, wrong verb, missing url, foreign
      url. */
  lemma GateOrder(req: Request, f: Fetch, stamp: nat -> string)
    ensures req.verb == "OPTIONS" ==> Respond(req, f, stamp) == Response(200, NoContent)
    ensures req.verb != "OPTIONS" && req.verb != "POST" ==>
      Respond(req, f, stamp) == Response(405, ErrorJson("Method not allowed"))
    ensures req.verb == "POST" && req.body.Fields? && (req.body.url.None? || req.body.url == Some("")) ==>
      Respond(req, f, stamp) == Response(400, ErrorJson("URL is required"))
    ensures (req.verb == "POST" && req.body.Fields? && req.body.url.Some? && req.body.url.value != "" &&
      !Contains(req.body.url.value, Marker)) ==>
      Respond(req, f, stamp) == Response(400, ErrorJson("Invalid URL. Must be from fcf.cat/acta"))
  {
  }

  /** For a request past the gate, an unsuccessful fetch status is a 500
      naming the status text. */
  lemma FetchFailure(req: Request, statusText: string, page: Document, stamp: nat -> string)
    requires Gate(req).None?
    ensures Respond(req, Fetched(false, statusText, page), stamp) ==
      Response(500, ErrorJson("Failed to fetch: " + statusText))
  {
  }

  /** For a request past the gate and a fetched page, the answer is 200 exactly
      when the player tables hold two accepted rows; then the home team is
      the first row's one-player team and the away team the second's.
      Otherwise the message gives the number of accepted rows. */
  lemma PageOutcome(req: Request, page: Document, statusText: string, stamp: nat -> string)
    requires Gate(req).None?
    ensures var entries := AcceptedRows(page.tables);
      var r := Respond(req, Fetched(true, statusText, page), stamp);
      (r.status == 200 <==> |entries| == 2) &&
      (|entries| != 2 ==>
        r == Response(500, ErrorJson("Expected 2 teams, found " + IntToString(|entries|) + CountHint))) &&
      (|entries| == 2 ==>
        var names := TeamNamesOf(page.teamNameSpans);
        r.body == DataJson(ScrapedLineupData(
          LineupTeamData(TeamName(names, 0), [PlayerFor(0, entries[0], stamp(0))]),
          LineupTeamData(TeamName(names, 1), [PlayerFor(1, entries[1], stamp(1))]))))
  {
    BuildTeamsShape(AcceptedRows(page.tables), TeamNamesOf(page.teamNameSpans), stamp);
  }

  /** The one-player team of an accepted entry, as the success answer
      carries it. */
  predicate LonePlayer(t: LineupTeamData, k: nat) {
    var prefix := IntToString(k) + "-" + IntToString(if |t.players| == 1 then t.players[0].number else 0) + "-";
    |t.players| == 1 && t.players[0].number != 0 && t.players[0].name != "" &&
    |prefix| <= |t.players[0].id| && t.players[0].id[..|prefix|] == prefix
  }

  lemma TeamForShape(k: nat, e: Entry, names: seq<string>, stamp: nat -> string)
    requires e.name != "" && e.number != 0
    ensures LonePlayer(TeamFor(k, e, names, stamp), k)
  {
    PlayerForShape(k, e, stamp(k));
  }

  /** A successful answer carries one player per team, each with a non-zero
      number and a non-empty name, and ids starting `0-<number>-` and
      `1-<number>-`. */
  lemma SuccessShape(req: Request, f: Fetch, stamp: nat -> string)
    requires Respond(req, f, stamp).body.DataJson?
    ensures LonePlayer(Respond(req, f, stamp).body.data.homeTeam, 0)
    ensures LonePlayer(Respond(req, f, stamp).body.data.awayTeam, 1)
  {
    assert Gate(req).None? && f.Fetched? && f.ok;
    var entries := AcceptedRows(f.page.tables);
    var names := TeamNamesOf(f.page.teamNameSpans);
    var teams := BuildTeams(entries, names, stamp);
    assert Respond(req, f, stamp) == TeamsResponse(teams);
    assert |teams| == 2;
    BuildTeamsShape(entries, names, stamp);
    AcceptedRowsShape(f.page.tables);
    TeamForShape(0, entries[0], names, stamp);
    TeamForShape(1, entries[1], names, stamp);
  }
}
