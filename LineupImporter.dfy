/** The lineup importer form: the URL field, the `loading` and `error`
    flags, the checks `handleImport` makes before it posts the URL to
    `/api/scrape-lineup`, and what it does with the outcome. The request
    itself is not modelled: its outcome is an input. */
module LineupImporter {
  import opened JsString
  import opened JsNumber
  import opened Types
  import ScrapeLineup

  const EmptyUrlMessage: string := "Por favor introduce una URL"

  const DomainMessage: string := "La URL debe ser de fcf.cat/acta"

  const FallbackMessage: string := "Error al importar alineaciones"

  /** The text a report URL must contain. */
  const Domain: string := "fcf.cat/acta"

  /** The check made before anything is sent: the trimmed URL must be
      non-empty, then the URL as typed must contain the report path. `None`
      means the request goes out. */
  function ValidationError(url: string): (r: Option<string>)
    ensures r == Some(EmptyUrlMessage) <==> Trim(url) == ""
    ensures r == Some(DomainMessage) <==> Trim(url) != "" && !Contains(url, Domain)
    ensures r.None? <==> Trim(url) != "" && Contains(url, Domain)
  {
    assert |EmptyUrlMessage| != |DomainMessage|;
    if Trim(url) == "" then Some(EmptyUrlMessage)
    else if !Contains(url, Domain) then Some(DomainMessage)
    else None
  }

  /** The import button is disabled while loading and while the trimmed URL
      is empty. */
  function ImportDisabled(loading: bool, url: string): (d: bool)
    ensures !d ==> ValidationError(url) != Some(EmptyUrlMessage)
  {
    loading || Trim(url) == ""
  }

  /** What `response.json()` gives: the lineup, or the message of the
      syntax error it throws. */
  datatype Json = Data(data: ScrapedLineupData) | BadJson(message: string)

  /** A value caught by `catch (err)`: an `Error` with its message, or
      something else. */
  datatype Thrown = ErrorValue(message: string) | NotAnError

  /** How the request ends: a response, or a rejected `fetch`. */
  datatype Outcome =
    | Responded(ok: bool, status: int, statusText: string, body: Json)
    | Rejected(reason: Thrown)

  /** The error thrown for a response that is not ok. */
  function StatusMessage(status: int, statusText: string): string {
    "Error " + IntToString(status) + ": " + statusText
  }

  /** The message starts with `Error `, the status reads back from what
      follows, and it ends with the status text. */
  lemma StatusMessageShape(status: int, statusText: string)
    ensures var m := StatusMessage(status, statusText);
      && |m| >= 6 && m[..6] == "Error "
      && ParseInt(m[6..]) == Num(status)
      && |statusText| <= |m| && m[|m| - |statusText|..] == statusText
  {
    var n := IntToString(status);
    var rest := ": " + statusText;
    var m := StatusMessage(status, statusText);
    assert m == "Error " + (n + rest);
    assert m[6..] == n + rest;
    ParseIntPrefix(status, rest);
  }

  datatype Settled = Imported(data: ScrapedLineupData) | Failed(message: string)

  /** The `try`/`catch` around the request: the data handed to `onImported`,
      or the error message shown. */
  function Settle(o: Outcome): (r: Settled)
    ensures r.Imported? <==> o.Responded? && o.ok && o.body.Data?
    ensures r.Imported? ==> r.data == o.body.data
    ensures o.Responded? && !o.ok ==> r == Failed(StatusMessage(o.status, o.statusText))
    ensures o.Responded? && o.ok && o.body.BadJson? ==> r == Failed(o.body.message)
    ensures o.Rejected? ==> r == Failed(if o.reason.ErrorValue? then o.reason.message else FallbackMessage)
  {
    match o
    case Responded(ok, status, statusText, body) =>
      if !ok then Failed(StatusMessage(status, statusText))
      else (match body
        case Data(d) => Imported(d)
        case BadJson(m) => Failed(m))
    case Rejected(reason) =>
      Failed(match reason
        case ErrorValue(m) => m
        case NotAnError => FallbackMessage)
  }

  class Importer {
    var url: string
    var loading: bool
    var error: Option<string>

    constructor ()
      ensures url == "" && !loading && error == None
    {
      url := "";
      loading := false;
      error := None;
    }

    /** The input's `onChange`. */
    method SetUrl(text: string)
      modifies this
      ensures url == text && loading == old(loading) && error == old(error)
    {
      url := text;
    }

    /** `handleImport` up to the request: a URL that fails the check sets
        its error and sends nothing, leaving `loading` alone; one that passes
        sets `loading` and clears the error. */
    method HandleImport() returns (sent: bool)
      modifies this
      ensures url == old(url)
      ensures sent <==> ValidationError(url).None?
      ensures sent ==> loading && error == None
      ensures !sent ==> loading == old(loading) && error == ValidationError(url)
    {
      var problem := ValidationError(url);
      if problem.Some? {
        error := problem;
        return false;
      }
      loading := true;
      error := None;
      return true;
    }

    /** The rest of `handleImport` once the request has ended: the data goes
        to `onImported` or the message into `error`, and `finally` clears
        `loading` whatever happened. */
    method Complete(o: Outcome) returns (delivered: Option<ScrapedLineupData>)
      modifies this
      ensures url == old(url) && !loading
      ensures delivered.Some? <==> Settle(o).Imported?
      ensures delivered.Some? ==> delivered.value == Settle(o).data && error == old(error)
      ensures delivered.None? ==> error == Some(Settle(o).message)
    {
      delivered := None;
      match o {
        case Responded(ok, status, statusText, body) =>
          if !ok {
            error := Some(StatusMessage(status, statusText));
          } else {
            match body {
              case Data(d) => delivered := Some(d);
              case BadJson(m) => error := Some(m);
            }
          }
        case Rejected(reason) =>
          error := Some(if reason.ErrorValue? then reason.message else FallbackMessage);
      }
      loading := false;
    }
  }

  /** One import from a fresh form: type `text`, press the button, and let the
      request end with `o` if it is sent. A rejected URL shows its message and
      never loads; an accepted one ends with `loading` cleared and either the
      data delivered with no error, or the outcome's message shown. */
  method ImportOnce(text: string, o: Outcome)
    returns (delivered: Option<ScrapedLineupData>, error: Option<string>, loading: bool)
    ensures !loading
    ensures ValidationError(text).Some? ==> delivered == None && error == ValidationError(text)
    ensures ValidationError(text).None? ==>
      (delivered.Some? <==> Settle(o).Imported?) &&
      (delivered.Some? ==> delivered.value == Settle(o).data && error == None) &&
      (delivered.None? ==> error == Some(Settle(o).message))
  {
    var form := new Importer();
    form.SetUrl(text);
    var sent := form.HandleImport();
    delivered := None;
    if sent {
      delivered := form.Complete(o);
    }
    error := form.error;
    loading := form.loading;
  }

  /** A URL the form sends is one the endpoint's gate lets through to the
      fetch, when posted as the `url` field. */
  lemma AcceptedUrlPassesGate(url: string)
    requires ValidationError(url).None?
    ensures ScrapeLineup.Gate(ScrapeLineup.Request("POST", ScrapeLineup.Fields(Some(url)))).None?
  {
    ContainsNonEmpty(url, Domain);
  }

  /** A URL of white space alone is refused by the form as empty; the
      endpoint, which does not trim, refuses it for the missing report path
      instead. */
  lemma BlankUrlRefusedByForm(url: string)
    requires url != [] && AllSpace(url)
    ensures ValidationError(url) == Some(EmptyUrlMessage)
    ensures ScrapeLineup.Gate(ScrapeLineup.Request("POST", ScrapeLineup.Fields(Some(url)))) ==
      Some(ScrapeLineup.Response(400, ScrapeLineup.ErrorJson("Invalid URL. Must be from fcf.cat/acta")))
  {
    TrimSpec(url);
    ContainsIff(url, Domain);
    forall i: int
      ensures !OccursAt(url, Domain, i)
    {
      if 0 <= i && i + |Domain| <= |url| {
        assert url[i..i + |Domain|][0] == url[i];
        assert IsSpace(url[i]);
      }
    }
  }
}
