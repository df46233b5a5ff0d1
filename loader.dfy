/** `buildGVizUrl` and `load`: the request the page sends, and the sequence
    of checks between the reply and the records it keeps. */
module Loader {
  import opened Wrappers
  import opened Text
  import opened Records
  import opened Gviz
  import opened Errors
  import opened Envelope
  import opened Normalize
  import opened Filtering

  /** The query used when the query field is blank. */
  const DEFAULT_QUERY: string := "select *"

  const ENDPOINT_PREFIX: string := "https://docs.google.com/spreadsheets/d/"
  const ENDPOINT_SUFFIX: string := "/gviz/tq"

  /** A request to the query endpoint: the URL without its query string, and
      the query parameters by name. */
  datatype GVizRequest = GVizRequest(base: string, params: seq<Entry>)

  /** `buildGVizUrl(sheetId, sheetName, tq)`. `tqx=out:json` and `headers=1`
      are always set; `sheet` only for a non-empty sheet name; `tq` only for
      a query that is not blank. */
  function BuildGVizUrl(sheetId: string, sheetName: string, tq: string): (req: GVizRequest)
    ensures req.base == ENDPOINT_PREFIX + sheetId + ENDPOINT_SUFFIX
    ensures DistinctKeys(req.params)
    ensures Keys(req.params) <= {"tqx", "sheet", "headers", "tq"}
    ensures Get(req.params, "tqx") == Some("out:json")
    ensures Get(req.params, "headers") == Some("1")
    ensures Get(req.params, "sheet") == if sheetName == "" then None else Some(sheetName)
    ensures Get(req.params, "tq") == if Trim(tq) == "" then None else Some(tq)
  {
    ParameterNamesDiffer();
    var p1 := Put([], "tqx", "out:json");
    var p2 := if sheetName != "" then Put(p1, "sheet", sheetName) else p1;
    var p3 := Put(p2, "headers", "1");
    var p4 := if tq != "" && Trim(tq) != "" then Put(p3, "tq", tq) else p3;
    assert Keys(p4) <= {"tqx", "sheet", "headers", "tq"} by {
      assert Keys(p1) == {"tqx"};
      assert Keys(p2) <= {"tqx", "sheet"};
      assert Keys(p3) <= {"tqx", "sheet", "headers"};
    }
    PutOther(p1, "sheet", sheetName, "tqx");
    PutOther(p2, "headers", "1", "tqx");
    PutOther(p2, "headers", "1", "sheet");
    PutOther(p3, "tq", tq, "tqx");
    PutOther(p3, "tq", tq, "sheet");
    PutOther(p3, "tq", tq, "headers");
    PutOther(p1, "sheet", sheetName, "tq");
    PutOther(p2, "headers", "1", "tq");
    GVizRequest(ENDPOINT_PREFIX + sheetId + ENDPOINT_SUFFIX, p4)
  }

  lemma ParameterNamesDiffer()
    ensures "tqx" != "sheet" && "tqx" != "headers" && "tqx" != "tq"
    ensures "sheet" != "headers" && "sheet" != "tq" && "headers" != "tq"
  {
    assert "tqx"[1] != "tq"[1] || |"tqx"| != |"tq"|;
    assert "tqx"[0] != "sheet"[0] && "tqx"[0] != "headers"[0];
    assert "sheet"[1] != "headers"[1] && "sheet"[0] != "tq"[0] && "headers"[0] != "tq"[0];
  }

  /** The input handling at the start of `load`: the three fields are
      trimmed, a blank query becomes "select *", and a blank sheet id stops
      the load before any request is made. */
  function PrepareRequest(idInput: string, nameInput: string, tqInput: string): (r: Result<GVizRequest, LoadError>)
    ensures r.Failure? <==> Trim(idInput) == ""
    ensures r.Failure? ==> r.error == MissingSheetId
    ensures r.Success? ==> r.value.base == ENDPOINT_PREFIX + Trim(idInput) + ENDPOINT_SUFFIX
    ensures r.Success? ==> DistinctKeys(r.value.params) && Keys(r.value.params) <= {"tqx", "sheet", "headers", "tq"}
    ensures r.Success? ==> Get(r.value.params, "tqx") == Some("out:json") && Get(r.value.params, "headers") == Some("1")
    ensures r.Success? ==> Get(r.value.params, "sheet") == if Trim(nameInput) == "" then None else Some(Trim(nameInput))
    ensures r.Success? ==> Get(r.value.params, "tq") == Some(if Trim(tqInput) == "" then DEFAULT_QUERY else Trim(tqInput))
  {
    var sheetId := Trim(idInput);
    var sheetName := Trim(nameInput);
    var tq := if Trim(tqInput) != "" then Trim(tqInput) else DEFAULT_QUERY;
    if sheetId == "" then Failure(MissingSheetId)
    else
      TrimIdempotent(tqInput);
      assert Trim(DEFAULT_QUERY) != "" by {
        assert !IsWhitespace(DEFAULT_QUERY[0]);
      }
      Success(BuildGVizUrl(sheetId, sheetName, tq))
  }

  /** What `fetch` gave back: a rejected promise, or a reply with its status
      and its body text. */
  datatype Reply =
    | Rejected(message: string)
    | Reply(ok: bool, status: nat, statusText: string, body: string)

  /** The body of the `try` block of `load`, up to the new records: the
      reply must be a success, the payload must be found and parse, the
      endpoint must not report an error, and the reply must hold a table.
      The network and `JSON.parse` are parameters. */
  function FetchRows(idInput: string, nameInput: string, tqInput: string,
                     fetch: GVizRequest -> Reply, parseJson: string -> Result<Response, string>)
    : (r: Result<seq<Record>, LoadError>)
    ensures Trim(idInput) == "" ==> r == Failure(MissingSheetId)
  {
    match PrepareRequest(idInput, nameInput, tqInput)
    case Failure(e) => Failure(e)
    case Success(req) =>
      match fetch(req)
      case Rejected(m) => Failure(NetworkFailure(m))
      case Reply(ok, status, statusText, body) =>
        if !ok then Failure(HttpStatus(status, statusText))
        else
          match ExtractPayload(body)
          case Failure(e) => Failure(e)
          case Success(payload) =>
            match parseJson(payload)
            case Failure(m) => Failure(InvalidJson(m))
            case Success(g) =>
              if ReportedError(g).Some? then Failure(QueryFailed(ReportedError(g).value))
              else NormalizeRows(g)
  }

  /** Records come back only when every step succeeded: a non-blank sheet id,
      a successful reply whose body holds braces, a payload that parses, a
      reply that reports no error and carries a table. The request always
      asks for JSON with a header row and always carries a query. */
  lemma FetchRowsSuccess(idInput: string, nameInput: string, tqInput: string,
                         fetch: GVizRequest -> Reply, parseJson: string -> Result<Response, string>)
    requires FetchRows(idInput, nameInput, tqInput, fetch, parseJson).Success?
    ensures PrepareRequest(idInput, nameInput, tqInput).Success?
    ensures var req := PrepareRequest(idInput, nameInput, tqInput).value;
      && Get(req.params, "tqx") == Some("out:json")
      && Get(req.params, "headers") == Some("1")
      && Get(req.params, "tq").Some?
      && fetch(req).Reply? && fetch(req).ok
      && ExtractPayload(fetch(req).body).Success?
      && parseJson(ExtractPayload(fetch(req).body).value).Success?
      && var g := parseJson(ExtractPayload(fetch(req).body).value).value;
         !ReportsError(g) && HasTable(g)
         && FetchRows(idInput, nameInput, tqInput, fetch, parseJson) == NormalizeRows(g)
  {
    var req := PrepareRequest(idInput, nameInput, tqInput).value;
    assert req == BuildGVizUrl(Trim(idInput), Trim(nameInput),
                               if Trim(tqInput) != "" then Trim(tqInput) else DEFAULT_QUERY);
  }

  /** A reply that reports an error fails with the reported message, whatever
      table it also carries. */
  lemma ReportedErrorFails(idInput: string, nameInput: string, tqInput: string,
                           fetch: GVizRequest -> Reply, parseJson: string -> Result<Response, string>)
    requires PrepareRequest(idInput, nameInput, tqInput).Success?
    requires var reply := fetch(PrepareRequest(idInput, nameInput, tqInput).value);
      && reply.Reply? && reply.ok && ExtractPayload(reply.body).Success?
      && parseJson(ExtractPayload(reply.body).value).Success?
      && ReportsError(parseJson(ExtractPayload(reply.body).value).value)
    ensures var reply := fetch(PrepareRequest(idInput, nameInput, tqInput).value);
      var g := parseJson(ExtractPayload(reply.body).value).value;
      FetchRows(idInput, nameInput, tqInput, fetch, parseJson) == Failure(QueryFailed(ReportedError(g).value))
  {
  }

  /** The page: the records of the last successful load, which the search
      box filters. */
  class Page {
    var allRows: seq<Record>

    constructor ()
      ensures allRows == []
    {
      allRows := [];
    }

    /** `load()` followed by rendering: on success the records replace the
        previous ones and the records matching the search box are shown; on
        any failure the previous records stay and the error is reported. */
    method Load(idInput: string, nameInput: string, tqInput: string, search: string,
                fetch: GVizRequest -> Reply, parseJson: string -> Result<Response, string>)
      returns (shown: Result<seq<Record>, LoadError>)
      modifies this
      ensures var r := FetchRows(idInput, nameInput, tqInput, fetch, parseJson);
        && (r.Success? ==> allRows == r.value && shown == Success(FilterRows(allRows, search)))
        && (r.Failure? ==> allRows == old(allRows) && shown == Failure(r.error))
    {
      var request := PrepareRequest(idInput, nameInput, tqInput);
      if request.Failure? {
        return Failure(request.error);
      }
      var reply := fetch(request.value);
      if reply.Rejected? {
        return Failure(NetworkFailure(reply.message));
      }
      if !reply.ok {
        return Failure(HttpStatus(reply.status, reply.statusText));
      }
      var payload := ExtractPayload(reply.body);
      if payload.Failure? {
        return Failure(payload.error);
      }
      var parsed := parseJson(payload.value);
      if parsed.Failure? {
        return Failure(InvalidJson(parsed.error));
      }
      var gviz := parsed.value;
      var reported := ReportedError(gviz);
      if reported.Some? {
        return Failure(QueryFailed(reported.value));
      }
      var rows := NormalizeRows(gviz);
      if rows.Failure? {
        return Failure(rows.error);
      }
      allRows := rows.value;
      shown := Success(FilterRows(allRows, search));
    }
  }
}
