/** The JSON object a Google Visualization query returns, as far as the page
    reads it, and the check for an error the endpoint reports. */
module Gviz {
  import opened Wrappers

  /** A cell: `f` is the formatted text, `v` the raw value. A missing field
      and a `null` one are both `None`. */
  datatype Cell = Cell(f: Option<string>, v: Option<string>)

  /** A column descriptor; only its `label` is read (here `columnLabel`). */
  datatype Column = Column(columnLabel: Option<string>)

  /** A row; `c` is its list of cells, where a cell may be `null`. */
  datatype Row = Row(c: Option<seq<Option<Cell>>>)

  /** `table`: `cols` and `rows` are `None` when missing or not arrays. A
      `null` column or row is a `None` element. */
  datatype Table = Table(cols: Option<seq<Option<Column>>>, rows: Option<seq<Option<Row>>>)

  /** An entry of the `errors` list. */
  datatype QueryError = QueryError(detailedMessage: Option<string>)

  /** The whole reply. `errors` is `None` when it is missing or not a list. */
  datatype Response = Response(status: Option<string>, errors: Option<seq<Option<QueryError>>>, table: Option<Table>)

  const UNKNOWN_ERROR: string := "Unknown error"

  /** The reply says the query failed: its status is "error" or its error
      list is not empty. */
  predicate ReportsError(g: Response) {
    g.status == Some("error") || (g.errors.Some? && |g.errors.value| > 0)
  }

  /** The first error's `detailed_message`, when there is a first error and
      its message is a non-empty string. */
  function FirstDetail(g: Response): (r: Option<string>)
    ensures r.Some? ==> r.value != "" && g.errors.Some? && |g.errors.value| > 0
    ensures r.Some? ==> g.errors.value[0] == Some(QueryError(r))
    ensures r.None? && g.errors.Some? && |g.errors.value| > 0 && g.errors.value[0].Some? ==>
      g.errors.value[0].value.detailedMessage in {None, Some("")}
  {
    if g.errors.Some? && |g.errors.value| > 0 && g.errors.value[0].Some?
       && g.errors.value[0].value.detailedMessage.Some? && g.errors.value[0].value.detailedMessage.value != ""
    then g.errors.value[0].value.detailedMessage
    else None
  }

  /** The error check in `load`: the message of the failure the endpoint
      reports, or `None` when the reply does not report one. */
  function ReportedError(g: Response): (r: Option<string>)
    ensures r.Some? <==> ReportsError(g)
    ensures r.Some? ==> r.value != ""
    ensures r.Some? && FirstDetail(g).Some? ==> r == FirstDetail(g)
    ensures r.Some? && FirstDetail(g).None? ==> r.value == UNKNOWN_ERROR
  {
    if !ReportsError(g) then None
    else if FirstDetail(g).Some? then FirstDetail(g)
    else Some(UNKNOWN_ERROR)
  }

  /** The reply `{status: "error", errors: [{detailed_message: "Permission denied"}]}`
      fails with "Permission denied". */
  lemma PermissionDeniedExample(t: Option<Table>)
    ensures ReportedError(Response(Some("error"), Some([Some(QueryError(Some("Permission denied")))]), t))
            == Some("Permission denied")
  {
  }
}
