/** The ways loading a sheet can fail, each with the message the page shows. */
module Errors {
  import Text

  datatype LoadError =
    | MissingSheetId                            // the trimmed sheet id is empty; no request is made
    | NetworkFailure(message: string)           // `fetch` itself rejected
    | HttpStatus(status: nat, statusText: string) // the reply's status is not 2xx
    | UnexpectedFormat                          // no `{` or no `}` in the reply text
    | InvalidJson(message: string)              // the sliced text is not JSON
    | QueryFailed(message: string)              // the endpoint reported an error
    | NoDataTable                               // the reply has no table with column and row lists

  /** The message of the error the page reports. */
  function Message(e: LoadError): (m: string)
    ensures e.HttpStatus? ==> |m| > 6 && m[..5] == "HTTP "
    ensures e.HttpStatus? ==>
      exists k :: 5 < k < |m| && (forall j :: 5 <= j < k ==> Text.IsDigit(m[j]))
                 && (k > 6 ==> m[5] != '0')
                 && Text.DecimalValue(m[5..k]) == e.status && m[k..] == " " + e.statusText
    ensures e.NetworkFailure? || e.InvalidJson? || e.QueryFailed? ==> m == e.message
    ensures e.MissingSheetId? || e.UnexpectedFormat? || e.NoDataTable? ==> m != []
  {
    match e
    case MissingSheetId => "シートIDを入力してください"
    case NetworkFailure(m) => m
    case HttpStatus(status, statusText) =>
      var digits := Text.NatToString(status);
      var head := "HTTP " + digits;
      var m := head + (" " + statusText);
      Text.DecimalRoundTrip(status);
      assert head[5..] == digits;
      assert m[5..|head|] == head[5..];
      assert m[|head|..] == " " + statusText;
      assert m == "HTTP " + digits + " " + statusText;
      m
    case UnexpectedFormat => "Unexpected response format"
    case InvalidJson(m) => m
    case QueryFailed(m) => m
    case NoDataTable => "No data table in response"
  }
}
