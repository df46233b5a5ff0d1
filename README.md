# Google Sheets card viewer: data pipeline model

`fetch_gsheet.js` loads a published Google spreadsheet through the Google
Visualization ("gviz") query endpoint and shows its rows as searchable cards.
This project models the part of it that transforms data, as Dafny functions,
lemmas and one class:

- the request: which query parameters `buildGVizUrl` sets, and the input
  checks at the start of `load` (module `Loader`);
- the reply: cutting the JSON object out of the `setResponse(...)` callback
  text between the first `{` and the last `}` (module `Envelope`), and the
  check for an error the endpoint reports (module `Gviz`);
- `normalizeRows`: headers, cell texts, dropping blank rows, and the
  `Object.fromEntries` record of each row (modules `Normalize`, `Records`);
- `filterRows`: the case-insensitive search over all fields (module `Filtering`);
- `escapeHTML` (module `Html`);
- the `load` sequence itself, as the class `Loader.Page`. Its field `allRows`
  is replaced only when every step succeeds.

The network (`fetch`) and `JSON.parse` are parameters of `FetchRows` and
`Page.Load`. A JSON reply is modelled by the datatypes of `Gviz` after
parsing. `Text` holds `trim` (with ECMAScript's whitespace set), ASCII
lower-casing, `includes` and the decimal form of numbers. `Seqs` holds
`Array.prototype.filter`.

Files: `wrappers.dfy`, `text.dfy`, `seqs.dfy`, `records.dfy`, `errors.dfy`,
`html.dfy`, `envelope.dfy`, `gviz.dfy`, `normalize.dfy`, `filtering.dfy`,
`loader.dfy`.

## Model

| member | source | states |
|---|---|---|
| Text.LeadingSpace | fetch_gsheet.js:113-115 | the number of whitespace characters `trim()` removes at the start: all of them whitespace, and the next character, if any, is not |
| Text.TrailingSpace | fetch_gsheet.js:113-115 | the number of whitespace characters `trim()` removes at the end: all of them whitespace, and the character before them, if any, is not |
| Text.Trim | fetch_gsheet.js:113-115 | `trim()` gives a contiguous part of the input with no whitespace at either end, and everything it drops before and after that part is whitespace; it is empty exactly when the input is all whitespace |
| Text.TrimUnchanged | fetch_gsheet.js:72 | a string without whitespace at its ends is its own trim |
| Text.TrimIdempotent | fetch_gsheet.js:72 | trimming a trimmed string changes nothing |
| Text.NatToString | fetch_gsheet.js:72 | the decimal form of `i+1` in `Column{i+1}` is non-empty, all digits, with no leading zero |
| Text.DecimalRoundTrip | fetch_gsheet.js:72 | reading the decimal form back gives the number |
| Text.NatToStringInjective | fetch_gsheet.js:72 | different column numbers give different decimal forms |
| Text.Contains | fetch_gsheet.js:108 | `includes`: the empty string is contained in every string, a contained string is no longer than the text, and a prefix is contained |
| Html.EscapeChar | fetch_gsheet.js:41 | the five special characters become a reference `&...;`; every other character is kept as it is |
| Html.EscapeHTML | fetch_gsheet.js:40-42 | the escaped text is at least as long and contains no `<`, `>`, `'` or `"` |
| Html.EscapeAppend | fetch_gsheet.js:40-42 | escaping works character by character: it distributes over concatenation |
| Html.EscapePlainText | fetch_gsheet.js:40-42 | text without special characters is unchanged |
| Html.UnescapeEscape | fetch_gsheet.js:40-42 | decoding the five references restores the original text, so escaping loses nothing |
| Loader.BuildGVizUrl | fetch_gsheet.js:49-57 | `tqx=out:json` and `headers=1` are always set; `sheet` iff the sheet name is non-empty, `tq` iff the query is not blank, each with the given value; no other parameter, none twice |
| Loader.PrepareRequest | fetch_gsheet.js:113-116 | fails with the missing-id error iff the trimmed sheet id is empty; otherwise the request names the trimmed id and sheet and always carries a query, the trimmed one or `select *`; it also asks for JSON with a header row, with no parameter twice and none beyond the four names |
| Envelope.IndexOf | fetch_gsheet.js:61 | `indexOf`: -1 iff the character is absent, else the position of its first occurrence |
| Envelope.LastIndexOf | fetch_gsheet.js:62 | `lastIndexOf`: -1 iff the character is absent, else the position of its last occurrence |
| Envelope.Slice | fetch_gsheet.js:64 | `slice` of an empty or reversed range is empty; otherwise it is as long as the range and character k is character start+k of the text |
| Envelope.ExtractPayload | fetch_gsheet.js:59-65 | fails with "Unexpected response format" iff the text lacks `{` or `}`; a non-empty payload starts with `{` and ends with `}` |
| Envelope.PayloadIsBraceRange | fetch_gsheet.js:61-64 | the payload is exactly the text from the first `{` through the last `}`, and empty when that `}` precedes that `{` |
| Envelope.UnwrapCallback | fetch_gsheet.js:59-64 | a callback wrapper whose prefix has no `{` and whose suffix has no `}` yields the whole object literal |
| Gviz.FirstDetail | fetch_gsheet.js:128 | a message taken from the reply is the non-empty `detailed_message` of the first error; no message is taken when that first error has none or an empty one |
| Gviz.ReportedError | fetch_gsheet.js:127-129 | an error is reported iff status is "error" or the errors list is non-empty; its message is the first error's non-empty `detailed_message`, else "Unknown error" |
| Gviz.PermissionDeniedExample | fetch_gsheet.js:127-129 | a reply with status "error" and the message "Permission denied" fails with that message |
| Normalize.FallbackHeader | fetch_gsheet.js:72 | the synthesized header is `Column` followed by decimal digits with no leading zero that denote i+1 |
| Normalize.HeaderName | fetch_gsheet.js:72 | header i is the trimmed label when that is non-empty, else `Column{i+1}`; it is never empty and never has whitespace at its ends |
| Normalize.Headers | fetch_gsheet.js:72 | one header per column, header i named for column i |
| Normalize.CellText | fetch_gsheet.js:74 | a cell yields `f` when present, else `v` when present, else `''`; a null cell yields `''` |
| Normalize.RowCells | fetch_gsheet.js:74 | a null row or a row without `c` yields no cells; otherwise one text per cell |
| Normalize.Zip | fetch_gsheet.js:76 | entry i pairs header i with cell i, or with `''` when the row is shorter; exactly one entry per header, so extra cells are dropped |
| Normalize.ToRecord | fetch_gsheet.js:76 | a row's record never has a key twice |
| Normalize.ExtractedRows | fetch_gsheet.js:73-74 | one list of cell texts per row, in row order |
| Normalize.NormalizeRows | fetch_gsheet.js:67-77 | fails with "No data table in response" iff the table is missing or its cols or rows are not lists; otherwise at most one record per row, each with distinct keys |
| Normalize.NormalizeTable | fetch_gsheet.js:72-76 | at most one record per row, each record with distinct keys |
| Normalize.NormalizedRows | fetch_gsheet.js:73-76 | the records are those of the rows with a non-empty cell, one per such row, in the original order, none missed |
| Normalize.NoEmptyRows | fetch_gsheet.js:75 | when every row has a non-empty cell there is one record per row |
| Normalize.OnlyEmptyRows | fetch_gsheet.js:75 | when every row is blank there are no records |
| Normalize.RecordKeys | fetch_gsheet.js:76 | a record's keys are exactly the headers |
| Normalize.ZipKeys | fetch_gsheet.js:76 | the paired entries' keys are exactly the headers |
| Normalize.RecordField | fetch_gsheet.js:76 | the field named by header i holds cell i (or `''`) unless a later column has the same header |
| Normalize.DistinctHeadersRecord | fetch_gsheet.js:76 | with distinct headers the record is the plain pairing, in column order |
| Normalize.ZipDistinct | fetch_gsheet.js:76 | entries whose keys differ pairwise have distinct keys |
| Normalize.KeysWithout | fetch_gsheet.js:76 | a key no entry has is not among the keys |
| Normalize.LastForAt | fetch_gsheet.js:76 | an entry no later entry overrides gives its key's value |
| Records.Get | fetch_gsheet.js:76 | a lookup succeeds iff the key is present, and returns that key's entry |
| Records.Put | fetch_gsheet.js:76 | assigning a key makes it present with the new value and keeps keys distinct |
| Records.PutOther | fetch_gsheet.js:76 | assigning one key leaves every other key's value as it was |
| Records.FromEntries | fetch_gsheet.js:76 | `Object.fromEntries` keeps each key once, has the keys of the entries, and gives each key the value of its last entry |
| Records.FromEntriesDistinct | fetch_gsheet.js:76 | entries with distinct keys come out unchanged and in order |
| Records.PutExisting | fetch_gsheet.js:76 | assigning a key the object already has keeps every key in its place and the length unchanged |
| Records.PutNew | fetch_gsheet.js:76 | assigning an absent key appends it |
| Records.KeysAppend | fetch_gsheet.js:76 | the keys of a concatenation are the union of the keys |
| Records.DistinctAppend | fetch_gsheet.js:76 | one more entry keeps keys distinct iff its key is new |
| Seqs.Filter | fetch_gsheet.js:75 | `filter` keeps only elements that pass the test and is no longer than its input |
| Seqs.FilterPositions | fetch_gsheet.js:75 | `filter` returns the passing elements in their original order, all of them |
| Seqs.ShiftPositions | fetch_gsheet.js:75 | positions in the tail, moved by one, select the same elements of the whole |
| Seqs.FilterMembership | fetch_gsheet.js:75 | an element is in the result iff it is in the input and passes the test |
| Seqs.FilterKeepsAll | fetch_gsheet.js:75 | a test every element passes keeps the whole input |
| Seqs.FilterDropsAll | fetch_gsheet.js:75 | a test no element passes keeps nothing |
| Text.LowerChar | fetch_gsheet.js:107-108 | upper-case ASCII letters map to their lower-case letter; every other character is kept |
| Text.Lower | fetch_gsheet.js:107-108 | lower-casing keeps the length and maps each character |
| Filtering.Matches | fetch_gsheet.js:108 | a record with no fields never matches; the empty query matches every record that has a field |
| Filtering.FilterRows | fetch_gsheet.js:105-109 | the empty query returns the records unchanged; any other query returns at most as many records, each with a field that, lower-cased, contains the lower-cased query |
| Filtering.FilterRowsSelects | fetch_gsheet.js:105-108 | for a non-empty query the result is the matching records in their original order, none missed |
| Filtering.FilterRowsMembership | fetch_gsheet.js:108 | a record is shown iff it is loaded and some field, lower-cased, contains the lower-cased query |
| Filtering.FilterIgnoresCase | fetch_gsheet.js:107-108 | a query and its lower-cased form show the same records |
| Filtering.LowerIdempotent | fetch_gsheet.js:107 | lower-casing twice is lower-casing once |
| Filtering.TokyoExample | fetch_gsheet.js:105-108 | a record with the value "Tokyo" is found by "tokyo" |
| Filtering.OsakaExample | fetch_gsheet.js:105-108 | that record is not found by "osaka", nor by the blank query " ", which is not treated as empty |
| Loader.FetchRows | fetch_gsheet.js:113-132 | a blank sheet id fails with the missing-id error, whatever the network would answer |
| Loader.FetchRowsSuccess | fetch_gsheet.js:119-132 | records come only from a successful reply with braces, a payload that parses, no reported error and a table; the request asked for JSON, a header row and a query |
| Loader.ReportedErrorFails | fetch_gsheet.js:127-130 | a reply that reports an error fails with a query error carrying the reported message (the first `detailed_message`, else "Unknown error"), even when it also carries a table |
| Errors.Message | fetch_gsheet.js:116-122 | an HTTP failure reads `HTTP `, the decimal digits of the status without a leading zero, a space and the status text; a network, JSON or query failure shows its own message; the fixed messages are non-empty |
| Loader.Page.constructor | fetch_gsheet.js:22 | the page starts with no records |
| Loader.Page.Load | fetch_gsheet.js:111-142 | on success the records replace the old ones and the records matching the search box are shown; on any failure the old records stay and the error is returned |

## Left out

- The DOM: `els`, `setLoading`, `showError`, `clearError`, `render`, the event listeners, `bootFromQuery` and the `DOMContentLoaded` handler (fetch_gsheet.js:9-38, 98-103, 144-168). They only move values between the page and the functions modelled here. `Loader.Page.Load` returns the shown records or the error instead of rendering them.
- The user-visible text that wraps an error (fetch_gsheet.js:137). `Errors.Message` gives the error's own message.
- `fetch` and reading the body (fetch_gsheet.js:121-123): a parameter that returns a `Reply`. A failure while reading the body is not modelled.
- `JSON.parse` (fetch_gsheet.js:64): a parameter. `Gviz.Response` models the parsed object. Values of other JSON types than the ones modelled (a number label, a non-array `errors`) are outside the model.
- Percent-encoding by `URLSearchParams` and the URL's text form (fetch_gsheet.js:51-56). The model keeps the base URL and the list of parameters.
- Loader.BuildGVizUrl: states each parameter's presence and value, not the order `toString()` prints them in (tqx, sheet, headers, tq); the endpoint reads them by name.
- `String(v)` of numbers, booleans and other cell values: cell values are strings. A numeric cell value `0` is kept by the source as content; here every value is text.
- Text.LowerChar: lower-cases only the ASCII letters A-Z; `toLowerCase` covers all of Unicode.
- Object key order for integer-like keys: JavaScript lists keys such as "1" first in `Object.values`. `Records.FromEntries` keeps insertion order. Filtering does not depend on the order.
- `linkify` and `defaultRowTemplate` (fetch_gsheet.js:44-47, 83-96): a regular-expression replacement and HTML layout.
- Two overlapping `load` calls (fetch_gsheet.js:132): the last to finish wins. `Page.Load` models one call at a time.
