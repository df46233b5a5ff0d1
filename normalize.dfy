/** `normalizeRows`: the table of a reply turned into one object per
    non-empty row, keyed by the column headers. */
module Normalize {
  import opened Wrappers
  import opened Text
  import opened Seqs
  import opened Records
  import opened Gviz
  import opened Errors

  /** The header of a column without a usable label: `Column1`, `Column2`, ... */
  function FallbackHeader(i: nat): (h: string)
    ensures |h| > 6 && h[..6] == "Column"
    ensures forall k :: 6 <= k < |h| ==> IsDigit(h[k])
    ensures |h| > 7 ==> h[6] != '0'
    ensures DecimalValue(h[6..]) == i + 1
  {
    var digits := NatToString(i + 1);
    DecimalRoundTrip(i + 1);
    assert ("Column" + digits)[6..] == digits;
    "Column" + digits
  }

  /** The label of a column descriptor, when it is a non-empty string. */
  function LabelOf(col: Option<Column>): Option<string> {
    if col.Some? && col.value.columnLabel.Some? && col.value.columnLabel.value != ""
    then col.value.columnLabel
    else None
  }

  /** The header of column `i`: its trimmed label, or `Column{i+1}` when the
      label is missing or blank. A header is never empty and never starts
      or ends with whitespace. */
  function HeaderName(col: Option<Column>, i: nat): (h: string)
    ensures h != [] && Trim(h) == h
    ensures LabelOf(col).Some? && Trim(LabelOf(col).value) != "" ==> h == Trim(LabelOf(col).value)
    ensures LabelOf(col).None? || Trim(LabelOf(col).value) == "" ==> h == FallbackHeader(i)
  {
    if LabelOf(col).Some? && Trim(LabelOf(col).value) != "" then
      TrimIdempotent(LabelOf(col).value);
      Trim(LabelOf(col).value)
    else
      var h := FallbackHeader(i);
      assert h[0] == 'C' && IsDigit(h[|h| - 1]);
      TrimUnchanged(h);
      h
  }

  /** One header per column, in column order. */
  function Headers(cols: seq<Option<Column>>): (hs: seq<string>)
    ensures |hs| == |cols|
    ensures forall i :: 0 <= i < |hs| ==> hs[i] == HeaderName(cols[i], i)
  {
    seq(|cols|, i requires 0 <= i < |cols| => HeaderName(cols[i], i))
  }

  /** The text of a cell: its formatted value, else its raw value, else the
      empty string. */
  function CellText(c: Option<Cell>): (t: string)
    ensures c.Some? && c.value.f.Some? ==> t == c.value.f.value
    ensures c.Some? && c.value.f.None? && c.value.v.Some? ==> t == c.value.v.value
    ensures c.None? || (c.value.f.None? && c.value.v.None?) ==> t == ""
    ensures t != "" ==> c.Some? && (c.value.f == Some(t) || (c.value.f.None? && c.value.v == Some(t)))
  {
    match c
    case None => ""
    case Some(Cell(Some(f), _)) => f
    case Some(Cell(None, Some(v))) => v
    case Some(Cell(None, None)) => ""
  }

  /** The text of each cell of a row; a `null` row or one without `c` has none. */
  function RowCells(r: Option<Row>): (cells: seq<string>)
    ensures r.None? || r.value.c.None? ==> cells == []
    ensures r.Some? && r.value.c.Some? ==>
      |cells| == |r.value.c.value| && forall i :: 0 <= i < |cells| ==> cells[i] == CellText(r.value.c.value[i])
  {
    if r.Some? && r.value.c.Some? then
      var cs := r.value.c.value;
      seq(|cs|, i requires 0 <= i < |cs| => CellText(cs[i]))
    else []
  }

  /** A row is kept when at least one of its cells is not empty. */
  predicate HasContent(cells: seq<string>) {
    exists i :: 0 <= i < |cells| && cells[i] != ""
  }

  /** Header `i` paired with cell `i`; a missing cell is the empty string and
      cells beyond the last header are dropped. */
  function Zip(headers: seq<string>, cells: seq<string>): (es: seq<Entry>)
    ensures |es| == |headers|
    ensures forall i :: 0 <= i < |es| ==> es[i] == Entry(headers[i], if i < |cells| then cells[i] else "")
  {
    if headers == [] then []
    else if cells == [] then [Entry(headers[0], "")] + Zip(headers[1..], [])
    else [Entry(headers[0], cells[0])] + Zip(headers[1..], cells[1..])
  }

  /** The object `Object.fromEntries` builds for one row. */
  function ToRecord(headers: seq<string>, cells: seq<string>): (r: Record)
    ensures DistinctKeys(r)
  {
    FromEntries(Zip(headers, cells))
  }

  /** The cell texts of every row, non-empty or not. */
  function ExtractedRows(rows: seq<Option<Row>>): (cs: seq<seq<string>>)
    ensures |cs| == |rows| && forall i :: 0 <= i < |rows| ==> cs[i] == RowCells(rows[i])
  {
    seq(|rows|, i requires 0 <= i < |rows| => RowCells(rows[i]))
  }

  /** The reply carries a table whose columns and rows are both lists. */
  predicate HasTable(g: Response) {
    g.table.Some? && g.table.value.cols.Some? && g.table.value.rows.Some?
  }

  /** The records of a table whose columns and rows are lists. */
  function NormalizeTable(cols: seq<Option<Column>>, rows: seq<Option<Row>>): (records: seq<Record>)
    ensures |records| <= |rows|
    ensures forall j :: 0 <= j < |records| ==> DistinctKeys(records[j])
  {
    var headers := Headers(cols);
    var kept := Filter(ExtractedRows(rows), HasContent);
    seq(|kept|, j requires 0 <= j < |kept| => ToRecord(headers, kept[j]))
  }

  /** `normalizeRows(gviz)`. */
  function NormalizeRows(g: Response): (r: Result<seq<Record>, LoadError>)
    ensures r.Failure? <==> !HasTable(g)
    ensures r.Failure? ==> r.error == NoDataTable
    ensures r.Success? ==> r.value == NormalizeTable(g.table.value.cols.value, g.table.value.rows.value)
  {
    if !HasTable(g) then Failure(NoDataTable)
    else Success(NormalizeTable(g.table.value.cols.value, g.table.value.rows.value))
  }

  /** The records are those of the rows with a non-empty cell, one per such
      row, in the original order: `idx` lists the positions of the rows that
      were kept, and every row with a non-empty cell is among them. */
  lemma NormalizedRows(cols: seq<Option<Column>>, rows: seq<Option<Row>>) returns (idx: seq<nat>)
    ensures |idx| == |NormalizeTable(cols, rows)| && Increasing(idx, |rows|)
    ensures forall j :: 0 <= j < |idx| ==>
      (&& idx[j] < |rows|
       && HasContent(RowCells(rows[idx[j]]))
       && NormalizeTable(cols, rows)[j] == ToRecord(Headers(cols), RowCells(rows[idx[j]])))
    ensures forall i {:trigger i in idx} :: 0 <= i < |rows| && HasContent(RowCells(rows[i])) ==> i in idx
  {
    var extracted := ExtractedRows(rows);
    var kept := Filter(extracted, HasContent);
    idx := FilterPositions(extracted, HasContent);
    forall i | 0 <= i < |rows| && HasContent(RowCells(rows[i]))
      ensures i in idx
    {
      assert HasContent(extracted[i]);
    }
    forall j | 0 <= j < |idx|
      ensures HasContent(RowCells(rows[idx[j]]))
      ensures NormalizeTable(cols, rows)[j] == ToRecord(Headers(cols), RowCells(rows[idx[j]]))
    {
      assert HasContent(kept[j]);
      assert kept[j] == extracted[idx[j]];
    }
  }

  /** When every row has a non-empty cell, there is one record per row. */
  lemma NoEmptyRows(cols: seq<Option<Column>>, rows: seq<Option<Row>>)
    requires forall i :: 0 <= i < |rows| ==> HasContent(RowCells(rows[i]))
    ensures |NormalizeTable(cols, rows)| == |rows|
  {
    FilterKeepsAll(ExtractedRows(rows), HasContent);
  }

  /** When every row is blank, there are no records. */
  lemma OnlyEmptyRows(cols: seq<Option<Column>>, rows: seq<Option<Row>>)
    requires forall i :: 0 <= i < |rows| ==> !HasContent(RowCells(rows[i]))
    ensures NormalizeTable(cols, rows) == []
  {
    FilterDropsAll(ExtractedRows(rows), HasContent);
  }

  /** The record of a row has one key per distinct header and no other. */
  lemma RecordKeys(headers: seq<string>, cells: seq<string>, k: string)
    ensures k in Keys(ToRecord(headers, cells)) <==> k in headers
  {
    ZipKeys(headers, cells, k);
  }

  lemma {:induction false} ZipKeys(headers: seq<string>, cells: seq<string>, k: string)
    ensures k in Keys(Zip(headers, cells)) <==> k in headers
  {
    if headers != [] {
      var rest := if cells == [] then [] else cells[1..];
      ZipKeys(headers[1..], rest, k);
      assert Zip(headers, cells)[1..] == Zip(headers[1..], rest);
      assert k in headers <==> k == headers[0] || k in headers[1..];
    }
  }

  /** In a record, header `i` holds cell `i`, or the empty string when the
      row is shorter, unless a later column has the same header: then the
      later column's value wins. */
  lemma RecordField(headers: seq<string>, cells: seq<string>, i: nat)
    requires i < |headers|
    requires forall k :: i < k < |headers| ==> headers[k] != headers[i]
    ensures Get(ToRecord(headers, cells), headers[i]) == Some(if i < |cells| then cells[i] else "")
  {
    var es := Zip(headers, cells);
    LastForAt(es, i);
  }

  /** With distinct headers the record is the plain pairing, one field per
      column in column order. */
  lemma DistinctHeadersRecord(headers: seq<string>, cells: seq<string>)
    requires forall a, b :: 0 <= a < b < |headers| ==> headers[a] != headers[b]
    ensures ToRecord(headers, cells) == Zip(headers, cells)
  {
    var es := Zip(headers, cells);
    ZipDistinct(es);
    FromEntriesDistinct(es);
  }

  lemma {:induction false} ZipDistinct(es: seq<Entry>)
    requires forall a, b :: 0 <= a < b < |es| ==> es[a].key != es[b].key
    ensures DistinctKeys(es)
  {
    if es != [] {
      ZipDistinct(es[1..]);
      KeysWithout(es[1..], es[0].key);
    }
  }

  lemma {:induction false} KeysWithout(es: seq<Entry>, k: string)
    requires forall a :: 0 <= a < |es| ==> es[a].key != k
    ensures k !in Keys(es)
  {
    if es != [] {
      KeysWithout(es[1..], k);
    }
  }

  /** An entry that no later entry overrides gives the value of its key. */
  lemma {:induction false} LastForAt(es: seq<Entry>, i: nat)
    requires i < |es|
    requires forall k :: i < k < |es| ==> es[k].key != es[i].key
    ensures LastFor(es, es[i].key) == Some(es[i].value)
  {
    if i < |es| - 1 {
      LastForAt(es[..|es| - 1], i);
    }
  }
}
