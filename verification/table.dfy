/** The `display` branch of the writer: a fixed-width console table with a
    header line taken from the first record and one line per record. */
module Table {
  import opened Wrappers
  import opened Text
  import opened Records
  import opened Flattening
  import opened Outcomes

  /** Every cell is left-justified to this width. */
  const ColumnWidth: nat := 25

  /** Header names are cut to this many characters, so that a header cell
      always ends in at least one space. */
  const HeaderLimit: nat := 24

  /** The status line printed before the table. */
  const StatusLine: string := "OK"

  /** A header cell: the field name cut to its first 24 characters and
      left-justified in one column. */
  function HeaderCell(name: string): (r: string)
    ensures |r| == ColumnWidth
    ensures r[..Min(|name|, HeaderLimit)] == name[..Min(|name|, HeaderLimit)]
    ensures AllSpaces(r[Min(|name|, HeaderLimit)..])
  {
    LeftJustify(Truncate(name, HeaderLimit), ColumnWidth)
  }

  function HeaderCells(first: Record): (cells: seq<string>)
    ensures |cells| == |first.fields|
    ensures forall i :: 0 <= i < |cells| ==> cells[i] == HeaderCell(first.fields[i].name)
  {
    seq(|first.fields|, i requires 0 <= i < |first.fields| => HeaderCell(first.fields[i].name))
  }

  /** Column `i` of a line made of full-width cells. */
  function Column(line: string, i: nat): string
    requires ColumnWidth * i + ColumnWidth <= |line|
  {
    line[ColumnWidth * i..ColumnWidth * i + ColumnWidth]
  }

  /** The header line: one cell per field of the first record, in that
      record's field order, each exactly one column wide. */
  function HeaderLine(first: Record): (r: string)
    ensures |r| == ColumnWidth * |first.fields|
    ensures forall i :: 0 <= i < |first.fields| ==>
              ColumnWidth * i + ColumnWidth <= |r| && Column(r, i) == HeaderCell(first.fields[i].name)
  {
    var cells := HeaderCells(first);
    ConcatUniform(cells, ColumnWidth);
    Concat(cells)
  }

  /** Reads a header line back: each full column, trailing spaces removed. */
  function ParseHeader(line: string): seq<string>
    decreases |line|
  {
    if |line| < ColumnWidth then []
    else [RTrim(line[..ColumnWidth])] + ParseHeader(line[ColumnWidth..])
  }

  lemma {:induction false} ParseUniform(cells: seq<string>)
    requires forall i :: 0 <= i < |cells| ==> |cells[i]| == ColumnWidth
    ensures |ParseHeader(Concat(cells))| == |cells|
    ensures forall i :: 0 <= i < |cells| ==> ParseHeader(Concat(cells))[i] == RTrim(cells[i])
  {
    if |cells| > 0 {
      var line := Concat(cells);
      ConcatUniform(cells, ColumnWidth);
      ParseUniform(cells[1..]);
      assert line[..ColumnWidth] == cells[0];
      assert line[ColumnWidth..] == Concat(cells[1..]);
    }
  }

  /** A name fits a header cell unchanged: at most 24 characters and not
      ending in a space. */
  predicate FitsHeader(name: string) {
    |name| <= HeaderLimit && (|name| == 0 || name[|name| - 1] != ' ')
  }

  /** Reading the header line back gives, per field, the name cut to 24
      characters; names that fit come back exactly. */
  lemma HeaderRoundTrip(first: Record)
    ensures |ParseHeader(HeaderLine(first))| == |first.fields|
    ensures forall i :: 0 <= i < |first.fields| ==>
              ParseHeader(HeaderLine(first))[i] == RTrim(Truncate(first.fields[i].name, HeaderLimit))
    ensures (forall i :: 0 <= i < |first.fields| ==> FitsHeader(first.fields[i].name)) ==>
              ParseHeader(HeaderLine(first)) == Names(first)
  {
    var cells := HeaderCells(first);
    ParseUniform(cells);
    forall i | 0 <= i < |first.fields|
      ensures ParseHeader(HeaderLine(first))[i] == RTrim(Truncate(first.fields[i].name, HeaderLimit))
      ensures FitsHeader(first.fields[i].name) ==> ParseHeader(HeaderLine(first))[i] == first.fields[i].name
    {
      HeaderCellTrim(first.fields[i].name);
    }
  }

  lemma HeaderCellTrim(name: string)
    ensures RTrim(HeaderCell(name)) == RTrim(Truncate(name, HeaderLimit))
    ensures FitsHeader(name) ==> RTrim(HeaderCell(name)) == name
  {
    var t := Truncate(name, HeaderLimit);
    RTrimIgnoresPadding(t, ColumnWidth - |t|);
    if FitsHeader(name) {
      PadTrimRoundTrip(t, ColumnWidth);
    }
  }

  /** The cell of one field value, left-justified in one column: a scalar
      as it is, a list as the flattened text of its first orbit path. */
  function Cell(v: Value): (r: Result<string, CellError>)
    ensures r.Success? ==> |r.value| >= ColumnWidth
    ensures v.Scalar? ==> r.Success? && |v.text| <= |r.value| && r.value[..|v.text|] == v.text
    ensures v.Scalar? ==> |r.value| == Max(|v.text|, ColumnWidth) && AllSpaces(r.value[|v.text|..])
    ensures v.Nested? ==> (r.Success? <==> |v.items| > 0 && HasEntry(v.items[0].entries, BackReference))
    ensures v.Nested? && r.Failure? ==> (r.error == EmptyNestedList <==> |v.items| == 0)
    ensures v.Nested? && r.Success? ==>
              var f := Flatten(v.items[0]);
              && |r.value| == Max(|f|, ColumnWidth)
              && r.value[..|f|] == f
              && AllSpaces(r.value[|f|..])
  {
    match v
    case Scalar(t) => Success(LeftJustify(t, ColumnWidth))
    case Nested(items) =>
      if |items| == 0 then Failure(EmptyNestedList)
      else if !HasEntry(items[0].entries, BackReference) then Failure(MissingBackReference)
      else Success(LeftJustify(Flatten(items[0]), ColumnWidth))
  }

  /** The cells of one record line. `Broken` carries the cells printed
      before the field whose cell raised. */
  datatype RowOutcome =
    | Complete(cells: seq<string>)
    | Broken(cells: seq<string>, error: CellError)

  /** The inner loop: one cell per field value, in field order, until a cell
      raises. */
  function RenderRow(fields: seq<Field>): (r: RowOutcome)
    ensures |r.cells| <= |fields|
    ensures forall j :: 0 <= j < |r.cells| ==> Cell(fields[j].value) == Success(r.cells[j])
    ensures r.Complete? <==> |r.cells| == |fields|
    ensures r.Broken? ==> Cell(fields[|r.cells|].value) == Failure(r.error)
  {
    if |fields| == 0 then Complete([])
    else
      match Cell(fields[0].value)
      case Failure(e) => Broken([], e)
      case Success(c) =>
        match RenderRow(fields[1..])
        case Complete(cs) => Complete([c] + cs)
        case Broken(cs, e) => Broken([c] + cs, e)
  }

  predicate Printable(rec: Record) {
    RenderRow(rec.fields).Complete?
  }

  /** The printed line of a record whose cells all render. */
  function RowLine(rec: Record): (r: string)
    requires Printable(rec)
    ensures |r| >= ColumnWidth * |rec.fields|
    ensures |r| == TotalLength(RenderRow(rec.fields).cells)
  {
    var cells := RenderRow(rec.fields).cells;
    assert forall j :: 0 <= j < |cells| ==> Cell(rec.fields[j].value) == Success(cells[j]);
    ConcatAtLeast(cells, ColumnWidth);
    Concat(cells)
  }

  /** The outer loop's lines: `Stopped` carries the text printed on the
      record line that raised, and the position of the field that raised. */
  datatype RowsOutcome =
    | Finished(lines: seq<string>)
    | Stopped(lines: seq<string>, pending: string, field: nat, error: CellError)

  /** The outer loop: one line per record, in input order, until a record
      raises. */
  function RenderRecords(data: seq<Record>): (r: RowsOutcome)
    ensures |r.lines| <= |data|
    ensures forall k :: 0 <= k < |r.lines| ==> Printable(data[k]) && r.lines[k] == RowLine(data[k])
    ensures r.Finished? <==> |r.lines| == |data|
    ensures r.Stopped? ==>
              var row := RenderRow(data[|r.lines|].fields);
              row.Broken? && r.pending == Concat(row.cells) && r.field == |row.cells| && r.error == row.error
  {
    if |data| == 0 then Finished([])
    else
      var row := RenderRow(data[0].fields);
      if row.Broken? then Stopped([], Concat(row.cells), |row.cells|, row.error)
      else
        var line := RowLine(data[0]);
        var rest := RenderRecords(data[1..]);
        var lines := [line] + rest.lines;
        assert forall k :: 1 <= k < |lines| ==> lines[k] == rest.lines[k - 1] && data[k] == data[1..][k - 1];
        if rest.Finished? then Finished(lines)
        else Stopped(lines, rest.pending, rest.field, rest.error)
  }

  /** Every record can be printed: the display call runs to completion. */
  predicate Displayable(data: seq<Record>) {
    |data| > 0 && forall k :: 0 <= k < |data| ==> Printable(data[k])
  }

  /** The display branch: `"OK"`, the header line of the first record, then
      one line per record; it returns true, or raises on an empty collection
      or on a nested field it cannot flatten. */
  function RenderDisplay(data: seq<Record>): (out: Outcome)
    ensures |out.lines| >= 1 && out.lines[0] == StatusLine
    ensures out.status == Raised(NoRecords) <==> |data| == 0
    ensures |data| == 0 ==> out.lines == [StatusLine] && out.pending == ""
    ensures out.status == ReturnedTrue <==> Displayable(data)
    ensures out.status.ReturnedTrue? || out.status.Raised?
    ensures out.status == ReturnedTrue ==>
              && |out.lines| == 2 + |data|
              && out.pending == ""
              && out.lines[1] == HeaderLine(data[0])
              && forall k :: 0 <= k < |data| ==> out.lines[k + 2] == RowLine(data[k])
    ensures out.status.Raised? && out.status.fault.BadCell? ==>
              var k := out.status.fault.record;
              && k < |data|
              && |out.lines| == 2 + k
              && out.lines[1] == HeaderLine(data[0])
              && (forall i :: 0 <= i < k ==> Printable(data[i]) && out.lines[i + 2] == RowLine(data[i]))
              && var row := RenderRow(data[k].fields);
              && row.Broken?
              && out.pending == Concat(row.cells)
              && out.status.fault.field == |row.cells|
              && out.status.fault.error == row.error
  {
    if |data| == 0 then Outcome([StatusLine], "", Raised(NoRecords))
    else
      var head := [StatusLine, HeaderLine(data[0])];
      match RenderRecords(data)
      case Finished(ls) => Outcome(head + ls, "", ReturnedTrue)
      case Stopped(ls, p, j, e) => Outcome(head + ls, p, Raised(BadCell(|ls|, j, e)))
  }
}
