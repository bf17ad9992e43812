/** Properties of the console table that relate several renderings: the
    nested-field cell depends on the first orbit path only, every cell is
    printed whole, and short values line up under the header. */
module TableProperties {
  import opened Wrappers
  import opened Text
  import opened Records
  import opened Table
  import opened Flattening

  /** Two values the renderer cannot tell apart: equal scalars, or lists that
      are both empty or share their first element. */
  predicate SameShown(u: Value, v: Value) {
    || (u.Scalar? && u == v)
    || (&& u.Nested? && v.Nested?
        && (|u.items| == 0 <==> |v.items| == 0)
        && (|u.items| > 0 ==> u.items[0] == v.items[0]))
  }

  /** Field lists that differ at most in the orbit paths after the first. */
  predicate FieldsAlike(a: seq<Field>, b: seq<Field>) {
    && |a| == |b|
    && forall j :: 0 <= j < |a| ==> a[j].name == b[j].name && SameShown(a[j].value, b[j].value)
  }

  predicate RecordsAlike(d1: seq<Record>, d2: seq<Record>) {
    && |d1| == |d2|
    && forall k :: 0 <= k < |d1| ==> FieldsAlike(d1[k].fields, d2[k].fields)
  }

  lemma {:induction false} RenderRowFirstOnly(a: seq<Field>, b: seq<Field>)
    requires FieldsAlike(a, b)
    ensures RenderRow(a) == RenderRow(b)
  {
    if |a| > 0 {
      assert Cell(a[0].value) == Cell(b[0].value);
      assert FieldsAlike(a[1..], b[1..]) by {
        forall j | 0 <= j < |a| - 1
          ensures a[1..][j].name == b[1..][j].name && SameShown(a[1..][j].value, b[1..][j].value)
        {
          assert a[1..][j] == a[j + 1] && b[1..][j] == b[j + 1];
        }
      }
      RenderRowFirstOnly(a[1..], b[1..]);
    }
  }

  lemma {:induction false} RenderRecordsFirstOnly(d1: seq<Record>, d2: seq<Record>)
    requires RecordsAlike(d1, d2)
    ensures RenderRecords(d1) == RenderRecords(d2)
  {
    if |d1| > 0 {
      RenderRowFirstOnly(d1[0].fields, d2[0].fields);
      assert RecordsAlike(d1[1..], d2[1..]) by {
        forall k | 0 <= k < |d1| - 1 ensures FieldsAlike(d1[1..][k].fields, d2[1..][k].fields) {
          assert d1[1..][k] == d1[k + 1] && d2[1..][k] == d2[k + 1];
        }
      }
      RenderRecordsFirstOnly(d1[1..], d2[1..]);
    }
  }

  /** Changing or appending orbit paths after the first leaves the whole
      display output unchanged. */
  lemma DisplayFirstOnly(d1: seq<Record>, d2: seq<Record>)
    requires RecordsAlike(d1, d2)
    ensures RenderDisplay(d1) == RenderDisplay(d2)
  {
    RenderRecordsFirstOnly(d1, d2);
    if |d1| > 0 {
      assert FieldsAlike(d1[0].fields, d2[0].fields);
      assert Names(d1[0]) == Names(d2[0]);
      assert HeaderCells(d1[0]) == HeaderCells(d2[0]);
    }
  }

  /** Every cell appears whole in its record line, right after the cells
      before it; a scalar value in particular is never cut. */
  lemma RowLineShowsEveryCell(rec: Record, j: nat)
    requires Printable(rec)
    requires j < |rec.fields|
    ensures var cells := RenderRow(rec.fields).cells;
            var off := |Concat(cells[..j])|;
            && off + |cells[j]| <= |RowLine(rec)|
            && RowLine(rec)[off..off + |cells[j]|] == cells[j]
            && (rec.fields[j].value.Scalar? ==>
                  var t := rec.fields[j].value.text;
                  off + |t| <= |RowLine(rec)| && RowLine(rec)[off..off + |t|] == t)
  {
    var cells := RenderRow(rec.fields).cells;
    ConcatContains(cells, j);
    assert Cell(rec.fields[j].value) == Success(cells[j]);
  }

  /** A value whose text is at most one column wide: a scalar of at most 25
      characters, or a list whose first orbit path flattens to at most 25. */
  predicate FitsColumn(v: Value) {
    match v
    case Scalar(t) => |t| <= ColumnWidth
    case Nested(items) =>
      && |items| > 0
      && HasEntry(items[0].entries, BackReference)
      && |Flatten(items[0])| <= ColumnWidth
  }

  /** When every cell of a record is exactly one column wide, i.e. no value
      is longer than 25 characters, the record line has the header's layout:
      cell `j` occupies column `j`. */
  lemma RowAlignsWithHeader(data: seq<Record>, k: nat)
    requires Displayable(data)
    requires k < |data|
    requires |data[k].fields| == |data[0].fields|
    requires forall j :: 0 <= j < |data[k].fields| ==> FitsColumn(data[k].fields[j].value)
    ensures |RowLine(data[k])| == |HeaderLine(data[0])|
    ensures forall j :: 0 <= j < |data[k].fields| ==>
              && ColumnWidth * j + ColumnWidth <= |RowLine(data[k])|
              && Column(RowLine(data[k]), j) == RenderRow(data[k].fields).cells[j]
  {
    var cells := RenderRow(data[k].fields).cells;
    assert Printable(data[k]);
    forall j | 0 <= j < |cells| ensures |cells[j]| == ColumnWidth {
      assert Cell(data[k].fields[j].value) == Success(cells[j]);
      assert FitsColumn(data[k].fields[j].value);
    }
    ConcatUniform(cells, ColumnWidth);
  }

  /** What the display branch silently demands of a field value: a list
      must have a first orbit path, and that path a `neo_name` to delete. */
  predicate FlattenableValue(v: Value) {
    v.Nested? ==> |v.items| > 0 && HasEntry(v.items[0].entries, BackReference)
  }

  lemma {:induction false} PrintableIff(fields: seq<Field>)
    ensures RenderRow(fields).Complete? <==>
              forall j :: 0 <= j < |fields| ==> FlattenableValue(fields[j].value)
  {
    var r := RenderRow(fields);
    if r.Broken? {
      var j := |r.cells|;
      assert Cell(fields[j].value).Failure?;
      assert !FlattenableValue(fields[j].value);
    } else {
      forall j | 0 <= j < |fields| ensures FlattenableValue(fields[j].value) {
        assert Cell(fields[j].value).Success?;
      }
    }
  }

  /** The display call returns true exactly when the collection is non-empty
      and every list-valued field of every record can be flattened;
      otherwise it raises. */
  lemma DisplayableIff(data: seq<Record>)
    ensures Displayable(data) <==>
              && |data| > 0
              && forall k, j :: 0 <= k < |data| && 0 <= j < |data[k].fields| ==>
                   FlattenableValue(data[k].fields[j].value)
  {
    forall k | 0 <= k < |data| {
      PrintableIff(data[k].fields);
    }
  }

  /** A value whose text holds no line break: a scalar, or every attribute
      of every orbit path of a list. */
  predicate SingleLineValue(v: Value) {
    match v
    case Scalar(t) => SingleLine(t)
    case Nested(items) =>
      forall i, j :: 0 <= i < |items| && 0 <= j < |items[i].entries| ==>
        SingleLineEntry(items[i].entries[j])
  }

  /** No field name and no value of any record holds a line break. */
  predicate SingleLineData(data: seq<Record>) {
    forall k, j :: 0 <= k < |data| && 0 <= j < |data[k].fields| ==>
      SingleLine(data[k].fields[j].name) && SingleLineValue(data[k].fields[j].value)
  }

  lemma CellSingleLine(v: Value)
    requires SingleLineValue(v)
    requires Cell(v).Success?
    ensures SingleLine(Cell(v).value)
  {
    match v
    case Scalar(t) =>
      LeftJustifySingleLine(t, ColumnWidth);
    case Nested(items) =>
      assert forall j :: 0 <= j < |items[0].entries| ==> SingleLineEntry(items[0].entries[j]);
      FlattenSingleLine(items[0]);
      LeftJustifySingleLine(Flatten(items[0]), ColumnWidth);
  }

  lemma RowCellsSingleLine(fields: seq<Field>)
    requires forall j :: 0 <= j < |fields| ==> SingleLineValue(fields[j].value)
    ensures SingleLine(Concat(RenderRow(fields).cells))
  {
    var cells := RenderRow(fields).cells;
    forall j | 0 <= j < |cells| ensures SingleLine(cells[j]) {
      CellSingleLine(fields[j].value);
    }
    ConcatSingleLine(cells);
  }

  lemma HeaderSingleLine(first: Record)
    requires forall j :: 0 <= j < |first.fields| ==> SingleLine(first.fields[j].name)
    ensures SingleLine(HeaderLine(first))
  {
    var cells := HeaderCells(first);
    forall j | 0 <= j < |cells| ensures SingleLine(cells[j]) {
      var name := first.fields[j].name;
      TruncateSingleLine(name, HeaderLimit);
      LeftJustifySingleLine(Truncate(name, HeaderLimit), ColumnWidth);
    }
    ConcatSingleLine(cells);
  }

  /** When no field name or value holds a line break, each printed line is
      one physical line: `2 + |data|` lines on success means exactly that
      many lines on the terminal. */
  lemma DisplayLinesUnbroken(data: seq<Record>)
    requires SingleLineData(data)
    ensures forall i :: 0 <= i < |RenderDisplay(data).lines| ==> SingleLine(RenderDisplay(data).lines[i])
    ensures SingleLine(RenderDisplay(data).pending)
  {
    var out := RenderDisplay(data);
    if |data| > 0 {
      HeaderSingleLine(data[0]);
      forall k | 0 <= k < |data| ensures SingleLine(Concat(RenderRow(data[k].fields).cells)) {
        RowCellsSingleLine(data[k].fields);
      }
      forall i | 0 <= i < |out.lines| ensures SingleLine(out.lines[i]) {
        if i >= 2 {
          assert out.lines[i] == RowLine(data[i - 2]);
        }
      }
    }
  }
}
