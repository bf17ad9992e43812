/** `NEOWriter.write`: dispatch on the format string to the console table or
    to the CSV file writer. */
module Writer {
  import opened Wrappers
  import opened Records
  import opened Outcomes
  import opened Table
  import Formats

  /** The CSV branch as far as standard output shows it: a status line, then
      `data[0]` (which raises on an empty collection) before the file is
      written. */
  const CsvStatusLine: string := "Outputting to CSV"

  function CsvBranch(data: seq<Record>): (out: Outcome)
    ensures out.lines == [CsvStatusLine] && out.pending == ""
    ensures out.status == Raised(NoRecords) <==> |data| == 0
    ensures |data| > 0 ==> out.status == HandedToCsvWriter
  {
    Outcome([CsvStatusLine], "", if |data| == 0 then Raised(NoRecords) else HandedToCsvWriter)
  }

  /** `write(format, data)`: the display branch for `"display"`, the CSV
      branch for `"csv_file"`, and for any other string no output at all and
      an implicit `None`. */
  function Write(format: string, data: seq<Record>): (out: Outcome)
    ensures format == Formats.Value(Formats.Display) ==> out == RenderDisplay(data)
    ensures format == Formats.Value(Formats.CsvFile) ==> out == CsvBranch(data)
    ensures format !in Formats.List() ==> out == Outcome([], "", ReturnedNothing)
    ensures out.status == ReturnedTrue ==> format == "display" && Displayable(data)
  {
    var selected := Formats.Parse(format);
    if selected == Some(Formats.Display) then RenderDisplay(data)
    else if selected == Some(Formats.CsvFile) then CsvBranch(data)
    else Outcome([], "", ReturnedNothing)
  }

  /** A display call on well-formed data prints `"OK"`, the header and one
      line per record, `2 + |data|` lines in all, and returns true. */
  lemma DisplayLineCount(data: seq<Record>)
    requires Displayable(data)
    ensures var out := Write("display", data);
            && out.status == ReturnedTrue
            && |out.lines| == 2 + |data|
            && out.lines[0] == "OK"
            && out.lines[1] == HeaderLine(data[0])
            && out.pending == ""
  {
  }
}
