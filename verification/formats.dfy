/** `OutputFormat`: the closed set of output format names the writer
    recognises, in declaration order. */
module Formats {
  import opened Wrappers

  datatype OutputFormat = Display | CsvFile

  /** The enum member's `.value`. */
  function Value(f: OutputFormat): string {
    match f
    case Display => "display"
    case CsvFile => "csv_file"
  }

  /** The members in declaration order, as iterating over the enum gives them. */
  function Members(): (r: seq<OutputFormat>)
    ensures |r| == 2 && Display in r && CsvFile in r
  {
    [Display, CsvFile]
  }

  /** `OutputFormat.list()`: the value of every member, in declaration order. */
  function List(): (r: seq<string>)
    ensures |r| == |Members()|
    ensures forall i :: 0 <= i < |r| ==> r[i] == Value(Members()[i])
    ensures r == ["display", "csv_file"]
  {
    seq(|Members()|, i requires 0 <= i < |Members()| => Value(Members()[i]))
  }

  /** The member a format string selects, by comparing it with each
      member's value in turn; `None` when it matches neither. */
  function Parse(s: string): (r: Option<OutputFormat>)
    ensures r.Some? <==> s in List()
    ensures r.Some? ==> Value(r.value) == s
  {
    if s == Value(Display) then Some(Display)
    else if s == Value(CsvFile) then Some(CsvFile)
    else None
  }

  /** Every member is selected by its own value and by nothing else. */
  lemma ParseValue(f: OutputFormat, s: string)
    ensures Parse(Value(f)) == Some(f)
    ensures Parse(s) == Some(f) <==> s == Value(f)
  {
  }
}
