/** What a call of the writer leaves behind: the lines it printed and how it
    ended. */
module Outcomes {

  /** Why a table cell could not be produced. */
  datatype CellError =
    | EmptyNestedList       // `item[0]` on an empty list raises IndexError
    | MissingBackReference  // `del item['neo_name']` raises KeyError

  /** An exception escaping the writer. */
  datatype Fault =
    | NoRecords                                          // `data[0]` on an empty collection
    | BadCell(record: nat, field: nat, error: CellError) // while printing that cell

  datatype Status =
    | ReturnedTrue
    | ReturnedNothing    // no branch matched: the method falls off its end
    | HandedToCsvWriter  // the CSV branch went on to write its file
    | Raised(fault: Fault)

  /** `lines` are the texts ended by a line ending of `print`, in order; a
      text may itself hold a line break taken from the data. `pending` is
      text printed on a line that an exception left unfinished. */
  datatype Outcome = Outcome(lines: seq<string>, pending: string, status: Status)
}
