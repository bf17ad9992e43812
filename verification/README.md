# NEO writer: console table model

A Dafny model of the output writer of a near-earth-object (NEO) search
tool. `NEOWriter.write(format, data)` takes a format name and a collection
of NEO records. Each record carries a list of orbit-path sub-records. In
`display` mode the writer prints a fixed-width table to standard output:

- the status line `OK`;
- a header line with the first record's field names, each cut to 24
  characters and left-justified to 25;
- one line per record, with each value left-justified to 25 and never cut.

A list-valued field is shown as `name:value, name:value`. The text comes
from the list's first orbit path after its `neo_name` back-reference is
deleted. `OutputFormat` is the enum of the two recognised format names.

The model is functional. Records are explicit ordered `(name, value)`
sequences. Printing becomes an `Outcome`, which holds:

- the texts the program ends with a `print` line ending, in order;
- the text left on an unfinished line when an exception escapes;
- how the call ended: returned `True`, returned nothing, handed over to the
  CSV file writer, or raised a fault.

Modules: `Text` (padding, slicing, joining and their inverses), `Records`
(the data and `del` on a dictionary), `Flattening` (the nested-field cell),
`Table` (the display branch), `TableProperties` (properties relating
several renderings), `Formats` (`OutputFormat`), `Writer` (dispatch),
`Outcomes`, `Wrappers`.

## Model

| member | source | states |
|---|---|---|
| Text.LeftJustify | starter/writer.py:55 | `'{:<w}'.format(s)` has length max(w, len s), starts with `s` itself, and is spaces after it: padding never cuts a value |
| Text.Truncate | starter/writer.py:44 | `name[:24]` is the first min(len, 24) characters of the name |
| Text.Concat | starter/writer.py:43-44 | cells printed one after another on one line make a line as long as their lengths together; `ConcatContains` places each cell whole at its offset |
| Text.Join | starter/writer.py:53 | `", ".join` is empty for no parts, starts with the first part, and puts the separator right after it when there are two or more; `SplitJoinRoundTrip` is its inverse |
| Text.PadTrimRoundTrip | starter/writer.py:55 | removing trailing spaces from a padded value gives the value back, if the value does not end in a space |
| Text.SplitJoinRoundTrip | starter/writer.py:53 | splitting a `", "`-joined string at `", "` gives the parts back, if no part contains `", "` |
| Records.Delete | starter/writer.py:52 | `del d['neo_name']` removes exactly one entry, keeps only entries that were there, and raises when the key is missing |
| Records.DeleteIsWithout | starter/writer.py:52 | on a dictionary (distinct keys), deleting a key leaves exactly the entries with other names, in their original order |
| Flattening.Flatten | starter/writer.py:51-53 | the flattened cell is empty exactly when the orbit path has no attribute besides `neo_name`, and otherwise starts with `k:v` of the first remaining attribute; `FlattenRoundTrip` and `FlattenOmitsBackReference` state its full content |
| Flattening.FlattenRoundTrip | starter/writer.py:50-53 | the flattened cell reads back as the first orbit path's attributes minus `neo_name`, as `k:v` pairs in field order, if no name has a colon and no name or value has `", "` |
| Flattening.FlattenOmitsBackReference | starter/writer.py:51-53 | the flattened cell is the `", "`-join of `k:v` for every attribute not called `neo_name`, in order; read back, it has no `neo_name` entry |
| Table.HeaderCell | starter/writer.py:44 | a header cell is exactly 25 characters: the name's first min(len, 24) characters, then spaces |
| Table.HeaderLine | starter/writer.py:42-45 | the header line has one 25-wide column per field of the first record, in that record's field order |
| Table.HeaderRoundTrip | starter/writer.py:42-45 | reading the header back by columns gives each field name cut to 24 characters; names of at most 24 characters that do not end in a space come back exactly |
| Table.Cell | starter/writer.py:49-55 | a scalar's cell is its text whole, then spaces, max(25, len) long. A list's cell fails exactly when the list is empty (`EmptyNestedList`) or its first orbit path has no `neo_name` (`MissingBackReference`); otherwise it is that path's flattened text whole, then spaces, max(25, len) long |
| Table.RowLine | starter/writer.py:48-56 | a record line is its cells printed one after another: as long as their lengths together, and at least 25 characters per field |
| Table.RenderRow | starter/writer.py:48-56 | a record line's cells are the cells of its fields, in field order, up to the first field whose cell raises; the line is complete exactly when no cell raises |
| Table.RenderRecords | starter/writer.py:47-57 | one line per record, in input order, up to the first record that raises; that record's partial text and failing field are reported |
| Table.RenderDisplay | starter/writer.py:39-58 | output is `OK`, the header of the first record, then one line per record, and the call returns true: 2 + len(data) lines. Exactly when there is no record it raises after `OK`. Exactly when a cell cannot be built it raises after the earlier lines |
| TableProperties.RenderRowFirstOnly | starter/writer.py:50-51 | a record line depends only on each list's first orbit path (and on whether the list is empty) |
| TableProperties.DisplayFirstOnly | starter/writer.py:47-56 | changing or appending orbit paths after the first leaves the whole display output unchanged |
| TableProperties.RowLineShowsEveryCell | starter/writer.py:55 | every cell appears whole in its record line, right after the earlier cells; a scalar value is never cut |
| TableProperties.RowAlignsWithHeader | starter/writer.py:42-56 | when every scalar text and every flattened first orbit path of a record is at most 25 characters, and the record has as many fields as the header, its line has the header's length and field `j` sits in column `j` |
| TableProperties.PrintableIff | starter/writer.py:50-52 | a record prints without raising exactly when each of its lists is non-empty and its first orbit path has `neo_name` |
| TableProperties.DisplayableIff | starter/writer.py:42-52 | the display call returns true exactly when the collection is non-empty and every list of every record can be flattened |
| Formats.Members | starter/writer.py:5-10 | the enum has exactly the two members `display` and `csv_file` |
| Formats.List | starter/writer.py:12-17 | `OutputFormat.list()` is each member's value in declaration order: `["display", "csv_file"]` |
| Formats.Parse | starter/writer.py:39-60 | a format string selects a member exactly when it is in `list()`, and then the member whose value it equals |
| Formats.ParseValue | starter/writer.py:9-10 | each member is selected by its own value and by no other string |
| Writer.CsvBranch | starter/writer.py:60-62 | the CSV branch prints `Outputting to CSV`, raises when there is no record, and otherwise goes on to the file |
| Writer.Write | starter/writer.py:28-72 | `display` gives the table, `csv_file` gives the CSV branch, and any other string prints nothing and returns nothing. `ReturnedTrue` comes only from the display branch, on displayable data; the CSV branch's own `return True` (line 72) is reported as `HandedToCsvWriter` |
| TableProperties.DisplayLinesUnbroken | starter/writer.py:41-56 | when no field name, scalar value or orbit-path attribute holds a line break, no printed line and no pending text holds one, so each printed line is one physical line |
| Writer.DisplayLineCount | starter/writer.py:41-58 | on displayable data, `write("display", data)` returns true with `OK`, the header and one line per record, 2 + len(data) lines |

## Left out

- The CSV file (starter/writer.py:63-72) is not modelled. Writing it is
  file I/O through `csv.DictWriter`, whose quoting rules are not part of
  this model. The model keeps only the branch's status line and the
  `data[0]` fault, then reports `HandedToCsvWriter`. The flattening at
  lines 67-69 changes only a local list that is then discarded, so the CSV
  row holds no flattened cell.
- Printing to standard output is modelled as returned lines.
- Python's `__dict__` reflection is replaced by explicit ordered
  name/value sequences.
- Scalar values and sub-record attribute values are taken as already
  converted to strings. How `str` and `format` render numbers, floats and
  booleans is not modelled.
- `del` in the source (starter/writer.py:52) deletes `neo_name` from the
  caller's own orbit-path object. The model deletes from a copy. Two
  consequences are not modelled. A second `display` call on the same
  objects raises `KeyError`; the CSV branch runs no `del`. So does any
  orbit-path object that is the first element of two lists rendered in one
  call. That covers a record listed twice in `data`, and two list fields
  of one record whose first orbit paths are the same object.
- Keyword options such as `filename` are not modelled. The display
  branch never reads them.
- Lengths count Dafny characters. Python counts code points. The two agree
  except on text Dafny cannot hold as one character.
- Writer.Write: the CSV branch's later faults are not modelled. These are
  the ones raised by the file writer or by the discarded flattening. Its
  result is stated only up to `HandedToCsvWriter`. `ReturnedTrue` comes
  only from the display branch; the CSV branch's own `return True`
  (line 72) is reported as `HandedToCsvWriter`.
- A value or field name containing a line break prints on several
  physical lines. `lines` are the texts between `print` line endings.
  `TableProperties.DisplayLinesUnbroken` shows that without such breaks in
  the data each of them is one physical line.
