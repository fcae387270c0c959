# Timesheet block parser, date filter and upload gate

This project models the logic of `app.py`, a small Flask service. It takes an
uploaded timesheet workbook and turns its loosely structured rows into a
table of activity records. Then it lets the user export the records that fall
in a date range.

- **Block parser (`BlockParser`, `BlockParserProps`).** The parser makes one
  pass over the sheet's rows.
  - A row whose first cell contains a letter, a dash and a digit (such as
    `EC-1 Foo`) is a *marker*. It opens a new block of data rows.
  - The first whitespace token of a marker is its *key*. A per-upload registry
    maps each key to the marker text seen with it first. That text labels
    every data row of the block.
  - While a block is open, these rules apply:
    - `Started By` rows are ignored.
    - A row containing `Total` flushes the pending block. The parser stays
      in the block, so later non-marker rows are still data rows under the
      same label.
    - Any other row with a first cell is a data row. It contributes its start
      date (column 2), its duration (column 6) and the duration in decimal
      hours.
  - At the end, the blocks are concatenated in order. Rows with any missing
    column are dropped (`dropna`).
  - `BlockParser.ParseRows` is the loop itself, with the five state variables
    of the source.
    - It is proved equal to `BlockParser.Parse`, a specification defined over
      prefixes of the rows.
    - `BlockParserProps` proves what the parser promises about `Parse`.
- **Duration conversion (`Durations`).** A duration in whole seconds becomes
  hundredths of an hour, rounded half to even on the exact quotient
  `seconds/36`. Python's floating-point `round` can differ at exact halves
  (see Left out).
- **Record table (`Records`).** Defines the entries, the records after
  `dropna`, and the concatenation of blocks.
- **Date filter (`DateFilter`).** The `/filter` handler checks its form
  fields, parses the two boundaries, and keeps the rows whose start date is in
  the inclusive range, in order. An empty selection is reported instead of
  exported.
- **Upload gate (`Upload`).** `allowed_file`: the name must have a dot, and the
  text after the last dot, in lower case, must be `xlsx` or `xls`.
- **Shared helpers.** `Text` has the string scans (the marker pattern,
  substring search, first token, last index, lower case). `Results` has the
  `Option`/`Result` values.

### How the source's values are represented

- **Rows (`BlockParser.Row`).**
  - A row keeps only the three cells the loop reads.
  - Cell 0 is empty (null), text, or another value shown by its string
    rendering.
  - Columns 2 and 6 are `Missing` when the sheet has no such column (the
    `KeyError` of app.py:117). Otherwise they are `Present`.
  - A present start date may be null.
  - A present duration is blank, a decoded number of seconds, or `Malformed`.
    `Malformed` is text that `pd.to_timedelta` would reject.
- **Dates** are instants (date-times) on a totally ordered time line, written
  as integers.
- **Errors.** Both the exceptions the code does not catch and `pd.concat([])`
  become a `ParseError` result:
  - `NonTextMarker`: `split` called on a non-text marker cell.
  - `MalformedDuration`: a duration `pd.to_timedelta` rejects.
  - `NoBlocks`: `pd.concat([])`.
- **Where the code's apparent intent and what it does differ, the model
  follows the code.**
  - Only `KeyError` is caught, so a malformed duration aborts the whole parse.
    It does not skip the row.
  - A `Total` row flushes its block even when the block is empty. So a file
    whose only block ends in `Total` without data rows yields an empty table,
    not `NoBlocks` (`BlockParserProps.EmptyBlockWithTotal`). It also means the number of blocks
    flushed is not the number of non-empty blocks.
  - No error is raised when every row is dropped by `dropna`. The result is
    then an empty table.

## Model

| member | source | states |
|---|---|---|
| BlockParser.ParseRows | app.py:76-127 | The loop over the rows returns exactly `Parse(rows)`. Its invariants say: no row read so far has raised; the collecting flag, the registry and the current label are those of the prefix read; nothing is pending while not collecting; the flushed blocks followed by the pending block are all entries so far in row order; and a block has been flushed iff a `Total` row was read or some entry has already been flushed. |
| BlockParser.Classify | app.py:89-111 | The rule order. A null first cell is skipped. A marker is recognised before the `Started By` and `Total` tests, whatever else the text contains. Outside a block, every non-marker is skipped. A data row is one inside a block with a first cell that is neither `Started By` nor contains `Total`. |
| BlockParser.FaultPersists | app.py:112-119 | Once a row raises, later rows cannot change the outcome: the first error is final. |
| BlockParser.FaultAt | app.py:91-119 | If row `i` is the first to raise (a non-text marker, or a duration `pd.to_timedelta` rejects), the parse fails with that error. |
| BlockParserProps.CollectingIff | app.py:80-101 | The parser is collecting exactly when some marker row has been read. |
| BlockParserProps.RegistryKeeps | app.py:93-94 | A registered key keeps its label for the rest of the file. |
| BlockParserProps.RegistryAbsent | app.py:85-94 | A key that no marker carries is never registered. |
| BlockParserProps.RegistryFirstSeen | app.py:92-94 | First seen wins: the label of a key is the full text of the first marker with that key. |
| BlockParserProps.SameKeySameActivity | app.py:92-94 | Two markers with the same first token give the same current label, that of the earlier one, even when their texts differ. |
| BlockParserProps.ActivityOfLatestMarker | app.py:92-116 | After any prefix with a marker, the current label is the text of the first marker that shares a key with the most recent marker. |
| BlockParserProps.EntryActivity | app.py:93-116 | Every entry is labelled with the resolved label of the most recent marker before its row. |
| BlockParserProps.Invisible | app.py:90-119 | A non-marker row that contributes no entry leaves the collecting flag, registry, label and entries unchanged for every continuation. It also leaves unchanged the first error, if it raises none, and the `Total` flag, if it is not a `Total` row. |
| BlockParserProps.IgnoredRow | app.py:90-119 | Removing a row changes nothing in the parse result when the row is one of: a null first cell; a non-marker row before any block; a `Started By` row; a data row with a missing column. |
| BlockParserProps.TotalRowAddsNothing | app.py:106-109 | A `Total` row adds no entry to the output, wherever it stands. |
| BlockParserProps.EntriesGrow | app.py:96-126 | Nothing is lost or reordered: the entries of every prefix are a prefix of the entries of the whole file. |
| BlockParserProps.NoMarkerNoState | app.py:79-111 | Before any marker row, the parser is not collecting, has no entries, has flushed nothing and has raised nothing. |
| BlockParserProps.NoMarkerNoBlocks | app.py:121-126 | A sheet without any marker row ends in `NoBlocks`, since `pd.concat` receives no block and raises. |
| BlockParserProps.EntriesDecimal | app.py:113-116 | Every entry's Decimal column is present exactly when its Duration is, and then equals the duration in hundredths of an hour. |
| BlockParserProps.ParsedDecimal | app.py:115-127 | Every record of a successful parse has a Decimal value equal to its duration divided by 3600, rounded half to even to two places. |
| BlockParserProps.MarkerThenData | app.py:91-116 | A marker followed by a data row opens a block whose single entry carries the marker's text, the row's date and duration, and its decimal hours. |
| BlockParserProps.SingleBlock | app.py:89-127 | One marker and one data row give one record, with the same output when a `Total` row follows. The final block is flushed at end of input. |
| BlockParserProps.OneBlockExample | app.py:89-127 | `EC-1 Foo`, a 04:00:00 row dated 2024-01-05, and `Total` give one record labelled `EC-1 Foo` with 4.00 hours. |
| Durations.Hundredths | app.py:115-116 | The result is the number of hundredths of an hour nearest to `seconds/36`, ties going to the even value. |
| Durations.RoundingIsUnique | app.py:116 | That rounding has exactly one answer, so `Hundredths` is the rounding. |
| Durations.HundredthsExamples | app.py:115-116 | 08:30:00 gives 8.50, 00:15:00 gives 0.25, 04:00:00 gives 4.00, and 18 s and 54 s round to even (0.00 and 0.02). |
| Records.DropMissing | app.py:127 | `dropna` keeps exactly the complete entries, as records; no output row has a missing field. |
| Records.DropMissingAppend | app.py:127 | `dropna` keeps the survivors in their relative order: it distributes over concatenation. |
| Records.DropMissingSingle | app.py:127 | A single entry survives exactly when all its columns are present. |
| BlockParser.IsMarker | app.py:90-91 | A row is a marker exactly when its first cell is not null and its text has an ASCII letter, `-`, an ASCII digit at some position. |
| BlockParser.Parse | app.py:76-127 | The outcome of the whole upload parse: the first uncaught error, else `NoBlocks` when no block was flushed, else the complete entries in order. `ParseRows` is proved to compute it; `SingleBlock`, `NoMarkerNoBlocks`, `EmptyBlockWithTotal` and `IgnoredRow` characterise it. |
| BlockParser.Entries | app.py:111-119 | All entries the data rows add to `block_data`, in file order. `Step` gives its one-row extension, `EntriesGrow` its prefix order, `EntryActivity` and `EntriesDecimal` the columns of every entry. |
| BlockParser.RowEntry | app.py:111-119 | The entry one row adds: one for a data row whose columns 2 and 6 exist and whose duration decodes, none otherwise. `IgnoredRow` and `TotalRowAddsNothing` rely on it. |
| BlockParser.Registry | app.py:92-94 | `activity_dict` after a prefix of the rows. `RegistryKeeps`, `RegistryAbsent` and `RegistryFirstSeen` characterise it as first-seen-wins over marker keys. |
| BlockParser.Activity | app.py:93 | `current_activity` after a prefix of the rows. `ActivityOfLatestMarker` identifies it as the first-seen label of the latest marker's key. |
| BlockParser.Collecting | app.py:80-101 | `is_collecting` after a prefix of the rows. `CollectingIff` shows it holds exactly once some marker was read. |
| BlockParser.HasTotal | app.py:106-109 | Whether a `Total` row was read while collecting. `HasTotalIff` characterises it by row index. |
| BlockParser.Fault | app.py:91-119 | The first uncaught exception of the parse. `FaultPersists` and `FaultAt` show that the first raising row decides it. |
| BlockParser.RowFault | app.py:91-119 | The exception one row raises: `NonTextMarker` at `.split()` on a non-text marker, `MalformedDuration` at `pd.to_timedelta`. `FaultAt` relies on it. |
| BlockParserProps.HasTotalIff | app.py:106-109 | A `Total` row has been seen exactly when some row is classified as `Total`, given the collecting flag of the rows before it. |
| BlockParserProps.EmptyBlockWithTotal | app.py:106-108 | A `Total` row flushes even an empty block: a marker followed only by `Total` gives an empty table, not `NoBlocks`. |
| Records.Flatten | app.py:126 | `pd.concat` of the flushed blocks, in block order. `FlattenPush` and `FlattenMembers` characterise it. |
| Records.FlattenMembers | app.py:126 | The concatenation loses and invents nothing: an entry is in it exactly when it is in some block. |
| Records.FlattenPush | app.py:121-126 | Appending a block to the list appends its entries to the concatenation. |
| Text.HasActivityCode | app.py:87-91 | True exactly when some position holds an ASCII letter, then `-`, then an ASCII digit. |
| Text.Contains | app.py:106 | True exactly when the text occurs at some position. |
| Text.FirstToken | app.py:92 | The result is the first whitespace-separated token of the text: separators before it, none inside it, a separator or the end after it. |
| Text.LastIndexOf | app.py:29 | The index of the last occurrence of a character, or -1 when it does not occur. |
| Text.Lower | app.py:29 | Lower-cases each ASCII letter and keeps the length. |
| DateFilter.Select | app.py:175 | A row is selected exactly when it is in the table and its start date is within the range, both ends inclusive. |
| DateFilter.SelectAppend | app.py:175 | Selection keeps table order: it distributes over concatenation. |
| DateFilter.SelectSingle | app.py:175 | A single row is kept exactly when its date is in range. |
| DateFilter.SelectNone | app.py:175-177 | A table with no row in range selects nothing. |
| DateFilter.FilterByDateRange | app.py:153-179 | A blank field is refused with `MissingField` before anything else. With no blank field, an unparsable boundary gives exactly `InvalidDate`. With both parsed, an empty selection gives exactly `EmptyFilterResult`. Success means both boundaries parsed and a non-empty selection, and what is exported is exactly that selection. |
| DateFilter.ReversedRangeIsEmpty | app.py:175-179 | A range whose start is after its end is reported empty for every table. |
| DateFilter.InRangeRowIsExported | app.py:175-179 | A table row dated in the range makes the filter succeed and is among the exported rows, and every exported row is in the range. |
| DateFilter.FilterExample | app.py:175-179 | A row dated 2024-01-05 is kept by the range 2024-01-01 to 2024-01-10. A range starting 2024-02-01 is reported empty. |
| Upload.AllowedFile | app.py:24-29 | True exactly when the name has a dot and the text after its last dot, in lower case, is `xlsx` or `xls`. |
| Upload.NoDotRefused | app.py:28 | A name without a dot is refused. |
| Upload.ExtensionDecides | app.py:28-29 | For a name `stem.ext` with no dot in `ext`, only `ext` decides, regardless of case: the stem is irrelevant. |
| Upload.AcceptedExamples | app.py:27-29 | `report.XLSX` and `old.data.xls` are accepted. |
| Upload.RefusedExamples | app.py:27-29 | `report.xlsx.csv` and `xlsx` are refused. |

## Left out

- Flask routes, templates, flash messages, redirects and response streaming: HTTP glue with no logic of its own.
- S3 storage and file I/O: the workbook read, the processed CSV written and read back, and the Excel export. As a result, the model's record table is the parser's output itself, with no CSV round trip. The unique-id field and the failures of these reads and writes are not modelled either.
- `pd.to_timedelta` and `pd.to_datetime` text parsing are foreign parsers. Their results appear as decoded values: a duration cell is blank, a number of seconds, or malformed. A range boundary is blank, unparsable, or a date.
- Durations are whole seconds; sub-second parts are not modelled.
- How `pd.to_datetime` and `read_csv` turn text into instants is not modelled. Both the table's start dates and the range boundaries are taken as already-parsed instants and compared exactly, so a midnight boundary and a later time on the same day compare as in the program.
- The start-date column is taken as dates or nulls. A start cell holding other values is not modelled.
- Durations.Hundredths, Durations.HundredthsExamples: rounds the exact quotient `seconds/36` half to even. Python rounds the binary floating-point value of `seconds/3600`, which can differ at exact halves (18 s is 0.005 h, which Python's `round` gives as 0.01 because the float lies slightly above the half). That happens at 18 s plus a multiple of 36 s. The tie cases of `HundredthsExamples` (18 s gives 0.00, 54 s gives 0.02) are the model's values; Python gives 0.01 for both.
- Text.HasActivityCode, Text.FirstToken, Text.Lower: only ASCII letters, digits and whitespace are recognised. Python's `\d`, `str.split()` and `str.lower()` also accept other Unicode digits, spaces and cased letters.
- Text.FirstToken: a text consisting only of whitespace yields an empty token, where `split()[0]` would raise. A marker text always contains a letter, so on the paths the parser takes this never happens.
- The parser's progress `print` calls: console logging only.
