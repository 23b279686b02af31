# dbexport: the bulk-INSERT converter and its neighbours, in Dafny

dbexport exports the result of a database query to CSV and, on request, to a
file of one-row `INSERT INTO t (cols) VALUES (...);` statements. It can then
compact that file into multi-row "bulk" statements. This project models the
text-processing core of `main_dbexport.go` and proves properties of it:

- **GoStrings**: the Go `strings` functions the core relies on (`Index`,
  `LastIndex`, `Contains`, `HasPrefix`, `Trim`, `ToLower`, `ToUpper`,
  `ReplaceAll`), on strings where one character stands for one byte.
- **BulkInsert**: `convertInsertQuery_To_BulkInsertQuery` without its file
  handling.
  - `convertInsertIntoLine` and the terminator fixup (written out three times
    in the source) are each one function here.
  - The loop body is the pure function `Step` (its two halves are `Advance`
    and `Place`), folded over the input by `Run`. `Run` is `None` exactly when
    the source's header slice would panic.
  - `ConvertLine`, `ConvertLines` and `ConvertToBulk` are the loop as the
    source writes it, on its four variables `insertStatement`, `lineCount`,
    `bytesCount` and `bulklines`. Each is proved to compute the functional
    specification.
- **BatchBound**: what a batch looks like.
  - While a batch is open, the output ends with its header and the rewritten
    rows of that batch. There are never more than 1000 of them.
  - For an input that starts with a row, the first batch holds 999 rows,
    because the counter is bumped before the flush test.
  - An input that starts with a row and has fewer than 1000 short rows
    becomes exactly one statement.
  - A file whose rows all share one header, and whose every row rewrites to
    a tuple longer than three characters ending in `),`, becomes a sequence
    of whole statements. Each is the header and 1 to 1000 tuples, the last
    closed with `;`, and the statements hold every row's tuple once, in
    order. A row such as `INSERT INTO t VALUES();`, whose rewrite is `(),`,
    is outside this statement.
- **LineCount**: `countLinesInFile` and `verifyEachFileLines` over line
  sequences.
- **BulkPipeline**: row conservation. When every input line is a row line,
  the converted file has as many lines not starting with `INSERT INTO ` as
  the input has lines. A line without `INSERT INTO` is a row line. So is a
  line that starts with `INSERT INTO ` (with the space), has its first
  `VALUES` after that, and has no `INSERT INTO` directly after that `VALUES`
  (`BulkPipeline.HeaderLineIsRow`). In general (`BulkPipeline.RowLine`), a
  line containing `INSERT INTO` is a row line when its rewrite does not start
  with `INSERT INTO ` and, if it contains `VALUES`, its header can be sliced
  and starts with `INSERT INTO `. `saveBulkInsertQuery` reports Ok exactly
  when those two counts agree, so it reports Ok on such files. On other files
  it can report a failure. `INSERT INTOx VALUES (1);`, with the keyword glued
  to the next word, is not a row line: its header does not start with
  `INSERT INTO `, and the line is counted once in the original and twice in
  the converted file.
- **SqlExport**:
  - `getTableNameFromQuery`;
  - the one-row INSERT line builder of `saveToSQLFile`. When neither the
    table name nor the column header contains `VALUES`, its lines have the
    shape the converter expects: the header is `INSERT INTO t (cols) VALUES`
    and the tuple is the record's fields;
  - the conversion of a builder file of any size, end to end, under that
    same condition.
- **CommandLine**: `parseArgs`, returning a record instead of setting the
  process-wide flags. An unknown option (the source exits) and an empty
  argument (the source panics on `arg[0]`) are outcomes.

The source's integers are Go `int`s. The counters involved never come near
64-bit limits, so they are modelled as mathematical integers.

### Quirks of the code the model keeps

- **Batch sizes:** `lineCount` is incremented at the top of the loop
  (main_dbexport.go:453), before the flush test `lineCount%1000 == 0`
  (main_dbexport.go:461). In an input that starts with a row, that row
  already counts, so the first batch holds 999 rows, while the comment at
  main_dbexport.go:460 reads "Write query 1000 lines at a time". A flush
  resets the counter to 0 (main_dbexport.go:462), so the batches after it in
  the same table hold 1000 short rows. An input of 2500 short rows of one
  table becomes batches of 999, 1000 and 501 rows.
  `BatchBound.FirstBatchFull` proves that, in an input that starts with short
  rows, the 1000th row starts the second batch.
- **Counters outside a batch:** every line is counted, INSERT or not
  (main_dbexport.go:453, 457). A non-INSERT line that closes a batch resets
  `lineCount` (main_dbexport.go:510) but not `bytesCount`, which only a flush
  resets (main_dbexport.go:463). Non-INSERT lines with no batch open are
  counted and never reset. So one comment line before the first row makes the
  first batch 998 rows, and two non-INSERT lines between tables shorten the
  next table's first batch as well. The bytes of earlier tables carry over
  into a later table's first batch, which can then flush before 1000 short
  rows. `BulkInsert.PlainStep` and `BulkInsert.BoundaryStep` state these
  counter updates.
- **Header line:** the captured header is appended as a line of its own
  (main_dbexport.go:496). A one-row input therefore gives two lines, the
  header and the tuple ending in `;`. `SqlExport.SingleRow` proves this for
  builder lines of any length.
- **Original line count:** `verifyEachFileLines` counts the original file with
  an empty exclude string (main_dbexport.go:648), so every line counts, empty
  ones included (main_dbexport.go:633).
- **Over-long lines:** the scanner's line buffer is 102400 bytes
  (main_dbexport.go:66, 449-450). A longer line ends the scan without an
  error in the converter. The model has no line-length limit (see Left out).
- **Header capture:** a line whose first `INSERT INTO` starts exactly where
  its first `VALUES` ends yields an empty header (main_dbexport.go:491). No
  batch is then open. `BulkInsert.HeaderShape` covers this case.
- **`VALUES` inside names:** the header ends at the first `VALUES` of the line
  (main_dbexport.go:489-491). A builder line whose table name or column header
  contains `VALUES`, such as a column `OLD_VALUES`, is cut inside its column
  list. The header is then `INSERT INTO t (OLD_VALUES` and the tuple starts
  with `) VALUES (`. A table name taken from a query is lower case and never
  contains `VALUES` or `INSERT INTO` (`SqlExport.TableNameIsNotKeyword`). A
  column header can contain either. The line-count property still holds for
  such a column: `SqlExport.BuilderLineIsRow` and
  `SqlExport.BuilderFileVerifies` only need the names free of `INSERT INTO`.
  The lemmas that describe the output statement by statement exclude `VALUES`
  in names.

## Model

| member | source | states |
|---|---|---|
| GoStrings.Index | main_dbexport.go:486-489 | `strings.Index`: the first position where the pattern occurs, or -1 exactly when it occurs nowhere |
| GoStrings.ContainsOccurs | main_dbexport.go:486-490 | `Contains`, which stands for the source's `strings.Index(...) >= 0` tests, holds exactly when the pattern occurs at some position |
| GoStrings.HasPrefixIndex | main_dbexport.go:633 | `strings.HasPrefix` holds exactly when the first occurrence of the prefix is at 0 |
| GoStrings.LastIndex | main_dbexport.go:605 | `strings.LastIndex`: the last position where the pattern occurs, or -1 exactly when it occurs nowhere |
| GoStrings.Trim | main_dbexport.go:200 | `strings.Trim` removes exactly the maximal leading and trailing runs of cutset characters; the result neither starts nor ends with one |
| GoStrings.ToLower | main_dbexport.go:197 | same length, and each character is `LowerChar` of the one at its position: `A` to `Z` become the matching letter of `a` to `z`, every other character is unchanged; no upper-case letter is left |
| GoStrings.ToUpper | main_dbexport.go:372 | same length, and each character is `UpperChar` of the one at its position: `a` to `z` become the matching letter of `A` to `Z`, every other character is unchanged; no lower-case letter is left |
| GoStrings.ReplaceAll | main_dbexport.go:371 | a string without the pattern is returned unchanged |
| GoStrings.EscapedQuotes | main_dbexport.go:370-371 | after `'` is replaced by `\'`, every quote in the field is preceded by a backslash |
| GoStrings.ReplaceQuotes | main_dbexport.go:370-371 | replacing every `'` by `\'` equals `EscapeEach`, the per-character definition: each quote becomes backslash and quote, every other character is kept, in order |
| BulkInsert.ConvertInsertIntoLine | main_dbexport.go:595-613 | "" unless both keywords occur; otherwise the text after the first `VALUES`, cut just after the `)` of its last `);` with `,` appended, or unchanged when it has no `);` |
| BulkInsert.FixTerminator | main_dbexport.go:466-477 | length kept; the last character becomes `;` exactly when the line is longer than 3 and ends in `),` or in `),` plus one character; otherwise the line is unchanged |
| BulkInsert.EndFixup | main_dbexport.go:539-566 | the end-of-stream fixup keeps the length and every character but the last |
| BulkInsert.FixLast | main_dbexport.go:466-476 | fixing up the buffer's last line keeps the buffer's length and all earlier lines (`BulkInsert.FixedLast` states the new last line) |
| BulkInsert.FixedLast | main_dbexport.go:466-476 | the buffer's new last line is the old last line given the terminator fixup |
| BulkInsert.Advance | main_dbexport.go:453-483 | the flush half keeps the header and adds one buffer line exactly when it flushes |
| BulkInsert.Place | main_dbexport.go:485-536 | the placing half adds at least one line, or keeps the buffer length when it removes a header flushed for this line (`BulkInsert.PlacedLast` states the new last line) |
| BulkInsert.PlacedLast | main_dbexport.go:485-536 | the buffer's new last line is the line rewritten when it contains `INSERT INTO`, and the line itself otherwise |
| BulkInsert.Step | main_dbexport.go:452-537 | each input line grows the buffer by at least one line, and an open batch always has a line to fix up |
| BulkInsert.Run | main_dbexport.go:452-537 | a run that does not panic has at least one output line per input line |
| BulkInsert.HeaderShape | main_dbexport.go:489-491 | the header `HeaderOf` slices from a line (its first `INSERT INTO` to the end of its first `VALUES`) is empty or starts with `INSERT INTO` and ends with `VALUES` |
| BulkInsert.HeaderUnchanged | main_dbexport.go:466-477 | the terminator fixup never changes a captured header |
| BulkInsert.RunHeaderShaped | main_dbexport.go:486-497 | every header the loop holds has that shape |
| BulkInsert.PlainStep | main_dbexport.go:503-536 | with no batch open, a non-INSERT line is counted and appended verbatim, nothing else changes |
| BulkInsert.HeaderCapture | main_dbexport.go:486-502 | with no batch open, a line with both keywords opens a batch under its header, which is emitted once, directly before its tuple |
| BulkInsert.NoValuesStep | main_dbexport.go:486-502 | an INSERT line without `VALUES` opens nothing and contributes an empty line |
| BulkInsert.RowStep | main_dbexport.go:486-502 | below the limits, a row of the open batch is appended as its tuple and counted |
| BulkInsert.FlushStep | main_dbexport.go:461-483 | when `Flushes` holds (a batch is open and the counter reaches a multiple of 1000 or the byte count reaches 3900000), the previous last line is fixed up, both counters restart at 0 and the same header is emitted again before the tuple |
| BulkInsert.BoundaryStep | main_dbexport.go:503-533 | a non-INSERT line closes the batch: the last line is fixed up and the line is appended verbatim; a header flushed for this line is removed again; `lineCount` is reset, `bytesCount` only if a flush happened |
| BulkInsert.BulkConvert | main_dbexport.go:539-566 | at least one output line per input line |
| BulkInsert.FinishLines | main_dbexport.go:539-566 | the end-of-stream fixup of the buffer keeps its length and every line but the last |
| BulkInsert.ConvertLine | main_dbexport.go:453-536 | one loop iteration on the four loop variables computes `Step` |
| BulkInsert.CountAndFlush | main_dbexport.go:453-483 | the counting and flushing half of an iteration, on the loop variables, computes `Advance` |
| BulkInsert.PlaceLine | main_dbexport.go:485-536 | the header capture and line placing half computes `Place` |
| BulkInsert.ConvertLines | main_dbexport.go:452-537 | the loop's variables after all lines are `Run`'s |
| BulkInsert.FinishBuffer | main_dbexport.go:539-566 | the end-of-stream code on the buffer computes `FinishLines` |
| BulkInsert.ConvertToBulk | main_dbexport.go:432-566 | the converter's output is `BulkConvert` of its input |
| BatchBound.RunOpenBatch | main_dbexport.go:453-536 | after every prefix, an open batch's header stands `k` lines before the end of the buffer, followed by the rewritten last `k` input lines, with `k` at most `lineCount % 1000 + 1` |
| BatchBound.StepOpenBatch | main_dbexport.go:452-537 | each step keeps that invariant |
| BatchBound.BatchLimit | main_dbexport.go:460-461 | an open batch holds between 1 and 1000 rows |
| BatchBound.FirstBatchRows | main_dbexport.go:453-502 | for fewer than 1000 short rows from the start, the first line's header is open, `lineCount` equals the rows read, the open batch holds all of them and the buffer is that many lines plus the header |
| BatchBound.FirstBatchFull | main_dbexport.go:453-483 | in an input of short rows from the start, the first batch holds 999 rows: `Flushes` holds at the 1000th row, which starts a new one-row batch |
| BatchBound.SmallRun | main_dbexport.go:452-566 | an input of fewer than 1000 short rows from the start becomes the first line's header followed by every line rewritten, the last one given the end fixup |
| BatchBound.UniformRun | main_dbexport.go:452-537 | on rows that share one header and each rewrite to a tuple longer than three characters ending in `),`, after every prefix the buffer is the closed statements followed by the header and the open batch; each closed batch holds 1 to 1000 tuples, the open one at most `lineCount % 1000 + 1`, and all the tuples in order are the rows rewritten |
| BatchBound.UniformOutput | main_dbexport.go:452-566 | rows that share one header and each rewrite to a tuple longer than three characters ending in `),` (so not `INSERT INTO t VALUES();`, whose rewrite is `(),`) convert to whole statements: the header, then 1 to 1000 tuples, every tuple but the last as rewritten and the last closed with `;`, including the batches closed by a flush; in order the statements hold every row rewritten, once |
| LineCount.CountLines | main_dbexport.go:629-637 | no more lines than given; all of them when the exclude string is empty, and all of them exactly when none starts with it |
| LineCount.ExcludedIndex | main_dbexport.go:633 | a line is left out exactly when the exclude string is not empty and occurs at position 0 of the line |
| LineCount.CountLinesInFile | main_dbexport.go:615-645 | the counting loop computes `CountLines` |
| LineCount.VerifyEachFileLines | main_dbexport.go:647-665 | reports Ok exactly when the original's line count equals the converted file's count of lines not starting with `INSERT INTO ` |
| BulkPipeline.FixTerminatorPrefix | main_dbexport.go:466-477 | the fixup keeps whether a line starts with `INSERT INTO `, both ways |
| BulkPipeline.EndFixupPrefix | main_dbexport.go:539-566 | so does the end-of-stream fixup |
| BulkPipeline.EndFixupCount | main_dbexport.go:539-566 | the end-of-stream fixup keeps the count of lines not starting with `INSERT INTO ` |
| BulkPipeline.StepConserves | main_dbexport.go:452-537 | on a row line a step does not panic and raises the buffer's count of lines not starting with `INSERT INTO ` by exactly one, the open header still starting with it |
| BulkPipeline.RunConserves | main_dbexport.go:452-537 | on row lines the run never panics and the buffer holds exactly one non-header line per input line |
| BulkPipeline.RowConservation | main_dbexport.go:647-665 | on row lines the converted file has as many lines not starting with `INSERT INTO ` as the input has lines |
| BulkPipeline.SaveBulkInsertQuery | main_dbexport.go:421-430 | on any input the converter does not panic on, returns `BulkConvert` of it and reports Ok exactly when the input's line count equals the output's count of lines not starting with `INSERT INTO `; on row lines it always reports Ok |
| BulkPipeline.GluedKeywordMismatch | main_dbexport.go:647-665 | a one-line file whose `INSERT INTO` is glued to the next word, such as `INSERT INTOx VALUES (1);`, converts without panic, and its output has two lines not starting with `INSERT INTO ` against one line in the original, so the verification reports a failure |
| BulkPipeline.ConvertNotHeader | main_dbexport.go:596-610 | a rewritten line starts with `INSERT INTO ` only if `INSERT INTO` starts right after the line's first `VALUES` |
| BulkPipeline.HeaderStartsPrefix | main_dbexport.go:486-491 | the header of a line that starts with `INSERT INTO ` and has its first `VALUES` after that is sliceable and starts with `INSERT INTO ` |
| BulkPipeline.HeaderLineIsRow | main_dbexport.go:486-491 | such a line with no `INSERT INTO` right after its first `VALUES` is a row line |
| SqlExport.AfterFrom | main_dbexport.go:197-200 | the trimmed text after `from` in the lower-cased query has no upper-case letter |
| SqlExport.FirstWord | main_dbexport.go:201-211 | a space-free prefix ended by the first space or, when there is no space, by the first `;`; "" when neither occurs |
| SqlExport.TableNameFromQuery | main_dbexport.go:195-214 | lower case and space-free; "" without `from`; otherwise the first word after `from` |
| SqlExport.TableNameIsNotKeyword | main_dbexport.go:195-214 | a table name never contains `VALUES` or `INSERT INTO` |
| SqlExport.SelectAllFrom | main_dbexport.go:195-214 | `select * from t;` gives back `t` for any lower-case `t` without spaces or `;` |
| SqlExport.UsageExample | main_dbexport.go:37 | the usage line's query `select * from tbl_test;` names `tbl_test` |
| SqlExport.EscapeNullWord | main_dbexport.go:371-372 | the escaped field spells NULL or (NULL) exactly when the field does, and is then the field itself |
| SqlExport.FieldLiteral | main_dbexport.go:366-380 | a trimmed field spelling NULL or (NULL) in any case is bare `NULL`; any other is single-quoted around its escaped text, with every quote escaped |
| SqlExport.LinePrefixFields | main_dbexport.go:363-379 | the query string after `n` fields is the opening followed by the first `n` field literals joined by `,` |
| SqlExport.OpeningValues | main_dbexport.go:363 | the first `VALUES` of a builder line is the opening's own, at a fixed position |
| SqlExport.InsertLineParts | main_dbexport.go:363-381 | a builder line is the opening, the fields and `);` |
| SqlExport.OpeningHeader | main_dbexport.go:489-491 | the header `HeaderOf` takes from a builder line is `INSERT INTO t (cols) VALUES`, and the slice cannot panic |
| SqlExport.OpeningTuple | main_dbexport.go:599-608 | the converter's tuple for a builder line is ` (fields),`, leading space kept |
| SqlExport.BuilderLineShape | main_dbexport.go:362-381 | both facts for the line built from a record |
| SqlExport.OpeningAfterValues | main_dbexport.go:363 | a line that starts with the opening, with no `INSERT INTO` in the table name or column list, starts with `INSERT INTO `, has its first `VALUES` after that and no `INSERT INTO` right after it, and is a row line, whatever `VALUES` the names contain |
| SqlExport.BuilderLineIsRow | main_dbexport.go:362-384 | every builder line whose table name and column header do not contain `INSERT INTO` is a row line |
| SqlExport.BuildInsertLine | main_dbexport.go:363-381 | the `+=` loop over one record builds `InsertLine` |
| SqlExport.InsertLinesAt | main_dbexport.go:362-384 | line `d` of the builder's file is the INSERT line of record `d` |
| SqlExport.BuildInsertLines | main_dbexport.go:362-384 | the loop over the records builds `InsertLines`: one line per record, in order |
| SqlExport.BuilderFileVerifies | main_dbexport.go:362-384 | the builder's file for a table named by a query, under any column header without `INSERT INTO`, converts without panic and has one non-header line per record |
| SqlExport.RowEnd | main_dbexport.go:539-566 | the last tuple of a file ends in `;` after the end fixup, whichever branch applies |
| SqlExport.SmallExport | main_dbexport.go:362-384 | an export of fewer than 1000 records with short lines becomes the header, each tuple ending in `,`, and the last ending in `;` |
| SqlExport.SingleRow | main_dbexport.go:362-384 | a one-record export gives exactly two lines, the header and the tuple ending in `;`, however long the line |
| SqlExport.BuilderUniform | main_dbexport.go:362-384 | every builder line of a file opens or joins a batch under the file's header, and the rewritten lines are the records' tuples |
| SqlExport.BuilderBatches | main_dbexport.go:362-384 | an export of any size converts to whole statements under the file's header, each with 1 to 1000 tuples ending in `,` but the last ending in `;`, the statements together holding every record's tuple once, in order |
| CommandLine.Positionals | main_dbexport.go:141-152 | the positional arguments, in order, each non-empty and not starting with `-` |
| CommandLine.OptionsPush | main_dbexport.go:124-153 | one more argument sets its flag or fills the next of the four slots |
| CommandLine.ParseArg | main_dbexport.go:124-153 | one iteration stops exactly on an empty argument or an unknown option, and otherwise applies the argument |
| CommandLine.ParseArgs | main_dbexport.go:119-157 | parses exactly when no argument after the program name stops it, and then every flag is set iff it occurs and the slots hold the first four positional arguments; otherwise the first stopping argument decides, an empty one as the panic, any other as the invalid option |
| CommandLine.UsageLine | main_dbexport.go:40 | the usage example `-sql -bulk SERVER1 defaultdb "select * from tbl_test;" outfilename` sets both output flags and all four slots |

## Left out

- Database connection, querying and value scanning (main_dbexport.go:189-193, 216-297): foreign calls into the driver.
- YAML configuration loading, `printUsage`, `pause`, `printError` and all coloured or verbose printing: I/O and user interface.
- File opening, creation and writing, and the `bufio.Scanner` with its 102400-byte line buffer: file contents are sequences of lines. The scanner's silent stop on an over-long line is not modelled.
- CSV writing (`saveToCSVFile`) and CSV reading with `encoding/csv` in `saveToSQLFile`: a library parser. The builder takes records already split into fields.
- `main`'s checks and dispatch, and `doQueryAndPrintResult`: they only sequence the calls to the database and the modelled functions.
- `log.Fatal`, `os.Exit` and the remaining panic at main_dbexport.go:541 (an empty input): `ConvertToBulk` requires a non-empty input. The panic at main_dbexport.go:491 is modelled (`Run` is `None`).
- `isReplaceOrgFile` and `isSilent`: they only choose the output path and the printing.
- GoStrings.ToLower: ASCII letters only, because Go's Unicode case mapping of multi-byte characters is not modelled.
- GoStrings.ToUpper: ASCII letters only, for the same reason. A field whose non-ASCII letters upper-case to NULL is not recognised.
- GoStrings.ReplaceAll: its own contract states only the no-occurrence case. For the replacement the builder performs, `GoStrings.ReplaceQuotes` proves it equal to a per-character definition.
- BulkInsert.EndFixup: its contract does not say what becomes of the last character, because that depends on the branch. `SqlExport.RowEnd` states the result for a tuple line.
- BatchBound.SmallRun: it requires every line to be shorter than 3900 bytes, so that the byte limit is never reached in the first batch. Files with longer lines or more rows are covered by `BatchBound.UniformOutput`.
- SqlExport.BuilderBatches: like the other lemmas that describe the output statement by statement, it requires that neither the table name nor the column header contains `VALUES`. With such a name the header is cut inside the column list (see the quirks above), and the model does not describe the output then.
