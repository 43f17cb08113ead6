# sqlgen in Dafny

A model of `sqlgen/sqlgen.py`, the converter that turns the rows of a CSV
file or a data frame into batched SQL `INSERT` statements and cuts the
resulting text into size-capped `.sql` files. The model covers:

- `escape`: one cell becomes a SQL literal.
- `data_to_sql_lines`: rows become `INSERT` headers plus one value line per row, batch by batch.
- `split_sql_files`: lines are grouped greedily into files `<base>_<k>.sql`.
- `guess_table_name`: the table name comes from a path or is a fixed name.
- `decode_csv` and `decode_df` after their library calls.
- The dispatch and table-name fallback of `to_sql`.

Modules, one per file:

| module | file | what it holds |
|---|---|---|
| `Common` | common.dfy | `Option`, `Result`, the error kinds the model covers (each a Python exception raised in sqlgen.py), `Flatten` |
| `PyStr` | pystr.dfy | `str.strip`, ASCII `str.lower`, `str.endswith`, `str.join`, `int`/`str` on decimal text, UTF-8 length |
| `PyPath` | pypath.dfy | `os.path.basename`, `os.path.splitext`, `os.path.join` (POSIX) |
| `Escaping` | escaping.dfy | `escape` |
| `Batcher` | batcher.dfy | `data_to_sql_lines`, as a method with its two loops, and the functions that specify it |
| `Splitter` | splitter.dfy | `split_sql_files`, as a method with its loop, and the greedy-grouping specification |
| `Decode` | decode.dfy | `decode_csv` / `decode_df` on already parsed, already stringified input |
| `SqlGen` | sqlgen.dfy | `guess_table_name`, table-name resolution, decoder dispatch, `to_sql` |

Two imperative functions become methods with loops:

- `Batcher.DataToSqlLines` is proved equal to the function `InsertLines`. The inner loop over a batch's rows is the method `Batcher.AppendBatchRows`.
- `Splitter.SplitSqlFiles` is proved to return a grouping that satisfies `IsSplit`. `IsSplit` says the grouping is greedy, ordered and numbered.

Properties of both are proved as lemmas about those specifications.

The three float-based steps of `escape` are abstract. These are `float(val)` succeeding, `str(int(float(val)))` and `str(float(val))`. They are the fields of a `FloatSyntax` value passed in by the caller. Reading the CSV file is a function parameter `readCsv` from a path to the rows `csv.reader` yields.

When `decode_csv` is given a column-name override, the code returns every parsed row as data, the file's first row included (sqlgen/sqlgen.py:68). The model follows the code: see `Decode.DecodeCsv` and `Decode.CsvOwnHeaderOverride`.

## Model

| member | source | states |
|---|---|---|
| `PyStr.DecimalTextRoundTrip` | sqlgen/sqlgen.py:29-30 | `str(n)` is canonical decimal text (no `+`, no leading zero, no `-0`) and `int` reads it back as `n` |
| `PyStr.CanonicalIntFixed` | sqlgen/sqlgen.py:29-30 | canonical decimal text is a fixed point of `str(int(s))` |
| `PyStr.Utf8LengthAppend` | sqlgen/sqlgen.py:99 | the UTF-8 length of a concatenation is the sum of the lengths |
| `PyStr.JoinAppend` | sqlgen/sqlgen.py:103 | `sep.join(a + b)` is `sep.join(a) + sep + sep.join(b)` for non-empty `a`, `b` |
| `PyPath.RFind` | sqlgen/sqlgen.py:85 | the result is -1 or an index holding the character, with no occurrence after it |
| `PyPath.BasenameSplit` | sqlgen/sqlgen.py:85 | the basename is the suffix of the path after its last "/", and holds no "/" |
| `PyPath.SplitextParts` | sqlgen/sqlgen.py:85 | `root + ext` is the path; `ext` is empty or "." followed by no "." or "/"; a non-empty `ext` leaves a non-dot character in the root's last component |
| `PyPath.SplitextRootPrefix` | sqlgen/sqlgen.py:85 | the root is a prefix of the path |
| `PyPath.SplitextKnownExt` | sqlgen/sqlgen.py:85 | a separator-free name ending in "." + (no dots), with a non-dot before it, splits into the rest of the name and that extension |
| `Escaping.NullMarkerFirst` | sqlgen/sqlgen.py:21-22 | a value whose stripped, lower-cased text is a marker gives `NULL`, whatever numeric or string rule would apply |
| `Escaping.EscapeNullExactly` | sqlgen/sqlgen.py:21-36 | for values that do not parse as floats, the result is `NULL` if and only if the stripped, lower-cased value is a marker |
| `Escaping.NullKeyNotUpper` | sqlgen/sqlgen.py:21 | the lower-cased key is never the text `NULL` |
| `Escaping.DefaultUpperNullUnreachable` | sqlgen/sqlgen.py:21-22 | with the default markers (line 121) the `"NULL"` entry can never match, so `escape` behaves exactly as with `["", "null"]` |
| `Escaping.EscapeInteger` | sqlgen/sqlgen.py:23-30 | a non-NULL ASCII integer text comes out unquoted as canonical decimal text of the same integer, and canonical input comes out unchanged (the ".0" float rule cannot fire first) |
| `Escaping.UnquoteDoubled` | sqlgen/sqlgen.py:36 | un-doubling the quotes of `val.replace("'", "''")` gives back `val` |
| `Escaping.DoubledUnquote` | sqlgen/sqlgen.py:36 | every well-formed literal body is the doubling of the string it reads as (the doubling is onto) |
| `Escaping.EscapeStringRoundTrip` | sqlgen/sqlgen.py:28-36 | a value that is neither NULL nor numeric becomes a literal that starts and ends with `'` and whose body reads back as the value |
| `Batcher.AppendBatchRows` | sqlgen/sqlgen.py:51-58 | the inner loop appends exactly the batch's row lines, in order, to the lines it was given |
| `Batcher.DataToSqlLines` | sqlgen/sqlgen.py:38-59 | a zero batch size fails (`range` step 0), a negative one gives no lines, a positive one gives exactly `InsertLines(data)` |
| `Batcher.InsertLinesStep` | sqlgen/sqlgen.py:48-58 | one turn of the outer loop renders `data[start:start+B]` as one statement and keeps the loop invariant |
| `Batcher.BatchesFlatten` | sqlgen/sqlgen.py:44-49 | the batches concatenate back to the rows |
| `Batcher.BatchesCount` | sqlgen/sqlgen.py:44 | there are ceil(R/B) batches |
| `Batcher.BatchesSizes` | sqlgen/sqlgen.py:49 | every batch holds between 1 and B rows, and all but the last hold exactly B |
| `Batcher.BatchAt` | sqlgen/sqlgen.py:44-49 | batch k is `rows[k*B : min((k+1)*B, R)]` |
| `Batcher.BatchesPartition` | sqlgen/sqlgen.py:44-49 | the batches partition the rows into ceil(R/B) consecutive slices, each non-empty and at most B long, all full but the last |
| `Batcher.RenderBatchShape` | sqlgen/sqlgen.py:50-58 | one batch's statement is its header followed by one row line per row of the batch (as many as the batch has rows; `Batcher.BatchAt` and `Batcher.InsertStatementAt` give that count), in order, all ending in "," except the last, which ends in ";" |
| `Batcher.BatchNumbered` | sqlgen/sqlgen.py:44-49 | batch k exists when row k*B does, holds rows[k*B ..] -- min(B, rows left) of them -- and every batch before it holds B rows |
| `Batcher.BatchStatement` | sqlgen/sqlgen.py:44-58 | when the batches before batch k are full, batch k's statement starts at line k*(B+1) of the output and is followed by another header or the end |
| `Batcher.InsertStatementAt` | sqlgen/sqlgen.py:44-58 | statement k of the output starts at line k*(B+1): the header, then the row lines of rows[k*B ..], min(B, rows left) of them, then the next header or the end |
| `Batcher.RowLineIsNotHeader` | sqlgen/sqlgen.py:50-58 | no row line equals a header line |
| `Batcher.RenderAllCounts` | sqlgen/sqlgen.py:48-58 | rendering batches gives one line per batch plus one per row, and exactly one header per batch |
| `Batcher.InsertLineCounts` | sqlgen/sqlgen.py:44-58 | R rows give R + ceil(R/B) lines with exactly ceil(R/B) headers; no rows give no lines, and only then |
| `Batcher.ValueRowsOfBatch` | sqlgen/sqlgen.py:51-58 | the row lines of a batch, without their terminators, are the rendered rows `\t(v1, v2, ...)` of the batch |
| `Batcher.ValueRowsOfRenderAll` | sqlgen/sqlgen.py:48-58 | with headers dropped and terminators cut, rendered batches list the rendered rows of all batches in order |
| `Batcher.InsertRowOrder` | sqlgen/sqlgen.py:48-58 | the output, read without headers and terminators, lists every row exactly once in input order |
| `Splitter.GreedyFirst` | sqlgen/sqlgen.py:107-108 | the first line opens the first chunk |
| `Splitter.GreedyExtend` | sqlgen/sqlgen.py:100-108 | a line that fits joins the open chunk and the grouping stays greedy |
| `Splitter.GreedyFlush` | sqlgen/sqlgen.py:100-108 | a line that does not fit closes the open chunk and opens a new one, and the grouping stays greedy |
| `Splitter.NumberedAppend` | sqlgen/sqlgen.py:101-106 | writing the open chunk as the next file number at `<base>_<k>.sql` keeps the files numbered 1..n without gaps |
| `Splitter.FlushStep` | sqlgen/sqlgen.py:100-108 | the flush branch keeps the loop's progress invariant |
| `Splitter.ExtendStep` | sqlgen/sqlgen.py:107-108 | appending without a flush keeps the loop's progress invariant |
| `Splitter.FinishStep` | sqlgen/sqlgen.py:110-113 | writing the last non-empty chunk completes a numbered greedy split, and there are no files exactly when there are no lines |
| `Splitter.SplitSqlFiles` | sqlgen/sqlgen.py:88-113 | the files are the greedy grouping of the lines, numbered 1..n at `<base>_<k>.sql`, and there are none exactly when there are no lines |
| `Splitter.CountedSizeMonotone` | sqlgen/sqlgen.py:99-108 | a longer prefix of lines never has a smaller counted size |
| `Splitter.GreedyEmpty` | sqlgen/sqlgen.py:98-113 | a greedy grouping has no chunks exactly when there are no lines |
| `Splitter.GreedyFront` | sqlgen/sqlgen.py:99-108 | the first chunk is the longest prefix that fits (or a single line), and the rest is greedy on the remaining lines |
| `Splitter.GreedyChunksUnique` | sqlgen/sqlgen.py:98-108 | there is only one greedy grouping of a given line sequence under a given ceiling |
| `Splitter.SplitUnique` | sqlgen/sqlgen.py:88-113 | the lines, directory, base name and ceiling determine the files completely |
| `Splitter.JoinFlatten` | sqlgen/sqlgen.py:103 | newline-joining the newline-joined chunks equals newline-joining their concatenation |
| `Splitter.FilesReproduceInput` | sqlgen/sqlgen.py:98-113 | the files' texts, newline-joined in file order, are exactly the newline-joined input |
| `Splitter.TextSize` | sqlgen/sqlgen.py:99-103 | a chunk's written UTF-8 size plus one equals its counted size |
| `Splitter.FileSizeWithinCeiling` | sqlgen/sqlgen.py:99-113 | every file's written size is its counted size less one, so every file of more than one line is under the byte ceiling |
| `Decode.DecodeCsv` | sqlgen/sqlgen.py:61-69 | no rows is `MissingHeaderRow`; a non-empty override of the wrong length is `ColumnCountMismatch`; otherwise the column count is the first row's, and the header plus the data are the parsed rows (without override) or the data are all parsed rows (with override) |
| `Decode.DecodeFrame` | sqlgen/sqlgen.py:71-80 | a non-empty override of the wrong length is `ColumnCountMismatch`; otherwise the rows are unchanged and the columns are the override or the frame's own |
| `Decode.CsvOwnHeaderOverride` | sqlgen/sqlgen.py:65-69 | passing the file's own header as the override keeps that header as a data row; an empty override behaves like none |
| `SqlGen.ResolveTableName` | sqlgen/sqlgen.py:138 | an explicit non-empty name wins; `None` or "" falls back to the guessed name |
| `SqlGen.DecodeInput` | sqlgen/sqlgen.py:128-136 | `InvalidSourceType` exactly for non-path, non-frame input; `UnsupportedSourceType` exactly for a path not ending in ".csv"; success only for accepted input |
| `SqlGen.GuessIsFileNamePrefix` | sqlgen/sqlgen.py:84-85 | the guessed name is a prefix of the path's file name and holds no "/" |
| `SqlGen.CsvFileNameSplit` | sqlgen/sqlgen.py:85 | a ".csv" file name with a non-dot before the extension splits into the name less ".csv" and ".csv" |
| `SqlGen.GuessCsvTableName` | sqlgen/sqlgen.py:82-86 | for such a path the table name is the file name less ".csv" |
| `SqlGen.TableNameNonEmpty` | sqlgen/sqlgen.py:128-138 | every accepted input ends up with a non-empty table name |
| `SqlGen.ToSql` | sqlgen/sqlgen.py:115-147 | decoding errors propagate with no files; a zero batch size fails with no files; otherwise the result is the INSERT lines of the decoded rows under the resolved table name, and the files are their numbered greedy split named after the table |

## Left out

- `Escaping.Escape`: the float steps (lines 23-27 and 32-34) are abstract functions supplied by the caller. `float` parsing and formatting are floating point.
- `Escaping.Escape`: the `val is None` test (line 21) is not modelled. Cells are strings, and both decoders only produce strings.
- `PyStr.IntValue`: the model reads only ASCII text of the form `[+-]?[0-9]+`. `int(s)` also takes surrounding whitespace, `_` separators and non-ASCII digits; values in those forms reach the float or quoting step in the model. The digit-count limit of `int` is not modelled either: `IsIntText` has no length bound, so the model sends a digit string of any length to the integer step, whereas `int(val)` (line 29) raises `ValueError` above 4300 digits, line 31 catches it, and the value goes on to `float` (lines 33-34), which gives `inf` (the float step is abstract here).
- `PyStr.Lower`: lower-cases ASCII letters only. `str.lower` also folds the rest of Unicode.
- `Decode.DecodeCsv`: `open` and `csv.reader` (lines 63-64) are not modelled. Their result is given by the caller's `readCsv` function.
- `Decode.DecodeFrame`: `fillna('')` and `astype(str)` (lines 73, 80) are not modelled. The frame arrives with text cells.
- `Escaping.Escape`: the `OverflowError` that `str(int(float(val)))` (line 25) raises for a text ending in ".0" whose float is infinite (for example "1" followed by 400 zeros and ".0") is not modelled. Line 26 catches only `ValueError`, so `escape`, `data_to_sql_lines` and `to_sql` stop there, while the model's `truncated` field always returns text.
- `Splitter.LineBytes`: `.encode('utf-8')` (line 99) raises `UnicodeEncodeError` on a lone surrogate, which a data-frame cell can hold. A Dafny `char` cannot hold one, so the model has no such failure.
- `Splitter.SplitSqlFiles`: `os.makedirs` and the file writes (lines 90, 101-103, 111-113) are not modelled. The method returns the files it would write, each with its number, path and lines; `FileText` is the text written.
- `SqlGen.ToSql`: the `preview` printing (lines 141-143) has no effect on the result and is not modelled.
- `wrap_progress` and tqdm (lines 8-17): progress display only, so `use_progress_bar` has no effect in the model.
- `setup.py`: packaging metadata, with no logic to model.
