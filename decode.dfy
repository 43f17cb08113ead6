/**
 * The two decoders after their library calls: `decode_csv` on the rows the CSV
 * reader produced, and `decode_df` on a data frame whose columns and cells are
 * already text. Both return column names and data rows, and both check an
 * override list of column names against the natural column count.
 */
module Decode {
  import opened Common

  /** What a decoder hands to the renderer: `(cols, data)`. */
  datatype Decoded = Decoded(columns: seq<string>, rows: seq<seq<string>>)

  /** A data frame after `fillna('')` and `astype(str)`: its column labels and its rows of cells. */
  datatype Frame = Frame(columns: seq<string>, cells: seq<seq<string>>)

  /** `if custom_column_names:` — `None` and the empty list are both falsy. */
  predicate Overrides(custom: Option<seq<string>>) {
    custom.Some? && custom.value != []
  }

  /**
   * `decode_csv` once `csv.reader` has produced `parsed`. Without an override
   * the first row names the columns and the rest are data; with an override the
   * names come from the override and every parsed row, the first included, is data.
   */
  function DecodeCsv(parsed: seq<seq<string>>, custom: Option<seq<string>>): (r: Result<Decoded>)
    ensures r == Err(MissingHeaderRow) <==> parsed == []
    ensures r == Err(ColumnCountMismatch) <==> parsed != [] && Overrides(custom) && |custom.value| != |parsed[0]|
    ensures r.Err? ==> r.error == MissingHeaderRow || r.error == ColumnCountMismatch
    ensures r.Ok? ==> parsed != [] && |r.value.columns| == |parsed[0]|
    ensures r.Ok? && Overrides(custom) ==> r.value.columns == custom.value && r.value.rows == parsed
    ensures r.Ok? && !Overrides(custom) ==> [r.value.columns] + r.value.rows == parsed
  {
    if parsed == [] then Err(MissingHeaderRow)
    else if Overrides(custom) then
      if |custom.value| != |parsed[0]| then Err(ColumnCountMismatch)
      else Ok(Decoded(custom.value, parsed))
    else Ok(Decoded(parsed[0], parsed[1..]))
  }

  /**
   * `decode_df` once the frame has been filled and stringified: the override,
   * when given, must have one name per column and replaces the labels; the rows
   * are unchanged.
   */
  function DecodeFrame(frame: Frame, custom: Option<seq<string>>): (r: Result<Decoded>)
    ensures r == Err(ColumnCountMismatch) <==> Overrides(custom) && |custom.value| != |frame.columns|
    ensures r.Err? ==> r.error == ColumnCountMismatch
    ensures r.Ok? ==> |r.value.columns| == |frame.columns| && r.value.rows == frame.cells
    ensures r.Ok? ==> r.value.columns == if Overrides(custom) then custom.value else frame.columns
  {
    if Overrides(custom) then
      if |custom.value| != |frame.columns| then Err(ColumnCountMismatch)
      else Ok(Decoded(custom.value, frame.cells))
    else Ok(Decoded(frame.columns, frame.cells))
  }

  /**
   * Without an override, the column names and the data rows together are
   * exactly the parsed file, in order; supplying the file's own header as the
   * override keeps the names but also keeps the header row as a data row.
   */
  lemma CsvOwnHeaderOverride(parsed: seq<seq<string>>)
    requires parsed != [] && parsed[0] != []
    ensures DecodeCsv(parsed, Some(parsed[0])) == Ok(Decoded(parsed[0], parsed))
    ensures DecodeCsv(parsed, None) == Ok(Decoded(parsed[0], parsed[1..]))
    ensures DecodeCsv(parsed, Some([])) == DecodeCsv(parsed, None)
  {
  }
}
