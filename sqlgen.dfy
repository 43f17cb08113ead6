/**
 * `to_sql`: picks the decoder for the input, settles the table name, renders
 * the INSERT lines and groups them into output files.
 */
module SqlGen {
  import opened Common
  import opened PyStr
  import opened PyPath
  import opened Escaping
  import opened Batcher
  import opened Splitter
  import opened Decode

  /** What `input_data` can be: a path, a data frame, or anything else. */
  datatype Input =
    | PathInput(path: string)
    | FrameInput(frame: Frame)
    | OtherInput

  /** The keyword arguments of `to_sql`. */
  datatype Config = Config(
    tableName: Option<string>,
    outputDir: string,
    maxFileSizeMb: int,
    rowsPerInsert: int,
    nullValues: seq<string>,
    customColumnNames: Option<seq<string>>,
    preview: bool,
    useProgressBar: bool,
    compactSql: bool)

  /** The defaults in the signature of `to_sql`. */
  const DefaultConfig: Config :=
    Config(None, "output_sqls", 100, 100000, DefaultNullValues, None, false, true, false)

  /** The name given to a data frame, which carries no name of its own. */
  const FrameTableName: string := "dataframe_table"

  /** `guess_table_name`: a path's file name without its extension, otherwise the fixed frame name. */
  function GuessTableName(input: Input): string {
    if input.PathInput? then Splitext(Basename(input.path)).0 else FrameTableName
  }

  /** `table_name or guess_table_name(input_data)`: `None` and "" both fall back to the guess. */
  function ResolveTableName(tableName: Option<string>, input: Input): (t: string)
    ensures tableName.Some? && tableName.value != [] ==> t == tableName.value
    ensures tableName.None? || tableName.value == [] ==> t == GuessTableName(input)
  {
    if tableName.Some? && tableName.value != [] then tableName.value else GuessTableName(input)
  }

  /** Whether `to_sql` accepts the input at all. */
  predicate Accepted(input: Input) {
    input.FrameInput? || (input.PathInput? && EndsWith(input.path, ".csv"))
  }

  /**
   * The dispatch of `to_sql`: a frame goes to `decode_df`, a ".csv" path is read
   * by `readCsv` and goes to `decode_csv`, any other path and any other value fail.
   */
  function DecodeInput(input: Input, readCsv: string -> seq<seq<string>>, custom: Option<seq<string>>): (r: Result<Decoded>)
    ensures r == Err(InvalidSourceType) <==> input.OtherInput?
    ensures r == Err(UnsupportedSourceType) <==> input.PathInput? && !EndsWith(input.path, ".csv")
    ensures r.Ok? ==> Accepted(input)
    ensures input.FrameInput? ==> r == DecodeFrame(input.frame, custom)
    ensures Accepted(input) && input.PathInput? ==> r == DecodeCsv(readCsv(input.path), custom)
  {
    match input
    case FrameInput(frame) => DecodeFrame(frame, custom)
    case PathInput(path) =>
      if EndsWith(path, ".csv") then DecodeCsv(readCsv(path), custom) else Err(UnsupportedSourceType)
    case OtherInput => Err(InvalidSourceType)
  }

  /** The guessed table name is the start of the path's file name and holds no "/". */
  lemma GuessIsFileNamePrefix(path: string)
    ensures var b := Basename(path); var t := GuessTableName(PathInput(path));
      |t| <= |b| && t == b[..|t|] && '/' !in t
  {
    BasenameNoSeparator(path);
    SplitextRootPrefix(Basename(path));
  }

  /** A ".csv" file name with a non-dot before the extension loses exactly ".csv". */
  lemma CsvFileNameSplit(name: string)
    requires '/' !in name && EndsWith(name, ".csv")
    requires exists i :: 0 <= i < |name| - 4 && name[i] != '.'
    ensures Splitext(name) == (name[..|name| - 4], ".csv")
  {
    var ext := ".csv";
    assert ext[1..] == ['c', 's', 'v'];
    SplitextKnownExt(name, ext);
  }

  /**
   * A path whose file name ends in ".csv", with some character other than a dot
   * before the extension, gives that file name less ".csv" as the table name.
   */
  lemma GuessCsvTableName(path: string)
    requires EndsWith(Basename(path), ".csv")
    requires exists i :: 0 <= i < |Basename(path)| - 4 && Basename(path)[i] != '.'
    ensures var b := Basename(path); GuessTableName(PathInput(path)) == b[..|b| - 4]
  {
    BasenameNoSeparator(path);
    CsvFileNameSplit(Basename(path));
  }

  /** Every input `to_sql` accepts ends up with a non-empty table name. */
  lemma TableNameNonEmpty(tableName: Option<string>, input: Input)
    requires Accepted(input)
    ensures ResolveTableName(tableName, input) != []
  {
    if input.PathInput? && (tableName.None? || tableName.value == []) {
      var p := input.path;
      assert p[|p| - 1] == p[|p| - 4..][3] == 'v';
      BasenameNonEmpty(p);
      SplitextRootNonEmpty(Basename(p));
    }
  }

  /**
   * `to_sql` without the preview and the progress bars: on success, the INSERT
   * lines it returns and the files it writes (named after the table), in order.
   */
  method ToSql(input: Input, readCsv: string -> seq<seq<string>>, floats: FloatSyntax, cfg: Config)
    returns (r: Result<seq<string>>, files: seq<OutputFile>)
    ensures var decoded := DecodeInput(input, readCsv, cfg.customColumnNames);
      decoded.Err? ==> r == Err(decoded.error) && files == []
    ensures var decoded := DecodeInput(input, readCsv, cfg.customColumnNames);
      decoded.Ok? && cfg.rowsPerInsert == 0 ==> r == Err(ZeroRowsPerInsert) && files == []
    ensures var decoded := DecodeInput(input, readCsv, cfg.customColumnNames);
      decoded.Ok? && cfg.rowsPerInsert != 0 ==>
        var table := ResolveTableName(cfg.tableName, input);
        var o := RenderOptions(table, decoded.value.columns, cfg.nullValues, floats, cfg.compactSql);
        r.Ok? &&
        r.value == (if cfg.rowsPerInsert > 0 then InsertLines(decoded.value.rows, o, cfg.rowsPerInsert) else []) &&
        IsSplit(files, r.value, MaxBytes(cfg.maxFileSizeMb), cfg.outputDir, table)
  {
    files := [];
    var decoded := DecodeInput(input, readCsv, cfg.customColumnNames);
    if decoded.Err? {
      return Err(decoded.error), files;
    }
    var tableName := ResolveTableName(cfg.tableName, input);
    var o := RenderOptions(tableName, decoded.value.columns, cfg.nullValues, floats, cfg.compactSql);
    var sqlLines := DataToSqlLines(decoded.value.rows, o, cfg.rowsPerInsert);
    if sqlLines.Err? {
      return sqlLines, files;
    }
    var baseName := tableName;
    files := SplitSqlFiles(sqlLines.value, cfg.outputDir, baseName, cfg.maxFileSizeMb);
    r := sqlLines;
  }
}
