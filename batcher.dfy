/**
 * `data_to_sql_lines`: the rows are cut into batches of `rows_per_insert`;
 * each batch is one INSERT statement, a header line followed by one line per
 * row, every row line ending in "," except the batch's last, which ends in ";".
 */
module Batcher {
  import opened Common
  import opened PyStr
  import opened Escaping

  /** Everything `data_to_sql_lines` needs to render one row or one header. */
  datatype RenderOptions = RenderOptions(
    table: string,
    columns: seq<string>,
    nullValues: seq<string>,
    floats: FloatSyntax,
    compact: bool)

  function Min(a: int, b: int): int {
    if a <= b then a else b
  }

  /** ceil(n / d) */
  function CeilDiv(n: nat, d: nat): nat
    requires d > 0
  {
    (n + d - 1) / d
  }

  /** The column clause: every column name in backticks, joined by ", ". */
  function ColumnList(columns: seq<string>): string {
    Join(", ", seq(|columns|, i requires 0 <= i < |columns| => "`" + columns[i] + "`"))
  }

  function HeaderLine(o: RenderOptions): string {
    "INSERT INTO `" + o.table + "` (" + ColumnList(o.columns) + ") VALUES"
  }

  function EscapedCells(row: seq<string>, o: RenderOptions): seq<string> {
    seq(|row|, i requires 0 <= i < |row| => Escape(row[i], o.nullValues, o.floats))
  }

  function Separator(compact: bool): string {
    if compact then "," else ", "
  }

  /** One row's line without its terminator. */
  function RowText(row: seq<string>, o: RenderOptions): string {
    "\t(" + Join(Separator(o.compact), EscapedCells(row, o)) + ")"
  }

  function RowTexts(rows: seq<seq<string>>, o: RenderOptions): seq<string> {
    seq(|rows|, i requires 0 <= i < |rows| => RowText(rows[i], o))
  }

  /** The row lines of one batch: "," after each row but the last, ";" after the last. */
  function RowLines(batch: seq<seq<string>>, o: RenderOptions): seq<string> {
    seq(|batch|, j requires 0 <= j < |batch| => RowText(batch[j], o) + (if j != |batch| - 1 then "," else ";"))
  }

  /** One INSERT statement. */
  function RenderBatch(batch: seq<seq<string>>, o: RenderOptions): seq<string> {
    [HeaderLine(o)] + RowLines(batch, o)
  }

  /** The batches `data[start:start+size]` for start = 0, size, 2*size, ... */
  function Batches(rows: seq<seq<string>>, size: nat): seq<seq<seq<string>>>
    requires size > 0
    decreases |rows|
  {
    if rows == [] then [] else
    var n := Min(size, |rows|);
    [rows[..n]] + Batches(rows[n..], size)
  }

  function RenderAll(batches: seq<seq<seq<string>>>, o: RenderOptions): seq<string> {
    if batches == [] then [] else RenderBatch(batches[0], o) + RenderAll(batches[1..], o)
  }

  /** What `data_to_sql_lines` returns for a positive batch size. */
  function InsertLines(rows: seq<seq<string>>, o: RenderOptions, size: nat): seq<string>
    requires size > 0
  {
    RenderAll(Batches(rows, size), o)
  }

  /**
   * The inner loop of `data_to_sql_lines`: one line per row of the batch,
   * appended in order, the last one terminated by ";" and the others by ",".
   */
  method AppendBatchRows(sqlLines: seq<string>, batch: seq<seq<string>>, o: RenderOptions)
    returns (lines: seq<string>)
    ensures lines == sqlLines + RowLines(batch, o)
  {
    lines := sqlLines;
    var i := 0;
    while i < |batch|
      invariant 0 <= i <= |batch|
      invariant lines == sqlLines + RowLines(batch, o)[..i]
    {
      var row := batch[i];
      var values := if o.compact then Join(",", EscapedCells(row, o)) else Join(", ", EscapedCells(row, o));
      var suffix := if i != |batch| - 1 then "," else ";";
      RowLineAt(batch, o, i, values, suffix);
      lines := lines + ["\t(" + values + ")" + suffix];
      assert RowLines(batch, o)[..i + 1] == RowLines(batch, o)[..i] + [RowLines(batch, o)[i]];
      i := i + 1;
    }
    assert RowLines(batch, o)[..i] == RowLines(batch, o);
  }

  lemma RowLineAt(batch: seq<seq<string>>, o: RenderOptions, i: nat, values: string, suffix: string)
    requires i < |batch|
    requires values == if o.compact then Join(",", EscapedCells(batch[i], o)) else Join(", ", EscapedCells(batch[i], o))
    requires suffix == if i != |batch| - 1 then "," else ";"
    ensures "\t(" + values + ")" + suffix == RowLines(batch, o)[i]
  {
    assert values == Join(Separator(o.compact), EscapedCells(batch[i], o));
  }

  /**
   * The outer loop of `data_to_sql_lines`, over the batch starts
   * `range(0, len(data), rows_per_insert)`; that range rejects a zero step and
   * is empty for a negative one.
   */
  method DataToSqlLines(data: seq<seq<string>>, o: RenderOptions, rowsPerInsert: int)
    returns (r: Result<seq<string>>)
    ensures rowsPerInsert == 0 ==> r == Err(ZeroRowsPerInsert)
    ensures rowsPerInsert < 0 ==> r == Ok([])
    ensures rowsPerInsert > 0 ==> r == Ok(InsertLines(data, o, rowsPerInsert))
  {
    var columnString := ColumnList(o.columns);
    var sqlLines: seq<string> := [];
    if rowsPerInsert == 0 {
      return Err(ZeroRowsPerInsert);
    }
    if rowsPerInsert < 0 {
      return Ok(sqlLines);
    }
    var start := 0;
    while start < |data|
      invariant 0 <= start
      invariant sqlLines + InsertLines(data[Min(start, |data|)..], o, rowsPerInsert) == InsertLines(data, o, rowsPerInsert)
    {
      var batch := data[start..Min(start + rowsPerInsert, |data|)];
      ghost var before := sqlLines;
      sqlLines := sqlLines + ["INSERT INTO `" + o.table + "` (" + columnString + ") VALUES"];
      sqlLines := AppendBatchRows(sqlLines, batch, o);
      BatchAppended(before, batch, o, sqlLines);
      InsertLinesStep(data, start, o, rowsPerInsert, before);
      start := start + rowsPerInsert;
    }
    InsertLinesEmpty(data, start, o, rowsPerInsert);
    assert sqlLines + [] == sqlLines;
    return Ok(sqlLines);
  }

  /** The header written by the outer loop and the inner loop's rows form one statement. */
  lemma BatchAppended(before: seq<string>, batch: seq<seq<string>>, o: RenderOptions, after: seq<string>)
    requires after == before + ["INSERT INTO `" + o.table + "` (" + ColumnList(o.columns) + ") VALUES"] + RowLines(batch, o)
    ensures after == before + RenderBatch(batch, o)
  {
  }

  /** One turn of the outer loop renders the next batch and moves the start past it. */
  lemma InsertLinesStep(data: seq<seq<string>>, start: nat, o: RenderOptions, size: nat, before: seq<string>)
    requires size > 0 && start < |data|
    requires before + InsertLines(data[Min(start, |data|)..], o, size) == InsertLines(data, o, size)
    ensures before + RenderBatch(data[start..Min(start + size, |data|)], o) + InsertLines(data[Min(start + size, |data|)..], o, size)
         == InsertLines(data, o, size)
  {
    var rest := data[start..];
    var batch := data[start..Min(start + size, |data|)];
    var later := InsertLines(data[Min(start + size, |data|)..], o, size);
    assert rest[..Min(size, |rest|)] == batch;
    assert rest[Min(size, |rest|)..] == data[Min(start + size, |data|)..];
    assert InsertLines(rest, o, size) == RenderBatch(batch, o) + later;
    assert before + (RenderBatch(batch, o) + later) == before + RenderBatch(batch, o) + later;
  }

  lemma InsertLinesEmpty(data: seq<seq<string>>, start: nat, o: RenderOptions, size: nat)
    requires size > 0 && start >= |data|
    ensures InsertLines(data[Min(start, |data|)..], o, size) == []
  {
    assert data[Min(start, |data|)..] == [];
  }

  // ---------------------------------------------------------------------------
  // Properties of the rendered lines

  lemma MulSucc(j: int, d: int)
    ensures (j + 1) * d == j * d + d
  {
  }

  lemma {:induction false} MulAtLeast(k: int, d: int)
    requires k >= 1 && d >= 0
    ensures k * d >= d
    decreases k
  {
    if k > 1 {
      MulAtLeast(k - 1, d);
      MulSucc(k - 1, d);
    }
  }

  lemma DivUnique(a: int, d: int, q: int, r: int)
    requires d > 0 && 0 <= r < d && a == q * d + r
    ensures a / d == q
  {
    var q', r' := a / d, a % d;
    assert a == q' * d + r' && 0 <= r' < d;
    if q' < q {
      assert (q - q') * d == r' - r;
      MulAtLeast(q - q', d);
    } else if q' > q {
      assert (q' - q) * d == r - r';
      MulAtLeast(q' - q, d);
    }
  }

  lemma DivStep(x: nat, d: nat)
    requires d > 0
    ensures (x + d) / d == x / d + 1
  {
    DivUnique(x + d, d, x / d + 1, x % d);
  }

  lemma {:induction false} BatchesFlatten(rows: seq<seq<string>>, size: nat)
    requires size > 0
    ensures Flatten(Batches(rows, size)) == rows
    decreases |rows|
  {
    if rows != [] {
      var n := Min(size, |rows|);
      var bs := Batches(rows, size);
      BatchesTail(rows, size);
      BatchesFlatten(rows[n..], size);
      assert Flatten(bs) == bs[0] + Flatten(bs[1..]);
      assert rows == rows[..n] + rows[n..];
    }
  }

  lemma {:induction false} BatchesCount(rows: seq<seq<string>>, size: nat)
    requires size > 0
    ensures |Batches(rows, size)| == CeilDiv(|rows|, size)
    decreases |rows|
  {
    if rows != [] {
      var n := Min(size, |rows|);
      BatchesCount(rows[n..], size);
      if |rows| <= size {
        DivUnique(|rows| + size - 1, size, 1, |rows| - 1);
      } else {
        DivStep(|rows| - size + size - 1, size);
      }
    }
  }

  lemma {:induction false} BatchesSizes(rows: seq<seq<string>>, size: nat)
    requires size > 0
    ensures var bs := Batches(rows, size);
      (forall k :: 0 <= k < |bs| ==> 0 < |bs[k]| <= size) &&
      (forall k :: 0 <= k < |bs| - 1 ==> |bs[k]| == size)
    decreases |rows|
  {
    if rows != [] {
      var n := Min(size, |rows|);
      BatchesSizes(rows[n..], size);
      var bs := Batches(rows, size);
      assert bs[1..] == Batches(rows[n..], size);
      if |rows| <= size {
        assert rows[n..] == [];
      }
    }
  }

  lemma SliceShift(rows: seq<seq<string>>, n: nat, lo: nat, hi: nat)
    requires n <= |rows| && lo <= hi <= |rows| - n
    ensures rows[n..][lo..hi] == rows[n + lo..n + hi]
  {
  }

  /** The batch after the first is the first-cut tail's batch, shifted. */
  lemma BatchesTail(rows: seq<seq<string>>, size: nat)
    requires size > 0 && rows != []
    ensures var bs := Batches(rows, size);
      bs[0] == rows[..Min(size, |rows|)] && bs[1..] == Batches(rows[Min(size, |rows|)..], size)
  {
  }

  /** Batch k is rows[k*size .. min((k+1)*size, R)]. */
  lemma {:induction false} BatchAt(rows: seq<seq<string>>, size: nat, k: nat)
    requires size > 0 && k < |Batches(rows, size)|
    ensures k * size < |rows| && Batches(rows, size)[k] == rows[k * size..Min((k + 1) * size, |rows|)]
    decreases k
  {
    BatchesTail(rows, size);
    if k > 0 {
      var tail := rows[Min(size, |rows|)..];
      var j := k - 1;
      assert Batches(rows, size)[k] == Batches(tail, size)[j];
      BatchAt(tail, size, j);
      MulSucc(j, size);
      MulSucc(k, size);
      assert tail != [];
      assert |rows| > size;
      var lo, hi := j * size, Min(k * size, |tail|);
      SliceShift(rows, size, lo, hi);
      assert size + lo == k * size && size + hi == Min((k + 1) * size, |rows|);
    }
  }

  lemma BatchesSlices(rows: seq<seq<string>>, size: nat)
    requires size > 0
    ensures var bs := Batches(rows, size);
      forall k :: 0 <= k < |bs| ==> k * size < |rows| && bs[k] == rows[k * size..Min((k + 1) * size, |rows|)]
  {
    forall k | 0 <= k < |Batches(rows, size)|
      ensures k * size < |rows| && Batches(rows, size)[k] == rows[k * size..Min((k + 1) * size, |rows|)]
    {
      BatchAt(rows, size, k);
    }
  }

  /**
   * The batches cut the rows into ceil(R/size) consecutive slices, batch k being
   * rows[k*size .. min((k+1)*size, R)]: all full but possibly the last, none empty.
   */
  lemma BatchesPartition(rows: seq<seq<string>>, size: nat)
    requires size > 0
    ensures var bs := Batches(rows, size);
      Flatten(bs) == rows &&
      |bs| == CeilDiv(|rows|, size) &&
      (forall k :: 0 <= k < |bs| ==> 0 < |bs[k]| <= size) &&
      (forall k :: 0 <= k < |bs| - 1 ==> |bs[k]| == size) &&
      (forall k :: 0 <= k < |bs| ==> k * size < |rows| && bs[k] == rows[k * size..Min((k + 1) * size, |rows|)])
  {
    BatchesFlatten(rows, size);
    BatchesCount(rows, size);
    BatchesSizes(rows, size);
    BatchesSlices(rows, size);
  }

  /**
   * An INSERT statement is its header followed by one line per row of the batch,
   * in order; all but the last end in "," and the last ends in ";".
   */
  lemma RenderBatchShape(batch: seq<seq<string>>, o: RenderOptions)
    requires batch != []
    ensures var lines := RenderBatch(batch, o);
      |lines| == |batch| + 1 && lines[0] == HeaderLine(o) &&
      (forall j :: 0 <= j < |batch| - 1 ==> lines[j + 1] == RowText(batch[j], o) + ",") &&
      lines[|batch|] == RowText(batch[|batch| - 1], o) + ";"
  {
  }

  lemma RowLineIsNotHeader(row: seq<string>, o: RenderOptions, suffix: string)
    ensures RowText(row, o) + suffix != HeaderLine(o)
  {
    assert (RowText(row, o) + suffix)[0] == '\t';
    assert HeaderLine(o)[0] == 'I';
  }

  lemma {:induction false} RenderAllCounts(bs: seq<seq<seq<string>>>, o: RenderOptions)
    ensures |RenderAll(bs, o)| == |bs| + |Flatten(bs)|
    ensures multiset(RenderAll(bs, o))[HeaderLine(o)] == |bs|
  {
    if bs != [] {
      RenderAllCounts(bs[1..], o);
      var rows := RowLines(bs[0], o);
      forall j | 0 <= j < |rows|
        ensures rows[j] != HeaderLine(o)
      {
        RowLineIsNotHeader(bs[0][j], o, if j != |bs[0]| - 1 then "," else ";");
      }
      assert multiset(rows)[HeaderLine(o)] == 0;
    }
  }

  /**
   * R rows in batches of `size` give ceil(R/size) header lines and R row lines;
   * no rows give no lines at all.
   */
  lemma InsertLineCounts(rows: seq<seq<string>>, o: RenderOptions, size: nat)
    requires size > 0
    ensures var lines := InsertLines(rows, o, size);
      |lines| == |rows| + CeilDiv(|rows|, size) &&
      multiset(lines)[HeaderLine(o)] == CeilDiv(|rows|, size) &&
      (rows == [] <==> lines == [])
  {
    BatchesPartition(rows, size);
    RenderAllCounts(Batches(rows, size), o);
  }

  /** Row k*size exists exactly when there is a batch k. */
  lemma {:induction false} BatchesCover(rows: seq<seq<string>>, size: nat, k: nat)
    requires size > 0 && k * size < |rows|
    ensures k < |Batches(rows, size)|
    decreases k
  {
    BatchesTail(rows, size);
    if k > 0 {
      MulAtLeast(k, size);
      MulSucc(k - 1, size);
      var tail := rows[size..];
      assert Min(size, |rows|) == size;
      BatchesCover(tail, size, k - 1);
    }
  }

  lemma {:induction false} RenderAllAppend(xs: seq<seq<seq<string>>>, ys: seq<seq<seq<string>>>, o: RenderOptions)
    ensures RenderAll(xs + ys, o) == RenderAll(xs, o) + RenderAll(ys, o)
  {
    if xs != [] {
      assert (xs + ys)[1..] == xs[1..] + ys;
      RenderAllAppend(xs[1..], ys, o);
    } else {
      assert xs + ys == ys;
    }
  }

  /** Statements of full batches take size + 1 lines each. */
  lemma {:induction false} RenderAllFullLength(bs: seq<seq<seq<string>>>, o: RenderOptions, size: nat)
    requires forall j :: 0 <= j < |bs| ==> |bs[j]| == size
    ensures |RenderAll(bs, o)| == |bs| * size + |bs|
  {
    if bs != [] {
      RenderAllFullLength(bs[1..], o, size);
      MulSucc(|bs| - 1, size);
    }
  }

  /** Batch k holds the rows from k*size on, min(size, rows left) of them, and every batch before it is full. */
  lemma BatchNumbered(rows: seq<seq<string>>, size: nat, k: nat)
    requires size > 0 && k * size < |rows|
    ensures var bs := Batches(rows, size); var m := Min(size, |rows| - k * size);
      k < |bs| && k * size + m <= |rows| && bs[k] == rows[k * size..k * size + m] &&
      forall j :: 0 <= j < k ==> |bs[j]| == size
  {
    BatchesCover(rows, size, k);
    BatchAt(rows, size, k);
    MulSucc(k, size);
    BatchesSizes(rows, size);
  }

  /**
   * Line s of `lines` is a header, the next lines are `rowLines`, and after them
   * comes another header or the end.
   */
  predicate StatementAt(lines: seq<string>, s: nat, header: string, rowLines: seq<string>) {
    var e := s + 1 + |rowLines|;
    e <= |lines| && lines[s] == header && lines[s + 1..e] == rowLines && (e == |lines| || lines[e] == header)
  }

  /** Reading a statement back out of the lines around it. */
  lemma StatementInLines(lines: seq<string>, before: seq<string>, rowLines: seq<string>, after: seq<string>, header: string)
    requires lines == before + ([header] + rowLines) + after
    requires after == [] || after[0] == header
    ensures StatementAt(lines, |before|, header, rowLines)
  {
    var s, e := |before|, |before| + 1 + |rowLines|;
    assert lines[s] == header;
    assert lines[s + 1..e] == rowLines;
    if after != [] {
      assert lines[e] == after[0];
    }
  }

  /** The output cut around the statement of batch k. */
  lemma RenderAllAround(bs: seq<seq<seq<string>>>, o: RenderOptions, k: nat)
    requires k < |bs|
    ensures RenderAll(bs, o) == RenderAll(bs[..k], o) + ([HeaderLine(o)] + RowLines(bs[k], o)) + RenderAll(bs[k + 1..], o)
  {
    var pre, post := bs[..k], bs[k + 1..];
    assert bs == pre + ([bs[k]] + post);
    RenderAllAppend(pre, [bs[k]] + post, o);
    assert ([bs[k]] + post)[1..] == post;
  }

  /** The statements of k full batches take k*(size+1) lines. */
  lemma FullPrefixLength(bs: seq<seq<seq<string>>>, o: RenderOptions, size: nat, k: nat)
    requires k <= |bs| && forall j :: 0 <= j < k ==> |bs[j]| == size
    ensures |RenderAll(bs[..k], o)| == k * size + k
  {
    var pre := bs[..k];
    assert forall j :: 0 <= j < k ==> pre[j] == bs[j];
    RenderAllFullLength(pre, o, size);
  }

  /** Rendered batches start with a header, unless there are none. */
  lemma RenderAllHead(bs: seq<seq<seq<string>>>, o: RenderOptions)
    ensures RenderAll(bs, o) == [] || RenderAll(bs, o)[0] == HeaderLine(o)
  {
  }

  /** When the batches before batch k are full, the statement of batch k starts at line k*(size+1). */
  lemma BatchStatement(bs: seq<seq<seq<string>>>, o: RenderOptions, size: nat, k: nat)
    requires k < |bs| && forall j :: 0 <= j < k ==> |bs[j]| == size
    ensures StatementAt(RenderAll(bs, o), k * size + k, HeaderLine(o), RowLines(bs[k], o))
  {
    var before, after := RenderAll(bs[..k], o), RenderAll(bs[k + 1..], o);
    RenderAllAround(bs, o, k);
    FullPrefixLength(bs, o, size, k);
    RenderAllHead(bs[k + 1..], o);
    StatementInLines(RenderAll(bs, o), before, RowLines(bs[k], o), after, HeaderLine(o));
  }

  /**
   * Statement k of the output starts at line k*(size+1): the header, then the
   * row lines of rows[k*size ..] -- min(size, rows left) of them, "," after each
   * but the last and ";" after the last -- and then the next header or the end.
   */
  lemma InsertStatementAt(rows: seq<seq<string>>, o: RenderOptions, size: nat, k: nat)
    requires size > 0 && k * size < |rows|
    ensures var m := Min(size, |rows| - k * size);
      k * size + m <= |rows| &&
      StatementAt(InsertLines(rows, o, size), k * size + k, HeaderLine(o), RowLines(rows[k * size..k * size + m], o))
  {
    BatchNumbered(rows, size, k);
    BatchStatement(Batches(rows, size), o, size, k);
  }

  /** The rows of the output with the headers and terminators taken away. */
  function ValueRows(lines: seq<string>, header: string): seq<string> {
    if lines == [] then []
    else (if lines[0] == header || lines[0] == [] then [] else [lines[0][..|lines[0]| - 1]]) + ValueRows(lines[1..], header)
  }

  lemma {:induction false} ValueRowsAppend(a: seq<string>, b: seq<string>, header: string)
    ensures ValueRows(a + b, header) == ValueRows(a, header) + ValueRows(b, header)
  {
    if a != [] {
      assert (a + b)[1..] == a[1..] + b;
      ValueRowsAppend(a[1..], b, header);
    } else {
      assert a + b == b;
    }
  }

  lemma {:induction false} ValueRowsOfLines(lines: seq<string>, texts: seq<string>, header: string)
    requires |lines| == |texts|
    requires forall j :: 0 <= j < |lines| ==> lines[j] != header && lines[j] != [] && lines[j][..|lines[j]| - 1] == texts[j]
    ensures ValueRows(lines, header) == texts
  {
    if lines != [] {
      var lines', texts' := lines[1..], texts[1..];
      forall j | 0 <= j < |lines'|
        ensures lines'[j] != header && lines'[j] != [] && lines'[j][..|lines'[j]| - 1] == texts'[j]
      {
        assert lines'[j] == lines[j + 1] && texts'[j] == texts[j + 1];
      }
      ValueRowsOfLines(lines', texts', header);
      assert texts == [texts[0]] + texts';
    }
  }

  /** The row lines of one batch, read without terminators, are its row texts. */
  lemma ValueRowsOfBatch(batch: seq<seq<string>>, o: RenderOptions)
    ensures ValueRows(RowLines(batch, o), HeaderLine(o)) == RowTexts(batch, o)
  {
    var lines, texts := RowLines(batch, o), RowTexts(batch, o);
    forall j | 0 <= j < |lines|
      ensures lines[j] != HeaderLine(o) && lines[j] != [] && lines[j][..|lines[j]| - 1] == texts[j]
    {
      var suffix := if j != |batch| - 1 then "," else ";";
      RowLineIsNotHeader(batch[j], o, suffix);
      assert lines[j] == texts[j] + suffix;
    }
    ValueRowsOfLines(lines, texts, HeaderLine(o));
  }

  lemma RowTextsAppend(a: seq<seq<string>>, b: seq<seq<string>>, o: RenderOptions)
    ensures RowTexts(a + b, o) == RowTexts(a, o) + RowTexts(b, o)
  {
  }

  lemma {:induction false} ValueRowsOfRenderAll(bs: seq<seq<seq<string>>>, o: RenderOptions)
    ensures ValueRows(RenderAll(bs, o), HeaderLine(o)) == RowTexts(Flatten(bs), o)
  {
    if bs != [] {
      ValueRowsOfRenderAll(bs[1..], o);
      ValueRowsAppend(RenderBatch(bs[0], o), RenderAll(bs[1..], o), HeaderLine(o));
      ValueRowsAppend([HeaderLine(o)], RowLines(bs[0], o), HeaderLine(o));
      ValueRowsOfBatch(bs[0], o);
      RowTextsAppend(bs[0], Flatten(bs[1..]), o);
    }
  }

  /**
   * Read without headers and terminators, the output lists every row exactly
   * once, in input order.
   */
  lemma InsertRowOrder(rows: seq<seq<string>>, o: RenderOptions, size: nat)
    requires size > 0
    ensures ValueRows(InsertLines(rows, o, size), HeaderLine(o)) == RowTexts(rows, o)
  {
    BatchesPartition(rows, size);
    ValueRowsOfRenderAll(Batches(rows, size), o);
  }
}
