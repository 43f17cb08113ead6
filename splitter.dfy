/**
 * `split_sql_files`: the rendered lines are grouped greedily into files
 * `<base>_<k>.sql`, k = 1, 2, ..., closing a file only when the next line would
 * take its running size past the ceiling and the file already holds a line.
 */
module Splitter {
  import opened Common
  import opened PyStr
  import opened PyPath

  /** One output file: its number, its path and the lines written to it. */
  datatype OutputFile = OutputFile(index: nat, path: string, lines: seq<string>)

  /** What one line adds to the running size: `len((line + '\n').encode('utf-8'))`. */
  function LineBytes(line: string): nat {
    Utf8Length(line + "\n")
  }

  /** The running size of a group of lines, one newline counted per line. */
  function CountedSize(lines: seq<string>): nat {
    if lines == [] then 0 else CountedSize(lines[..|lines| - 1]) + LineBytes(lines[|lines| - 1])
  }

  /** `max_file_size_mb * 1024 * 1024` */
  function MaxBytes(maxFileSizeMb: int): int {
    maxFileSizeMb * 1024 * 1024
  }

  /** `os.path.join(output_dir, f"{base_name}_{file_index}.sql")` */
  function OutPath(outputDir: string, baseName: string, index: nat): string {
    PathJoin(outputDir, baseName + "_" + DecimalText(index) + ".sql")
  }

  /** What is written to a file: `'\n'.join(lines)`. */
  function FileText(f: OutputFile): string {
    Join("\n", f.lines)
  }

  function FileTexts(files: seq<OutputFile>): seq<string> {
    seq(|files|, k requires 0 <= k < |files| => FileText(files[k]))
  }

  function ChunksOf(files: seq<OutputFile>): seq<seq<string>> {
    seq(|files|, k requires 0 <= k < |files| => files[k].lines)
  }

  /**
   * `chunks` is the greedy grouping of `lines`: in order, none empty, none over
   * the ceiling unless it is a single line, and none that could have taken the
   * next chunk's first line without going over.
   */
  ghost predicate GreedyChunks(chunks: seq<seq<string>>, lines: seq<string>, maxBytes: int) {
    Flatten(chunks) == lines &&
    (forall k :: 0 <= k < |chunks| ==> chunks[k] != []) &&
    (forall k :: 0 <= k < |chunks| ==> |chunks[k]| == 1 || CountedSize(chunks[k]) <= maxBytes) &&
    (forall k :: 0 <= k < |chunks| - 1 ==> CountedSize(chunks[k]) + LineBytes(chunks[k + 1][0]) > maxBytes)
  }

  /** Files numbered 1, 2, ... with no gap, each at its `<base>_<k>.sql` path. */
  ghost predicate Numbered(files: seq<OutputFile>, outputDir: string, baseName: string) {
    forall k :: 0 <= k < |files| ==> files[k].index == k + 1 && files[k].path == OutPath(outputDir, baseName, k + 1)
  }

  /** The files `split_sql_files` writes for `lines`: the greedy chunks, numbered from 1. */
  ghost predicate IsSplit(files: seq<OutputFile>, lines: seq<string>, maxBytes: int, outputDir: string, baseName: string) {
    GreedyChunks(ChunksOf(files), lines, maxBytes) && Numbered(files, outputDir, baseName)
  }

  lemma CountedSizeAppend(lines: seq<string>, line: string)
    ensures CountedSize(lines + [line]) == CountedSize(lines) + LineBytes(line)
  {
    assert (lines + [line])[..|lines|] == lines;
  }

  lemma FlattenSnoc(cs: seq<seq<string>>, c: seq<string>)
    ensures Flatten(cs + [c]) == Flatten(cs) + c
  {
    FlattenAppend(cs, [c]);
    assert Flatten([c]) == c + Flatten([]);
  }

  /** The first line opens the first chunk. */
  lemma GreedyFirst(line: string, maxBytes: int)
    ensures GreedyChunks([[line]], [line], maxBytes)
  {
    FlattenSnoc([], [line]);
  }

  /** A line that fits joins the open chunk. */
  lemma GreedyExtend(cs: seq<seq<string>>, cur: seq<string>, done: seq<string>, line: string, maxBytes: int)
    requires GreedyChunks(cs + [cur], done, maxBytes)
    requires CountedSize(cur) + LineBytes(line) <= maxBytes
    ensures GreedyChunks(cs + [cur + [line]], done + [line], maxBytes)
  {
    var before, after := cs + [cur], cs + [cur + [line]];
    FlattenSnoc(cs, cur);
    FlattenSnoc(cs, cur + [line]);
    CountedSizeAppend(cur, line);
    assert before[|cs|] == cur;
    assert forall k :: 0 <= k < |cs| ==> after[k] == before[k] == cs[k];
    if |cs| > 0 {
      assert after[|cs|][0] == cur[0];
    }
  }

  /** A line that does not fit closes the open chunk and opens the next. */
  lemma GreedyFlush(cs: seq<seq<string>>, cur: seq<string>, done: seq<string>, line: string, maxBytes: int)
    requires GreedyChunks(cs + [cur], done, maxBytes)
    requires CountedSize(cur) + LineBytes(line) > maxBytes
    ensures GreedyChunks(cs + [cur] + [[line]], done + [line], maxBytes)
  {
    var before := cs + [cur];
    var after := before + [[line]];
    FlattenSnoc(before, [line]);
    assert forall k :: 0 <= k < |before| ==> after[k] == before[k];
  }

  /**
   * The state of the loop after `done`: the files written so far are numbered,
   * and together with the open chunk `cur` they group `done` greedily.
   */
  ghost predicate SplitProgress(files: seq<OutputFile>, cur: seq<string>, done: seq<string>, maxBytes: int, outputDir: string, baseName: string) {
    Numbered(files, outputDir, baseName) &&
    (cur == [] ==> files == [] && done == []) &&
    (cur != [] ==> GreedyChunks(ChunksOf(files) + [cur], done, maxBytes))
  }

  /** The open chunk as the next file. */
  function NextFile(files: seq<OutputFile>, cur: seq<string>, outputDir: string, baseName: string): (f: OutputFile)
    ensures f.index == |files| + 1 && f.lines == cur
  {
    OutputFile(|files| + 1, OutPath(outputDir, baseName, |files| + 1), cur)
  }

  /** Writing the open chunk as the next file keeps the numbering. */
  lemma NumberedAppend(files: seq<OutputFile>, cur: seq<string>, outputDir: string, baseName: string)
    requires Numbered(files, outputDir, baseName)
    ensures var f := NextFile(files, cur, outputDir, baseName);
      Numbered(files + [f], outputDir, baseName) && ChunksOf(files + [f]) == ChunksOf(files) + [cur]
  {
  }

  /** A line that does not fit closes the open chunk as a file and opens the next chunk. */
  lemma FlushStep(files: seq<OutputFile>, cur: seq<string>, done: seq<string>, line: string, maxBytes: int, outputDir: string, baseName: string)
    requires SplitProgress(files, cur, done, maxBytes, outputDir, baseName)
    requires cur != [] && CountedSize(cur) + LineBytes(line) > maxBytes
    ensures SplitProgress(files + [NextFile(files, cur, outputDir, baseName)], [line], done + [line], maxBytes, outputDir, baseName)
  {
    GreedyFlush(ChunksOf(files), cur, done, line, maxBytes);
    NumberedAppend(files, cur, outputDir, baseName);
  }

  /** A line that fits, or the very first line, joins the open chunk. */
  lemma ExtendStep(files: seq<OutputFile>, cur: seq<string>, done: seq<string>, line: string, maxBytes: int, outputDir: string, baseName: string)
    requires SplitProgress(files, cur, done, maxBytes, outputDir, baseName)
    requires cur == [] || CountedSize(cur) + LineBytes(line) <= maxBytes
    ensures SplitProgress(files, cur + [line], done + [line], maxBytes, outputDir, baseName)
  {
    if cur == [] {
      GreedyFirst(line, maxBytes);
      assert cur + [line] == [line] && done + [line] == [line];
    } else {
      GreedyExtend(ChunksOf(files), cur, done, line, maxBytes);
    }
  }

  /** After the last line, writing the open chunk (if any) completes the split. */
  lemma FinishStep(files: seq<OutputFile>, cur: seq<string>, lines: seq<string>, maxBytes: int, outputDir: string, baseName: string)
    requires SplitProgress(files, cur, lines, maxBytes, outputDir, baseName)
    ensures var all := if cur == [] then files else files + [NextFile(files, cur, outputDir, baseName)];
      IsSplit(all, lines, maxBytes, outputDir, baseName) && (all == [] <==> lines == [])
  {
    if cur != [] {
      var all := files + [NextFile(files, cur, outputDir, baseName)];
      NumberedAppend(files, cur, outputDir, baseName);
      GreedyEmpty(ChunksOf(all), lines, maxBytes);
    } else {
      assert Flatten<string>([]) == [];
    }
  }

  /** The loop of `split_sql_files`, without the writes: the files it would write, in order. */
  method SplitSqlFiles(lines: seq<string>, outputDir: string, baseName: string, maxFileSizeMb: int)
    returns (files: seq<OutputFile>)
    ensures IsSplit(files, lines, MaxBytes(maxFileSizeMb), outputDir, baseName)
    ensures files == [] <==> lines == []
  {
    var currentLines: seq<string> := [];
    var currentSize := 0;
    var fileIndex := 1;
    var maxBytes := maxFileSizeMb * 1024 * 1024;
    files := [];
    var n := 0;
    while n < |lines|
      invariant 0 <= n <= |lines|
      invariant fileIndex == |files| + 1
      invariant currentSize == CountedSize(currentLines)
      invariant SplitProgress(files, currentLines, lines[..n], maxBytes, outputDir, baseName)
    {
      var line := lines[n];
      var lineBytes := LineBytes(line);
      assert lines[..n + 1] == lines[..n] + [line];
      if currentSize + lineBytes > maxBytes && currentLines != [] {
        FlushStep(files, currentLines, lines[..n], line, maxBytes, outputDir, baseName);
        files := files + [OutputFile(fileIndex, OutPath(outputDir, baseName, fileIndex), currentLines)];
        currentLines := [];
        currentSize := 0;
        fileIndex := fileIndex + 1;
        assert currentLines + [line] == [line];
      } else {
        ExtendStep(files, currentLines, lines[..n], line, maxBytes, outputDir, baseName);
      }
      CountedSizeAppend(currentLines, line);
      currentLines := currentLines + [line];
      currentSize := currentSize + lineBytes;
      n := n + 1;
    }
    assert lines[..n] == lines;
    FinishStep(files, currentLines, lines, maxBytes, outputDir, baseName);
    if currentLines != [] {
      files := files + [OutputFile(fileIndex, OutPath(outputDir, baseName, fileIndex), currentLines)];
    }
  }

  // ---------------------------------------------------------------------------
  // Properties of the split

  lemma {:induction false} CountedSizePrefix(lines: seq<string>, n: nat)
    requires n <= |lines|
    ensures CountedSize(lines[..n]) <= CountedSize(lines)
    decreases |lines|
  {
    if n < |lines| {
      CountedSizePrefix(lines[..|lines| - 1], n);
      assert lines[..|lines| - 1][..n] == lines[..n];
    } else {
      assert lines[..n] == lines;
    }
  }

  lemma CountedSizeMonotone(lines: seq<string>)
    ensures forall i, j :: 0 <= i <= j <= |lines| ==> CountedSize(lines[..i]) <= CountedSize(lines[..j])
  {
    forall i, j | 0 <= i <= j <= |lines|
      ensures CountedSize(lines[..i]) <= CountedSize(lines[..j])
    {
      CountedSizePrefix(lines[..j], i);
      assert lines[..j][..i] == lines[..i];
    }
  }

  lemma GreedyEmpty(chunks: seq<seq<string>>, lines: seq<string>, maxBytes: int)
    requires GreedyChunks(chunks, lines, maxBytes)
    ensures chunks == [] <==> lines == []
  {
    if chunks != [] {
      assert Flatten(chunks) == chunks[0] + Flatten(chunks[1..]);
    }
  }

  /**
   * The first chunk is a prefix of the lines that fits (or is one line), and
   * adding the line after it would not fit.
   */
  lemma GreedyFront(chunks: seq<seq<string>>, lines: seq<string>, maxBytes: int)
    requires GreedyChunks(chunks, lines, maxBytes) && chunks != []
    ensures var m := |chunks[0]|;
      0 < m <= |lines| && chunks[0] == lines[..m] &&
      (m == 1 || CountedSize(lines[..m]) <= maxBytes) &&
      (m < |lines| ==> CountedSize(lines[..m + 1]) > maxBytes)
    ensures GreedyChunks(chunks[1..], lines[|chunks[0]|..], maxBytes)
  {
    var rest := chunks[1..];
    var m := |chunks[0]|;
    assert lines == chunks[0] + Flatten(rest);
    assert forall k :: 0 <= k < |rest| ==> rest[k] == chunks[k + 1];
    assert GreedyChunks(rest, lines[m..], maxBytes);
    if m < |lines| {
      GreedyEmpty(rest, lines[m..], maxBytes);
      assert rest != [];
      assert Flatten(rest) == rest[0] + Flatten(rest[1..]);
      assert lines[..m + 1] == chunks[0] + [chunks[1][0]];
      CountedSizeAppend(chunks[0], chunks[1][0]);
    }
  }

  /** There is only one greedy grouping of a sequence of lines. */
  lemma {:induction false} GreedyChunksUnique(c1: seq<seq<string>>, c2: seq<seq<string>>, lines: seq<string>, maxBytes: int)
    requires GreedyChunks(c1, lines, maxBytes) && GreedyChunks(c2, lines, maxBytes)
    ensures c1 == c2
    decreases |lines|
  {
    GreedyEmpty(c1, lines, maxBytes);
    GreedyEmpty(c2, lines, maxBytes);
    if lines != [] {
      GreedyFront(c1, lines, maxBytes);
      GreedyFront(c2, lines, maxBytes);
      CountedSizeMonotone(lines);
      var m1, m2 := |c1[0]|, |c2[0]|;
      assert m1 == m2;
      GreedyChunksUnique(c1[1..], c2[1..], lines[m1..], maxBytes);
      assert c1 == [c1[0]] + c1[1..] && c2 == [c2[0]] + c2[1..];
    }
  }

  /** The lines, directory, base name and ceiling determine the files completely. */
  lemma SplitUnique(f1: seq<OutputFile>, f2: seq<OutputFile>, lines: seq<string>, maxBytes: int, outputDir: string, baseName: string)
    requires IsSplit(f1, lines, maxBytes, outputDir, baseName)
    requires IsSplit(f2, lines, maxBytes, outputDir, baseName)
    ensures f1 == f2
  {
    GreedyChunksUnique(ChunksOf(f1), ChunksOf(f2), lines, maxBytes);
    assert |f1| == |ChunksOf(f1)| == |ChunksOf(f2)| == |f2|;
    forall k | 0 <= k < |f1|
      ensures f1[k] == f2[k]
    {
      assert f1[k].lines == ChunksOf(f1)[k] == ChunksOf(f2)[k] == f2[k].lines;
    }
  }

  lemma {:induction false} JoinFlatten(chunks: seq<seq<string>>)
    requires chunks != [] && forall k :: 0 <= k < |chunks| ==> chunks[k] != []
    ensures Flatten(chunks) != []
    ensures Join("\n", seq(|chunks|, k requires 0 <= k < |chunks| => Join("\n", chunks[k]))) == Join("\n", Flatten(chunks))
  {
    var texts := seq(|chunks|, k requires 0 <= k < |chunks| => Join("\n", chunks[k]));
    if |chunks| == 1 {
      assert chunks[1..] == [];
      assert Flatten(chunks) == chunks[0] + [] == chunks[0];
      assert Join("\n", texts) == texts[0] == Join("\n", chunks[0]);
    } else {
      var rest := chunks[1..];
      JoinFlatten(rest);
      var restTexts := seq(|rest|, k requires 0 <= k < |rest| => Join("\n", rest[k]));
      assert texts == [texts[0]] + restTexts;
      JoinAppend("\n", [texts[0]], restTexts);
      JoinAppend("\n", chunks[0], Flatten(rest));
    }
  }

  /**
   * Joining the files' contents with newlines, in file-number order, gives back
   * exactly the newline-joined input.
   */
  lemma FilesReproduceInput(files: seq<OutputFile>, lines: seq<string>, maxBytes: int, outputDir: string, baseName: string)
    requires IsSplit(files, lines, maxBytes, outputDir, baseName)
    ensures Join("\n", FileTexts(files)) == Join("\n", lines)
  {
    var chunks := ChunksOf(files);
    if files != [] {
      JoinFlatten(chunks);
      assert FileTexts(files) == seq(|chunks|, k requires 0 <= k < |chunks| => Join("\n", chunks[k]));
    } else {
      assert lines == Flatten(chunks) == [];
    }
  }

  lemma {:induction false} TextSize(lines: seq<string>)
    requires lines != []
    ensures Utf8Length(Join("\n", lines)) + 1 == CountedSize(lines)
    decreases |lines|
  {
    var last := lines[|lines| - 1];
    Utf8LengthAppend(last, "\n");
    if |lines| > 1 {
      var init := lines[..|lines| - 1];
      TextSize(init);
      Utf8LengthAppend(Join("\n", init) + "\n", last);
      Utf8LengthAppend(Join("\n", init), "\n");
    }
  }

  /**
   * A written file's UTF-8 size is its counted size less one (no newline after
   * its last line), so every file with more than one line stays under the ceiling.
   */
  lemma FileSizeWithinCeiling(files: seq<OutputFile>, lines: seq<string>, maxBytes: int, outputDir: string, baseName: string)
    requires IsSplit(files, lines, maxBytes, outputDir, baseName)
    ensures forall k :: 0 <= k < |files| ==> Utf8Length(FileText(files[k])) + 1 == CountedSize(files[k].lines)
    ensures forall k :: 0 <= k < |files| && |files[k].lines| > 1 ==> Utf8Length(FileText(files[k])) < maxBytes
  {
    forall k | 0 <= k < |files|
      ensures Utf8Length(FileText(files[k])) + 1 == CountedSize(files[k].lines)
    {
      assert ChunksOf(files)[k] == files[k].lines;
      TextSize(files[k].lines);
    }
    assert forall k :: 0 <= k < |files| ==> ChunksOf(files)[k] == files[k].lines;
  }
}
