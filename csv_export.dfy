/** The CSV exports (`Exporter._export_csv_enhanced` and
    `_export_all_csv_enhanced`): a table of more than `max_rows_csv` rows is
    written as ceil(n / max) consecutive parts plus an index file. pandas is
    not modelled; rows are opaque values and only which rows go where, the
    file names and the column order are. */
module CsvExport {
  import opened Text
  import opened Numerals
  import opened Outcomes
  import opened ExportPaths
  import opened StatusSeverity
  import opened Sequences

  /** `self.max_rows_csv` */
  const MaxRowsCsv: nat := 1000000

  /** Splitting happens only above the limit (a strict comparison). */
  predicate NeedsSplit(n: nat) {
    n > MaxRowsCsv
  }

  /** The loop of the CSV exports that cuts the table into parts. */
  method SplitRows<T>(rows: seq<T>, size: nat) returns (parts: seq<seq<T>>)
    requires size > 0
    ensures parts == Parts(rows, size)
  {
    var numChunks := (|rows| + size - 1) / size;
    parts := [];
    var i := 0;
    while i < numChunks
      invariant 0 <= i <= numChunks
      invariant parts == Parts(rows, size)[..i]
    {
      PartStartInRange(|rows|, size, i);
      var startIdx := i * size;
      var endIdx := Min((i + 1) * size, |rows|);
      parts := parts + [rows[startIdx..endIdx]];
      i := i + 1;
    }
    assert Parts(rows, size)[..i] == Parts(rows, size);
  }

  // ---------------------------------------------------------------------------
  // Part files and the index

  /** `f"{export_name}_part_{i+1}_of_{num_chunks}.csv"` */
  function PartFileName(name: string, i: nat, count: nat): string {
    name + "_part_" + NatToString(i + 1) + "_of_" + NatToString(count) + ".csv"
  }

  /** `f"Part {i+1} of {num_chunks}"` */
  function PartLabel(i: nat, count: nat): string {
    "Part " + NatToString(i + 1) + " of " + NatToString(count)
  }

  /** Different parts get different file names. */
  lemma PartFileNamesDistinct(name: string, i: nat, j: nat, count: nat)
    requires i != j
    ensures PartFileName(name, i, count) != PartFileName(name, j, count)
  {
    var p, q := name + "_part_", "_of_" + NatToString(count) + ".csv";
    assert PartFileName(name, i, count) == p + NatToString(i + 1) + q;
    assert PartFileName(name, j, count) == p + NatToString(j + 1) + q;
    if PartFileName(name, i, count) == PartFileName(name, j, count) {
      Unframe(p, NatToString(i + 1), NatToString(j + 1), q);
      NatToStringInjective(i + 1, j + 1);
    }
  }

  datatype IndexRow = IndexRow(chunk: string, rows: int, filename: string)

  /** The `summary_df` written to `{export_name}_index.csv`. */
  function IndexTable(name: string, n: nat, size: nat): (t: seq<IndexRow>)
    requires size > 0
    ensures |t| == PartCount(n, size)
  {
    var count := PartCount(n, size);
    seq(count, i requires 0 <= i < count =>
      IndexRow(PartLabel(i, count), Min(size, n - i * size), PartFileName(name, i, count)))
  }

  function SumRows(t: seq<IndexRow>): int {
    if |t| == 0 then 0 else SumRows(t[..|t| - 1]) + t[|t| - 1].rows
  }

  /** Each index row states the size of its part and names its file. */
  lemma IndexMatchesParts<T>(name: string, rows: seq<T>, size: nat, i: nat)
    requires size > 0 && i < PartCount(|rows|, size)
    ensures IndexTable(name, |rows|, size)[i].rows == |Parts(rows, size)[i]|
    ensures IndexTable(name, |rows|, size)[i].filename == PartFileName(name, i, PartCount(|rows|, size))
  {
    PartStartInRange(|rows|, size, i);
    assert (i + 1) * size == i * size + size;
  }

  /** The row counts of the index add up to the table's size. */
  lemma IndexRowsSum(name: string, n: nat, size: nat)
    requires size > 0
    ensures SumRows(IndexTable(name, n, size)) == n
  {
    var t := IndexTable(name, n, size);
    IndexRowsSumPrefix(name, n, size, |t|);
    assert t[..|t|] == t;
    PartCountIsCeiling(n, size);
  }

  lemma {:induction false} IndexRowsSumPrefix(name: string, n: nat, size: nat, k: nat)
    requires size > 0 && k <= PartCount(n, size)
    ensures SumRows(IndexTable(name, n, size)[..k]) == Min(k * size, n)
  {
    var t := IndexTable(name, n, size);
    if k > 0 {
      IndexRowsSumPrefix(name, n, size, k - 1);
      var start := (k - 1) * size;
      PartStartInRange(n, size, k - 1);
      IndexRowRows(name, n, size, k - 1);
      SumRowsStep(t, k, start, size, n);
      assert start + size == k * size;
    }
  }

  lemma SumRowsStep(t: seq<IndexRow>, k: nat, start: int, size: int, n: int)
    requires 0 < k <= |t| && 0 <= start < n && size > 0
    requires SumRows(t[..k - 1]) == Min(start, n) && t[k - 1].rows == Min(size, n - start)
    ensures SumRows(t[..k]) == Min(start + size, n)
  {
    assert t[..k][..k - 1] == t[..k - 1];
    MinStep(start, size, n);
  }

  lemma IndexRowRows(name: string, n: nat, size: nat, i: nat)
    requires size > 0 && i < PartCount(n, size)
    ensures IndexTable(name, n, size)[i].rows == Min(size, n - i * size)
  {
  }

  lemma MinStep(a: int, size: int, n: int)
    requires 0 <= a < n && size > 0
    ensures Min(a, n) + Min(size, n - a) == Min(a + size, n)
  {
  }


  /** 2,500,000 rows make three parts of 1,000,000, 1,000,000 and 500,000. */
  lemma IndexForTwoAndAHalfMillion(name: string)
    ensures var t := IndexTable(name, 2500000, MaxRowsCsv);
      |t| == 3 && t[0].rows == 1000000 && t[1].rows == 1000000 && t[2].rows == 500000
      && t[2].filename == PartFileName(name, 2, 3)
  {
    assert PartCount(2500000, MaxRowsCsv) == 3;
  }

  // ---------------------------------------------------------------------------
  // The exports

  datatype CsvOutcome =
    | NoData
    | Failed(reason: string)
    | SingleFile(path: string, sizeText: string)
    | Chunked(count: nat, chunkDir: string, partFiles: seq<string>, indexFile: string, index: seq<IndexRow>)

  const NoDataTail: string := ": No temporal data available for CSV export"

  function Message(o: CsvOutcome): string {
    match o
    case NoData => "Error" + NoDataTail
    case Failed(reason) => "CSV export failed: " + reason
    case SingleFile(path, sizeText) => "CSV export completed. File saved to: " + path + " (" + sizeText + " MB)"
    case Chunked(count, dir, _, _, _) =>
      "CSV export completed with chunking. " + NatToString(count) + " files created in " + dir
  }

  /** Missing data and failures are shown as errors. */
  lemma ErrorMessagesAreErrors(o: CsvOutcome)
    requires o.NoData? || o.Failed?
    ensures Classify(Message(o)) == Error
  {
    if o.NoData? {
      ErrorPrefixed(NoDataTail);
    } else {
      WordRaisesSeverity("CSV export ", "failed", ": " + o.reason);
      assert Message(o) == "CSV export " + "failed" + (": " + o.reason);
    }
  }

  /** A written file or set of parts is shown as at least a success. */
  lemma WrittenMessagesSucceed(o: CsvOutcome)
    requires o.SingleFile? || o.Chunked?
    ensures Rank(Classify(Message(o))) >= Rank(Success)
  {
    if o.SingleFile? {
      SavedMessageOpening(o.path, o.sizeText);
      CompleteMessageSucceeds("d. File saved to: " + o.path + " (" + o.sizeText + " MB)");
    } else {
      assert Message(o) == "CSV export completed with chunking. " + (NatToString(o.count) + " files created in " + o.chunkDir);
      ChunkedMessageOpening(NatToString(o.count) + " files created in " + o.chunkDir);
      CompleteMessageSucceeds("d with chunking. " + (NatToString(o.count) + " files created in " + o.chunkDir));
    }
  }

  lemma SavedMessageOpening(path: string, sizeText: string)
    ensures Message(SingleFile(path, sizeText)) == "CSV export complete" + ("d. File saved to: " + path + " (" + sizeText + " MB)")
  {
    assert "CSV export complete" + "d. File saved to: " == "CSV export completed. File saved to: ";
  }

  lemma ChunkedMessageOpening(tail: string)
    ensures "CSV export completed with chunking. " + tail == "CSV export complete" + ("d with chunking. " + tail)
  {
    assert "CSV export complete" + "d with chunking. " == "CSV export completed with chunking. ";
  }

  /** Any text after "CSV export complete" reads as at least a success. */
  lemma CompleteMessageSucceeds(rest: string)
    ensures Rank(Classify("CSV export complete" + rest)) >= Rank(Success)
  {
    WordRaisesSeverity("CSV export ", "complete", rest);
    assert "CSV export complete" + rest == "CSV export " + "complete" + rest;
  }

  lemma LowerError()
    ensures Lower("Error") == "error"
  {
    LowerOfLowerCase("rror");
    assert Lower("Error") == [LowerChar('E')] + Lower("rror");
  }

  /** A message that opens with a capitalised "Error" reads as an error. */
  lemma ErrorPrefixed(tail: string)
    ensures Classify("Error" + tail) == Error
  {
    LowerAppend("Error", tail);
    LowerError();
    assert Contains("error", "error") by {
      assert "error"[..5] == "error";
    }
    ContainsAppend("error", Lower(tail), "error");
    MentionRaisesSeverity("Error" + tail, "error");
  }

  /** The chunked result for `count` parts of `partBase` in `chunkDir`, with the
      index in `indexDir`. */
  function ChunkedResult(partBase: string, chunkDir: string, indexDir: string, n: nat): CsvOutcome {
    var count := PartCount(n, MaxRowsCsv);
    Chunked(count, chunkDir,
      seq(count, i requires 0 <= i < count => JoinTwo(chunkDir, PartFileName(partBase, i, count))),
      JoinTwo(indexDir, partBase + "_index.csv"),
      IndexTable(partBase, n, MaxRowsCsv))
  }

  /** `_export_csv_enhanced`. A write error stands for any exception raised
      after the path has been chosen; `sizeText` is the written file's size
      in megabytes as `{:.2f}` prints it. The chunk directory and the index
      sit in `os.path.dirname` of the file path. */
  method ExportCsv<T>(root: string, rows: seq<T>, name: string, folder: string, writeError: Option<string>,
                      sizeText: string)
    returns (outcome: CsvOutcome, parts: seq<seq<T>>)
    ensures |rows| == 0 ==> outcome == NoData && parts == []
    ensures |rows| > 0 && writeError.Some? ==> outcome == Failed(writeError.value) && parts == []
    ensures |rows| > 0 && writeError.None? && !NeedsSplit(|rows|) ==>
      outcome == SingleFile(JoinTwo(ExportDir(root, CSV, folder), name + "." + "csv"), sizeText)
      && parts == [rows]
    ensures |rows| > 0 && writeError.None? && NeedsSplit(|rows|) ==>
      var dir := ExportFileDir(root, CSV, folder, name + "." + "csv");
      outcome == ChunkedResult(name, JoinTwo(dir, name + "_chunks"), dir, |rows|)
      && parts == Parts(rows, MaxRowsCsv)
  {
    if |rows| == 0 {
      return NoData, [];
    }
    var dir, localFile := GetExportFileDir(root, CSV, folder, name, "csv");
    if writeError.Some? {
      return Failed(writeError.value), [];
    }
    if |rows| > MaxRowsCsv {
      var chunkDir := JoinTwo(dir, name + "_chunks");
      parts := SplitRows(rows, MaxRowsCsv);
      outcome := ChunkedResult(name, chunkDir, dir, |rows|);
    } else {
      outcome, parts := SingleFile(localFile, sizeText), [rows];
    }
  }

  // ---------------------------------------------------------------------------
  // The all-years CSV: metadata columns first

  const MetaColumns: seq<string> := ["dataset", "parameter", "index"]

  /** `panel_data.get(key, state.get(key, default))` */
  function MetaValue(panel: map<string, string>, state: map<string, string>, key: string, default: string): string {
    if key in panel then panel[key] else if key in state then state[key] else default
  }

  /** `df[key] = value`: a new column goes last, an existing one stays put. */
  function AddColumn(cols: seq<string>, key: string): seq<string> {
    if key in cols then cols else cols + [key]
  }

  function WithMetaColumns(cols: seq<string>): seq<string> {
    AddColumn(AddColumn(AddColumn(cols, "dataset"), "parameter"), "index")
  }

  /** `[col for col in cols if col not in meta_cols]` */
  function DataColumns(cols: seq<string>): seq<string> {
    if |cols| == 0 then []
    else (if cols[0] in MetaColumns then [] else [cols[0]]) + DataColumns(cols[1..])
  }

  /** `df[meta_cols + data_cols]` after adding the metadata columns. */
  function ReorderColumns(cols: seq<string>): seq<string> {
    MetaColumns + DataColumns(WithMetaColumns(cols))
  }

  predicate NoDuplicates(s: seq<string>) {
    forall i, j :: 0 <= i < j < |s| ==> s[i] != s[j]
  }

  lemma {:induction false} DataColumnsFacts(cols: seq<string>)
    ensures forall c :: c in DataColumns(cols) <==> c in cols && c !in MetaColumns
    ensures NoDuplicates(cols) ==> NoDuplicates(DataColumns(cols))
  {
    if |cols| > 0 {
      DataColumnsFacts(cols[1..]);
      var head := if cols[0] in MetaColumns then [] else [cols[0]];
      assert DataColumns(cols) == head + DataColumns(cols[1..]);
      assert forall c :: c in cols <==> c == cols[0] || c in cols[1..];
      if NoDuplicates(cols) {
        assert cols[0] !in cols[1..];
        assert NoDuplicates(cols[1..]) by {
          forall i, j | 0 <= i < j < |cols[1..]|
            ensures cols[1..][i] != cols[1..][j]
          {
            assert cols[1..][i] == cols[i + 1] && cols[1..][j] == cols[j + 1];
          }
        }
      }
    }
  }

  /** The reordered table has the three metadata columns first, then every
      other column of the data; nothing is lost, nothing is added except the
      metadata, and without duplicate input columns there are none after. */
  lemma ReorderColumnsFacts(cols: seq<string>)
    ensures ReorderColumns(cols)[..3] == MetaColumns
    ensures forall c :: c in ReorderColumns(cols) <==> c in cols || c in MetaColumns
    ensures forall k :: 3 <= k < |ReorderColumns(cols)| ==> ReorderColumns(cols)[k] !in MetaColumns
    ensures NoDuplicates(cols) ==> NoDuplicates(ReorderColumns(cols))
  {
    var w := WithMetaColumns(cols);
    assert forall c :: c in w <==> c in cols || c in MetaColumns;
    DataColumnsFacts(w);
    var r := ReorderColumns(cols);
    var d := DataColumns(w);
    assert r == MetaColumns + d;
    assert forall k :: 3 <= k < |r| ==> r[k] == d[k - 3];
    if NoDuplicates(cols) {
      assert NoDuplicates(w) by {
        NoDuplicatesAddColumn(cols, "dataset");
        NoDuplicatesAddColumn(AddColumn(cols, "dataset"), "parameter");
        NoDuplicatesAddColumn(AddColumn(AddColumn(cols, "dataset"), "parameter"), "index");
      }
      forall i, j | 0 <= i < j < |r|
        ensures r[i] != r[j]
      {
        if j >= 3 {
          assert r[j] == d[j - 3];
          if i >= 3 {
            assert r[i] == d[i - 3];
          }
        }
      }
    }
  }

  lemma NoDuplicatesAddColumn(cols: seq<string>, key: string)
    requires NoDuplicates(cols)
    ensures NoDuplicates(AddColumn(cols, key))
  {
  }

  /** The data columns keep their original order. */
  lemma DataColumnsInOrder(a: seq<string>, b: seq<string>)
    ensures DataColumns(a + b) == DataColumns(a) + DataColumns(b)
    decreases |a|
  {
    if |a| > 0 {
      assert (a + b)[1..] == a[1..] + b;
      DataColumnsInOrder(a[1..], b);
    } else {
      assert a + b == b;
    }
  }

  /** The all-years export's part files share the directory of its index,
      whatever the base name. */
  lemma ChunkDirIsIndexDir(root: string, folder: string, base: string)
    ensures ExportFileDir(root, CSV, folder, base + "_chunks" + "." + "")
         == ExportFileDir(root, CSV, folder, base + "_temporal" + "." + "csv")
  {
    assert base + "_chunks" + "." + "" == base + "_chunks.";
    assert base + "_temporal" + "." + "csv" == base + "_temporal.csv";
    ExportFileDirSameParent(root, CSV, folder, base, "_chunks.", "_temporal.csv");
  }

  /** `_export_all_csv_enhanced`. Returns the outcome, the parts, the column
      order and the (dataset, parameter, index) values written into every
      row. The parts and the index go into `os.path.dirname` of the
      `_temporal` file's path. */
  method ExportAllCsv<T>(root: string, rows: seq<T>, columns: seq<string>, base: string, folder: string,
                         panel: map<string, string>, state: map<string, string>, writeError: Option<string>,
                         sizeText: string)
    returns (outcome: CsvOutcome, parts: seq<seq<T>>, cols: seq<string>, meta: seq<string>)
    ensures |rows| == 0 ==> outcome == NoData
    ensures |rows| > 0 && writeError.Some? ==> outcome == Failed(writeError.value)
    ensures |rows| > 0 && writeError.None? ==>
      && cols == ReorderColumns(columns)
      && meta == [MetaValue(panel, state, "dataset", "general"),
                  MetaValue(panel, state, "parameter", "climate"),
                  MetaValue(panel, state, "index", "data")]
    ensures |rows| > 0 && writeError.None? && !NeedsSplit(|rows|) ==>
      outcome == SingleFile(JoinTwo(ExportDir(root, CSV, folder), base + "_temporal" + "." + "csv"), sizeText)
      && parts == [rows]
    ensures |rows| > 0 && writeError.None? && NeedsSplit(|rows|) ==>
      var dir := ExportFileDir(root, CSV, folder, base + "_temporal" + "." + "csv");
      outcome == ChunkedResult(base, dir, dir, |rows|)
      && parts == Parts(rows, MaxRowsCsv)
  {
    outcome, parts, cols, meta := NoData, [], [], [];
    if |rows| == 0 {
      return;
    }
    var localFolder, localFile := GetExportFileDir(root, CSV, folder, base + "_temporal", "csv");
    if writeError.Some? {
      outcome := Failed(writeError.value);
      return;
    }
    meta := [MetaValue(panel, state, "dataset", "general"),
             MetaValue(panel, state, "parameter", "climate"),
             MetaValue(panel, state, "index", "data")];
    cols := ReorderColumns(columns);
    if |rows| > MaxRowsCsv {
      var chunkDir, chunkPath := GetExportFileDir(root, CSV, folder, base + "_chunks", "");
      ChunkDirIsIndexDir(root, folder, base);
      parts := SplitRows(rows, MaxRowsCsv);
      outcome := ChunkedResult(base, chunkDir, localFolder, |rows|);
    } else {
      outcome, parts := SingleFile(localFile, sizeText), [rows];
    }
  }
}
