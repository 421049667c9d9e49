/** The all-years exports (`Exporter._export_all_geotiff_enhanced`,
    `_export_all_netcdf_enhanced` and their `*_to_drive` fallbacks): one
    attempt per year of the analysed range, the success and failure counts,
    the summary message, and the Google Drive fallback when nothing was
    saved. What Earth Engine, the download, the conversion and the Drive
    submission do for a year is passed in as a function of the year. */
module BatchExport {
  import opened Text
  import opened Numerals
  import opened Outcomes
  import opened Sequences
  import opened ExportPaths
  import opened StatusSeverity

  /** Years go to the process pool five at a time. */
  const BatchSize: nat := 5

  /** `panel_data['state']`: absent or empty, or holding an optional
      `time_range`. */
  datatype AnalysisState = NoState | State(timeRange: Option<(int, int)>)

  /** `state.get('time_range', (2020, 2020))` */
  function TimeRange(s: AnalysisState): (int, int)
    requires s.State?
  {
    if s.timeRange.Some? then s.timeRange.value else (2020, 2020)
  }

  const NoStateMessage: string := "Error: No analysis state available for export"

  /** `range(start_year, end_year + 1)` */
  function Years(start: int, end: int): (ys: seq<int>)
    ensures |ys| == if end >= start then end - start + 1 else 0
    ensures forall k :: 0 <= k < |ys| ==> ys[k] == start + k
    decreases end - start
  {
    if end < start then [] else Years(start, end - 1) + [end]
  }

  /** What happens to one year: no image for it, an exception, a download
      that leaves no file, or a saved file. */
  datatype YearAttempt = NoData | Raised | FileMissing | Exported

  /** The number of years among `years` whose file was saved. */
  function CountExported(years: seq<int>, attempt: int -> YearAttempt): (n: nat)
    ensures n <= |years|
  {
    if |years| == 0 then 0
    else CountExported(years[..|years| - 1], attempt) + (if attempt(years[|years| - 1]) == Exported then 1 else 0)
  }

  lemma {:induction false} CountExportedAppend(a: seq<int>, b: seq<int>, attempt: int -> YearAttempt)
    ensures CountExported(a + b, attempt) == CountExported(a, attempt) + CountExported(b, attempt)
    decreases |b|
  {
    if |b| == 0 {
      assert a + b == a;
    } else {
      CountExportedAppend(a, b[..|b| - 1], attempt);
      assert (a + b)[..|a + b| - 1] == a + b[..|b| - 1];
    }
  }

  /** The years in batches: `years_to_export[i:i+batch_size]` for
      `i in range(0, len(years_to_export), batch_size)`. */
  function Batches(years: seq<int>): seq<seq<int>> {
    Parts(years, BatchSize)
  }

  /** The batches cover the years in order, each with one to five years. */
  lemma BatchesCoverYears(years: seq<int>)
    ensures Flatten(Batches(years)) == years
    ensures forall b :: 0 <= b < |Batches(years)| ==> 0 < |Batches(years)[b]| <= BatchSize
  {
    PartsPartition(years, BatchSize);
  }

  // ---------------------------------------------------------------------------
  // Counting

  /** The counting loops (`for success, year in results` in the pool path and
      the sequential loop): every year adds one to exactly one counter. */
  method CountYears(years: seq<int>, attempt: int -> YearAttempt, successful0: nat, failed0: nat)
    returns (successful: nat, failed: nat)
    ensures successful == successful0 + CountExported(years, attempt)
    ensures failed == failed0 + |years| - CountExported(years, attempt)
  {
    successful, failed := successful0, failed0;
    var k := 0;
    while k < |years|
      invariant 0 <= k <= |years|
      invariant successful == successful0 + CountExported(years[..k], attempt)
      invariant failed == failed0 + k - CountExported(years[..k], attempt)
    {
      assert years[..k + 1][..k] == years[..k];
      if attempt(years[k]) == Exported {
        successful := successful + 1;
      } else {
        failed := failed + 1;
      }
      k := k + 1;
    }
    assert years[..k] == years;
  }

  /** The pool raises in batch `b` (`Some(0)` when the pool cannot even be
      used), or never. */
  function BatchesDone(years: seq<int>, poolFailsAt: Option<nat>): nat {
    var nb := |Batches(years)|;
    if poolFailsAt.Some? && poolFailsAt.value < nb then poolFailsAt.value else nb
  }

  predicate PoolRaised(years: seq<int>, poolFailsAt: Option<nat>) {
    poolFailsAt.Some? && poolFailsAt.value < |Batches(years)|
  }

  /** The years the pool counted before it raised. */
  function PoolCounted(years: seq<int>, poolFailsAt: Option<nat>): seq<int> {
    Flatten(Batches(years)[..BatchesDone(years, poolFailsAt)])
  }

  /** The pool path: batch after batch until the pool raises. */
  method CountBatches(years: seq<int>, attempt: int -> YearAttempt, poolFailsAt: Option<nat>)
    returns (successful: nat, failed: nat, raised: bool)
    ensures raised == PoolRaised(years, poolFailsAt)
    ensures successful == CountExported(PoolCounted(years, poolFailsAt), attempt)
    ensures failed == |PoolCounted(years, poolFailsAt)| - successful
  {
    var batches := Parts(years, BatchSize);
    successful, failed, raised := 0, 0, false;
    var b := 0;
    while b < |batches|
      invariant 0 <= b <= |batches|
      invariant successful == CountExported(Flatten(batches[..b]), attempt)
      invariant failed == |Flatten(batches[..b])| - successful
      invariant !(poolFailsAt.Some? && poolFailsAt.value < b)
    {
      if poolFailsAt == Some(b) {
        raised := true;
        break;
      }
      assert batches[..b + 1][..b] == batches[..b];
      CountExportedAppend(Flatten(batches[..b]), batches[b], attempt);
      successful, failed := CountYears(batches[b], attempt, successful, failed);
      b := b + 1;
    }
    if !raised {
      assert batches[..b] == batches[..|batches|];
    }
  }

  /** As written: the counters of the pool path are kept when the sequential
      loop starts over (exporter.py:969-975). */
  function SuccessfulAsWritten(years: seq<int>, attempt: int -> YearAttempt, poolFailsAt: Option<nat>): nat {
    CountExported(PoolCounted(years, poolFailsAt), attempt)
      + (if PoolRaised(years, poolFailsAt) then CountExported(years, attempt) else 0)
  }

  function FailedAsWritten(years: seq<int>, attempt: int -> YearAttempt, poolFailsAt: Option<nat>): nat {
    |PoolCounted(years, poolFailsAt)| - CountExported(PoolCounted(years, poolFailsAt), attempt)
      + (if PoolRaised(years, poolFailsAt) then |years| - CountExported(years, attempt) else 0)
  }

  /** `_export_all_geotiff_enhanced`'s counting as written. */
  method CountAllYearsAsWritten(years: seq<int>, attempt: int -> YearAttempt, poolFailsAt: Option<nat>)
    returns (successful: nat, failed: nat)
    ensures successful == SuccessfulAsWritten(years, attempt, poolFailsAt)
    ensures failed == FailedAsWritten(years, attempt, poolFailsAt)
  {
    var raised;
    successful, failed, raised := CountBatches(years, attempt, poolFailsAt);
    if raised {
      successful, failed := CountYears(years, attempt, successful, failed);
    }
  }

  /** When a batch after the first raises, the years of the earlier batches
      are counted twice: ten years that all export, with the pool raising in
      the second batch, report 15 successes out of 10. */
  lemma CountsAsWrittenDoubleCount()
    ensures var years := Years(2000, 2009);
      SuccessfulAsWritten(years, (y: int) => Exported, Some(1)) == 15 > |years|
  {
    var years := Years(2000, 2009);
    var all := (y: int) => Exported;
    BatchesCoverYears(years);
    var bs := Batches(years);
    assert |bs| == 2;
    assert bs[..1] == [bs[0]];
    assert Flatten([bs[0]]) == bs[0];
    assert |bs[0]| == 5;
    AllExportedCount(bs[0]);
    AllExportedCount(years);
  }

  lemma {:induction false} AllExportedCount(years: seq<int>)
    ensures CountExported(years, (y: int) => Exported) == |years|
  {
    if |years| > 0 {
      AllExportedCount(years[..|years| - 1]);
    }
  }

  /** The years the pool counted are the first ones, and all of them when the
      pool never raised. */
  lemma PoolCountedIsPrefix(years: seq<int>, attempt: int -> YearAttempt, poolFailsAt: Option<nat>)
    ensures !PoolRaised(years, poolFailsAt) ==> PoolCounted(years, poolFailsAt) == years
    ensures CountExported(PoolCounted(years, poolFailsAt), attempt) <= CountExported(years, attempt)
  {
    var d := BatchesDone(years, poolFailsAt);
    PartsPrefix(years, BatchSize, d);
    var m := Min(d * BatchSize, |years|);
    assert PoolCounted(years, poolFailsAt) == years[..m];
    assert years[..m] + years[m..] == years;
    CountExportedAppend(years[..m], years[m..], attempt);
    if !PoolRaised(years, poolFailsAt) {
      PartCountIsCeiling(|years|, BatchSize);
    }
  }

  /** The as-written counts agree with the saved years when the pool never
      raises; after a raise they count the pool's years a second time. Either
      way some year is reported saved exactly when one was. */
  lemma {:induction false} AsWrittenCounts(years: seq<int>, attempt: int -> YearAttempt, poolFailsAt: Option<nat>)
    ensures !PoolRaised(years, poolFailsAt) ==>
      SuccessfulAsWritten(years, attempt, poolFailsAt) == CountExported(years, attempt)
      && FailedAsWritten(years, attempt, poolFailsAt) == |years| - CountExported(years, attempt)
    ensures PoolRaised(years, poolFailsAt) ==>
      SuccessfulAsWritten(years, attempt, poolFailsAt)
        == CountExported(years, attempt) + CountExported(PoolCounted(years, poolFailsAt), attempt)
      && SuccessfulAsWritten(years, attempt, poolFailsAt) + FailedAsWritten(years, attempt, poolFailsAt)
        == |years| + |PoolCounted(years, poolFailsAt)|
    ensures SuccessfulAsWritten(years, attempt, poolFailsAt) > 0 <==> CountExported(years, attempt) > 0
  {
    PoolCountedIsPrefix(years, attempt, poolFailsAt);
  }

  /** Corrected: the sequential fallback starts from zero, so every year is
      counted once, whichever batch the pool raised in. */
  method CountAllYears(years: seq<int>, attempt: int -> YearAttempt, poolFailsAt: Option<nat>)
    returns (successful: nat, failed: nat)
    ensures successful == CountExported(years, attempt)
    ensures successful + failed == |years|
  {
    var raised;
    successful, failed, raised := CountBatches(years, attempt, poolFailsAt);
    if raised {
      successful, failed := CountYears(years, attempt, 0, 0);
    } else {
      BatchesCoverYears(years);
      assert Batches(years)[..|Batches(years)|] == Batches(years);
    }
  }

  // ---------------------------------------------------------------------------
  // Google Drive fallbacks

  /** The years for which a Drive task is started: the year has an image and
      starting the task does not raise. */
  function CountSubmitted(years: seq<int>, hasData: int -> bool, submitOk: int -> bool): (n: nat)
    ensures n <= |years|
  {
    if |years| == 0 then 0
    else
      var y := years[|years| - 1];
      CountSubmitted(years[..|years| - 1], hasData, submitOk) + (if hasData(y) && submitOk(y) then 1 else 0)
  }

  function CountWithData(years: seq<int>, hasData: int -> bool): (n: nat)
    ensures n <= |years|
  {
    if |years| == 0 then 0
    else CountWithData(years[..|years| - 1], hasData) + (if hasData(years[|years| - 1]) then 1 else 0)
  }

  /** Tasks are started only for years with data, and for all of them when no
      submission raises. */
  lemma {:induction false} SubmittedOnlyWithData(years: seq<int>, hasData: int -> bool, submitOk: int -> bool)
    ensures CountSubmitted(years, hasData, submitOk) <= CountWithData(years, hasData)
    ensures (forall k :: 0 <= k < |years| ==> submitOk(years[k])) ==>
      CountSubmitted(years, hasData, submitOk) == CountWithData(years, hasData)
  {
    if |years| > 0 {
      var init := years[..|years| - 1];
      SubmittedOnlyWithData(init, hasData, submitOk);
      assert forall k :: 0 <= k < |init| ==> init[k] == years[k];
    }
  }

  /** The loop of both `*_to_drive` fallbacks that starts one task per year. */
  method SubmitYears(years: seq<int>, hasData: int -> bool, submitOk: int -> bool) returns (taskCount: nat)
    ensures taskCount == CountSubmitted(years, hasData, submitOk)
  {
    taskCount := 0;
    var k := 0;
    while k < |years|
      invariant 0 <= k <= |years|
      invariant taskCount == CountSubmitted(years[..k], hasData, submitOk)
    {
      assert years[..k + 1][..k] == years[..k];
      if hasData(years[k]) && submitOk(years[k]) {
        taskCount := taskCount + 1;
      }
      k := k + 1;
    }
    assert years[..k] == years;
  }

  function DriveTasksMessage(kind: string, taskCount: nat, driveFolder: string): string {
    "Started " + NatToString(taskCount) + " " + kind + " export tasks to Google Drive. Files will be saved to '"
      + driveFolder + "' folder."
  }

  /** The folder fix at the start of `_export_all_geotiff_to_drive`. */
  method FixDriveFolder(folder: string) returns (folderName: string)
    ensures folderName == Join(DriveFolderParts(folder))
  {
    var parts := Split(folder);
    if IsUnknown(parts[0]) {
      parts := parts[0 := "general"];
    }
    ghost var p0 := parts[0];
    assert parts == [p0] + Split(folder)[1..];
    if parts[0] !in StandardDirs {
      var upperPart := Upper(parts[0]);
      if upperPart in CatalogSources {
        parts := parts[0 := upperPart];
        assert parts == [Upper(p0)] + Split(folder)[1..];
      } else {
        parts := ["Custom", parts[0]];
      }
    }
    assert parts == FixSource(Split(folder));
    if |parts| == 1 {
      parts := parts + ["climate_data"];
    }
    folderName := Join(parts);
  }

  /** `_export_all_geotiff_to_drive`. */
  method ExportAllGeoTiffToDrive(state: AnalysisState, base: string, folder: string,
                                 hasData: int -> bool, submitOk: int -> bool)
    returns (message: string, taskCount: nat)
    ensures state.NoState? ==> message == NoStateMessage && taskCount == 0
    ensures state.State? ==>
      var (start, end) := TimeRange(state);
      taskCount == CountSubmitted(Years(start, end), hasData, submitOk)
      && message == DriveTasksMessage("GeoTIFF", taskCount, DriveAllYearsFolder(folder, base))
  {
    if state.NoState? {
      return NoStateMessage, 0;
    }
    var (start, end) := TimeRange(state);
    var folderName := FixDriveFolder(folder);
    var driveFolder := ExportRoot + "/" + folderName + "/" + base;
    taskCount := SubmitYears(Years(start, end), hasData, submitOk);
    message := DriveTasksMessage("GeoTIFF", taskCount, driveFolder);
  }

  /** `_export_all_netcdf_to_drive`: the folder name is used as given. */
  method ExportAllNetCdfToDrive(state: AnalysisState, base: string, folder: string,
                                hasData: int -> bool, submitOk: int -> bool)
    returns (message: string, taskCount: nat)
    ensures state.NoState? ==> message == NoStateMessage && taskCount == 0
    ensures state.State? ==>
      var (start, end) := TimeRange(state);
      taskCount == CountSubmitted(Years(start, end), hasData, submitOk)
      && message == DriveTasksMessage("NetCDF", taskCount, ExportRoot + "/" + folder + "/" + base)
  {
    if state.NoState? {
      return NoStateMessage, 0;
    }
    var (start, end) := TimeRange(state);
    taskCount := SubmitYears(Years(start, end), hasData, submitOk);
    message := DriveTasksMessage("NetCDF", taskCount, ExportRoot + "/" + folder + "/" + base);
  }

  // ---------------------------------------------------------------------------
  // The all-years GeoTIFF export

  /** The summary after at least one year was saved. */
  function GeoTiffSummary(successful: nat, failed: nat, totalYears: int, folder: string): string {
    var head := "GeoTIFF export completed. " + NatToString(successful) + " of " + IntToString(totalYears)
      + " years exported successfully to " + folder;
    if failed > 0 then head + FailedTail(failed) else head
  }

  function FailedTail(failed: nat): string {
    ". " + NatToString(failed) + " years failed to export."
  }

  /** A summary that reports failed years is styled as an error, even though
      files were saved. */
  lemma SummaryWithFailuresIsError(successful: nat, failed: nat, totalYears: int, folder: string)
    requires failed > 0
    ensures Classify(GeoTiffSummary(successful, failed, totalYears, folder)) == Error
  {
    var head := "GeoTIFF export completed. " + NatToString(successful) + " of " + IntToString(totalYears)
      + " years exported successfully to " + folder;
    FailedTailIsError(head, failed);
  }

  /** Whatever comes before it, the failure count makes the text an error. */
  lemma FailedTailIsError(head: string, failed: nat)
    ensures Classify(head + FailedTail(failed)) == Error
  {
    var p, w, r := " years ", "failed", " to export.";
    assert p + w + r == " years failed to export.";
    var pre := head + ". " + NatToString(failed) + p;
    assert head + FailedTail(failed) == pre + w + r;
    WordRaisesSeverity(pre, w, r);
  }


  /** The folder of the year files: a sub-folder named after the export
      inside `os.path.dirname` of the `.tif` path `_get_export_path` gives. */
  function GeoTiffSeriesFolder(root: string, folder: string, base: string): string {
    JoinTwo(ExportFileDir(root, GeoTIFF, folder, base + "." + "tif"), base)
  }

  /** For a base name without a separator the series folder sits in the
      GeoTIFF export directory; a base "sub/rest" (a custom dataset key with a
      '/' in it) nests it under `sub` as well, so the sub-directory appears
      twice. */
  lemma SeriesFolderPlacement(root: string, folder: string, base: string)
    ensures '/' !in base ==> GeoTiffSeriesFolder(root, folder, base) == JoinTwo(ExportDir(root, GeoTIFF, folder), base)
    ensures forall sub, rest :: base == sub + "/" + rest && sub != "" && '/' !in sub && '/' !in rest ==>
      GeoTiffSeriesFolder(root, folder, base) == JoinTwo(JoinTwo(ExportDir(root, GeoTIFF, folder), sub), base)
  {
    if '/' !in base {
      assert '/' !in base + "." + "tif";
      ExportFileDirPlain(root, GeoTIFF, folder, base + "." + "tif");
    }
    forall sub, rest | base == sub + "/" + rest && sub != "" && '/' !in sub && '/' !in rest
      ensures GeoTiffSeriesFolder(root, folder, base) == JoinTwo(JoinTwo(ExportDir(root, GeoTIFF, folder), sub), base)
    {
      assert base + "." + "tif" == sub + "/" + (rest + ".tif");
      ExportFileDirNested(root, GeoTIFF, folder, sub, rest + ".tif");
    }
  }

  /** `_export_all_geotiff_enhanced`, counting as written: after a pool
      exception the sequential loop adds to the pool's counts. `hasData` says
      for which years the Drive fallback's own `_get_data_for_year` lookup
      finds an image. */
  method ExportAllGeoTiff(root: string, state: AnalysisState, base: string, folder: string,
                          attempt: int -> YearAttempt, poolFailsAt: Option<nat>,
                          hasData: int -> bool, submitOk: int -> bool)
    returns (message: string, successful: nat, failed: nat, driveTasks: nat)
    ensures state.NoState? ==> message == NoStateMessage
    ensures state.State? ==>
      var (start, end) := TimeRange(state);
      var years := Years(start, end);
      && successful == SuccessfulAsWritten(years, attempt, poolFailsAt)
      && failed == FailedAsWritten(years, attempt, poolFailsAt)
      && (successful > 0 <==> CountExported(years, attempt) > 0)
      && (successful > 0 ==>
            message == GeoTiffSummary(successful, failed, end - start + 1, GeoTiffSeriesFolder(root, folder, base))
            && driveTasks == 0)
      && (successful == 0 ==>
            driveTasks == CountSubmitted(years, hasData, submitOk)
            && message == DriveTasksMessage("GeoTIFF", driveTasks, DriveAllYearsFolder(folder, base)))
  {
    successful, failed, driveTasks := 0, 0, 0;
    if state.NoState? {
      return NoStateMessage, 0, 0, 0;
    }
    var (start, end) := TimeRange(state);
    var localFolder, tempPath := GetExportFileDir(root, GeoTIFF, folder, base, "tif");
    var timeSeriesFolder := JoinTwo(localFolder, base);
    successful, failed := CountAllYearsAsWritten(Years(start, end), attempt, poolFailsAt);
    AsWrittenCounts(Years(start, end), attempt, poolFailsAt);
    if successful > 0 {
      message := GeoTiffSummary(successful, failed, end - start + 1, timeSeriesFolder);
    } else {
      message, driveTasks := ExportAllGeoTiffToDrive(state, base, folder, hasData, submitOk);
    }
  }

  // ---------------------------------------------------------------------------
  // The all-years NetCDF export

  /** `os.path.join(years_folder, f"{export_name_base}_{year}.nc")` */
  function YearFile(yearsFolder: string, base: string, year: int): string {
    JoinTwo(yearsFolder, base + "_" + IntToString(year) + ".nc")
  }

  datatype NetCdfOutcome =
    | NoStateError
    | Combined(successful: nat, totalYears: int, mergedFile: string, yearsFolder: string, failed: nat,
               mergedYears: seq<int>)
    | NotMerged(successful: nat, yearsFolder: string)
    | MergeFailed(successful: nat, error: string, yearsFolder: string)
    | SentToDrive(taskCount: nat, message: string)

  /** The `(year, path)` list for the saved years, in the order of the loop. */
  function SavedFiles(years: seq<int>, attempt: int -> YearAttempt, yearsFolder: string, base: string): seq<(int, string)> {
    if |years| == 0 then []
    else
      var y := years[|years| - 1];
      SavedFiles(years[..|years| - 1], attempt, yearsFolder, base)
        + (if attempt(y) == Exported then [(y, YearFile(yearsFolder, base, y))] else [])
  }

  /** The saved files are exactly the exported years, each with its own path,
      and (years being ascending) already in the order the sort by year
      produces. */
  lemma {:induction false} SavedFilesFacts(years: seq<int>, attempt: int -> YearAttempt, yearsFolder: string, base: string)
    requires forall i, j :: 0 <= i < j < |years| ==> years[i] < years[j]
    ensures var files := SavedFiles(years, attempt, yearsFolder, base);
      && |files| == CountExported(years, attempt)
      && (forall k :: 0 <= k < |files| ==>
            files[k].0 in years && attempt(files[k].0) == Exported
            && files[k].1 == YearFile(yearsFolder, base, files[k].0))
      && (forall i, j :: 0 <= i < j < |files| ==> files[i].0 < files[j].0)
  {
    if |years| > 0 {
      var init := years[..|years| - 1];
      var y := years[|years| - 1];
      assert forall i, j :: 0 <= i < j < |init| ==> init[i] < init[j] by {
        forall i, j | 0 <= i < j < |init| ensures init[i] < init[j] {
          assert init[i] == years[i] && init[j] == years[j];
        }
      }
      SavedFilesFacts(init, attempt, yearsFolder, base);
      var prev := SavedFiles(init, attempt, yearsFolder, base);
      assert forall k :: 0 <= k < |prev| ==> prev[k].0 < y by {
        forall k | 0 <= k < |prev| ensures prev[k].0 < y {
          var m :| 0 <= m < |init| && init[m] == prev[k].0;
          assert years[m] == init[m];
        }
      }
      assert forall x :: x in init ==> x in years;
    }
  }

  /** The years whose file opens, in file order. */
  function Opened(files: seq<(int, string)>, openOk: int -> bool): seq<int> {
    if |files| == 0 then []
    else Opened(files[..|files| - 1], openOk) + (if openOk(files[|files| - 1].0) then [files[|files| - 1].0] else [])
  }

  /** The loop that opens the saved files (a file that fails to open is
      skipped). */
  method OpenDatasets(files: seq<(int, string)>, openOk: int -> bool) returns (datasets: seq<int>)
    ensures datasets == Opened(files, openOk)
  {
    datasets := [];
    var k := 0;
    while k < |files|
      invariant 0 <= k <= |files|
      invariant datasets == Opened(files[..k], openOk)
    {
      assert files[..k + 1][..k] == files[..k];
      if openOk(files[k].0) {
        datasets := datasets + [files[k].0];
      }
      k := k + 1;
    }
    assert files[..k] == files;
  }

  /** The sequential year loop of `_export_all_netcdf_enhanced`. */
  method SaveYears(years: seq<int>, attempt: int -> YearAttempt, yearsFolder: string, base: string)
    returns (files: seq<(int, string)>, successful: nat, failed: nat)
    ensures files == SavedFiles(years, attempt, yearsFolder, base)
    ensures successful == CountExported(years, attempt) && successful + failed == |years|
  {
    files, successful, failed := [], 0, 0;
    var k := 0;
    while k < |years|
      invariant 0 <= k <= |years|
      invariant files == SavedFiles(years[..k], attempt, yearsFolder, base)
      invariant successful == CountExported(years[..k], attempt) && successful + failed == k
    {
      assert years[..k + 1][..k] == years[..k];
      var year := years[k];
      if attempt(year) == Exported {
        files := files + [(year, YearFile(yearsFolder, base, year))];
        successful := successful + 1;
      } else {
        failed := failed + 1;
      }
      k := k + 1;
    }
    assert years[..k] == years;
  }

  /** The merge step: open the saved year files, then combine the opened
      ones into the multi-year file. */
  method MergeYears(files: seq<(int, string)>, openOk: int -> bool, mergeError: Option<string>,
                    successful: nat, failed: nat, totalYears: int, mergedFile: string, yearsFolder: string)
    returns (outcome: NetCdfOutcome)
    ensures |Opened(files, openOk)| == 0 ==> outcome == NotMerged(successful, yearsFolder)
    ensures |Opened(files, openOk)| > 0 && mergeError.Some? ==> outcome == MergeFailed(successful, mergeError.value, yearsFolder)
    ensures |Opened(files, openOk)| > 0 && mergeError.None? ==>
      outcome == Combined(successful, totalYears, mergedFile, yearsFolder, failed, Opened(files, openOk))
  {
    var datasets := OpenDatasets(files, openOk);
    if |datasets| == 0 {
      outcome := NotMerged(successful, yearsFolder);
    } else if mergeError.Some? {
      outcome := MergeFailed(successful, mergeError.value, yearsFolder);
    } else {
      outcome := Combined(successful, totalYears, mergedFile, yearsFolder, failed, datasets);
    }
  }

  /** What `_export_all_netcdf_enhanced` ends with for the years
      `start..end`, with `dir` the export directory `_get_export_path` gives,
      `mergedFile` the path it gives for the multi-year file and
      `driveFolder` the Google Drive folder of the fallback. `mergeError`
      stands for an exception from the concatenation or the write of the
      multi-year file, which are attempted only when at least one year file
      opened. */
  function NetCdfAllOutcome(dir: string, mergedFile: string, driveFolder: string, start: int, end: int,
                            base: string, attempt: int -> YearAttempt, openOk: int -> bool,
                            mergeError: Option<string>, hasData: int -> bool, submitOk: int -> bool): NetCdfOutcome
  {
    var years := Years(start, end);
    var yearsFolder := JoinTwo(dir, base + "_years");
    var s := CountExported(years, attempt);
    var mergedYears := Opened(SavedFiles(years, attempt, yearsFolder, base), openOk);
    if s == 0 then
      var tasks := CountSubmitted(years, hasData, submitOk);
      SentToDrive(tasks, DriveTasksMessage("NetCDF", tasks, driveFolder))
    else if |mergedYears| == 0 then NotMerged(s, yearsFolder)
    else if mergeError.Some? then MergeFailed(s, mergeError.value, yearsFolder)
    else Combined(s, end - start + 1, mergedFile, yearsFolder, |years| - s, mergedYears)
  }

  /** The directory the year folder goes into: `os.path.dirname` of the
      `.nc` path `_get_export_path` gives. */
  function NetCdfDir(root: string, folder: string, base: string): string {
    ExportFileDir(root, NetCDF, folder, base + "." + "nc")
  }

  /** `_export_all_netcdf_to_drive` uses the folder name as given. */
  function NetCdfDriveFolder(folder: string, base: string): string {
    ExportRoot + "/" + folder + "/" + base
  }

  /** `_export_all_netcdf_enhanced`. Both `_get_export_path` calls are
      made up front; they only compute paths. */
  method ExportAllNetCdf(root: string, state: AnalysisState, base: string, folder: string,
                         attempt: int -> YearAttempt, openOk: int -> bool, mergeError: Option<string>,
                         hasData: int -> bool, submitOk: int -> bool)
    returns (outcome: NetCdfOutcome, files: seq<(int, string)>)
    ensures state.NoState? ==> outcome == NoStateError
    ensures state.State? ==>
      var (start, end) := TimeRange(state);
      var dir := NetCdfDir(root, folder, base);
      && files == SavedFiles(Years(start, end), attempt, JoinTwo(dir, base + "_years"), base)
      && outcome == NetCdfAllOutcome(dir, JoinTwo(ExportDir(root, NetCDF, folder), base + "_all_years.nc"),
                                     NetCdfDriveFolder(folder, base),
                                     start, end, base, attempt, openOk, mergeError, hasData, submitOk)
  {
    if state.NoState? {
      return NoStateError, [];
    }
    var (start, end) := TimeRange(state);
    var localFolder, tempPath := GetExportFileDir(root, NetCDF, folder, base, "nc");
    var mergedDir, mergedFile := GetExportPath(root, NetCDF, folder, base + "_all_years", "nc");
    assert base + "_all_years" + "." + "nc" == base + "_all_years.nc";
    outcome, files := ExportYearRange(localFolder, mergedFile, NetCdfDriveFolder(folder, base), start, end, base,
                                      attempt, openOk, mergeError, hasData, submitOk);
  }

  /** The body of `_export_all_netcdf_enhanced` once the range and the paths
      are known. */
  method ExportYearRange(dir: string, mergedFile: string, driveFolder: string, start: int, end: int,
                         base: string, attempt: int -> YearAttempt, openOk: int -> bool,
                         mergeError: Option<string>, hasData: int -> bool, submitOk: int -> bool)
    returns (outcome: NetCdfOutcome, files: seq<(int, string)>)
    ensures files == SavedFiles(Years(start, end), attempt, JoinTwo(dir, base + "_years"), base)
    ensures outcome == NetCdfAllOutcome(dir, mergedFile, driveFolder, start, end, base,
                                        attempt, openOk, mergeError, hasData, submitOk)
  {
    var yearsFolder := JoinTwo(dir, base + "_years");
    var successful, failed;
    files, successful, failed := SaveYears(Years(start, end), attempt, yearsFolder, base);
    if successful > 0 {
      outcome := MergeYears(files, openOk, mergeError, successful, failed, end - start + 1, mergedFile, yearsFolder);
    } else {
      var tasks := SubmitYears(Years(start, end), hasData, submitOk);
      outcome := SentToDrive(tasks, DriveTasksMessage("NetCDF", tasks, driveFolder));
    }
  }

  /** A combined file is written only when some year was saved and opened;
      it holds years of the range, in ascending order, each saved and opened,
      and the counts add up to the number of years. */
  lemma NetCdfCombinedFacts(dir: string, mergedFile: string, driveFolder: string, start: int, end: int,
                            base: string, attempt: int -> YearAttempt, openOk: int -> bool,
                            mergeError: Option<string>, hasData: int -> bool, submitOk: int -> bool)
    ensures var outcome := NetCdfAllOutcome(dir, mergedFile, driveFolder, start, end, base,
                                            attempt, openOk, mergeError, hasData, submitOk);
      outcome.Combined? ==>
        && mergeError.None?
        && 0 < |outcome.mergedYears| <= outcome.successful
        && outcome.successful + outcome.failed == outcome.totalYears
        && (forall k :: 0 <= k < |outcome.mergedYears| ==>
              var y := outcome.mergedYears[k];
              start <= y <= end && attempt(y) == Exported && openOk(y))
        && (forall i, j :: 0 <= i < j < |outcome.mergedYears| ==> outcome.mergedYears[i] < outcome.mergedYears[j])
  {
    MergedYearsFacts(start, end, attempt, JoinTwo(dir, base + "_years"), base, openOk);
  }

  /** The years a multi-year file would hold. */
  lemma MergedYearsFacts(start: int, end: int, attempt: int -> YearAttempt, yearsFolder: string, base: string,
                         openOk: int -> bool)
    ensures var merged := Opened(SavedFiles(Years(start, end), attempt, yearsFolder, base), openOk);
      && |merged| <= CountExported(Years(start, end), attempt)
      && (forall k :: 0 <= k < |merged| ==> start <= merged[k] <= end && attempt(merged[k]) == Exported && openOk(merged[k]))
      && (forall i, j :: 0 <= i < j < |merged| ==> merged[i] < merged[j])
  {
    var years := Years(start, end);
    var files := SavedFiles(years, attempt, yearsFolder, base);
    SavedFilesFacts(years, attempt, yearsFolder, base);
    OpenedFacts(files, openOk);
    OpenedLength(files, openOk);
    var merged := Opened(files, openOk);
    forall k | 0 <= k < |merged|
      ensures start <= merged[k] <= end && attempt(merged[k]) == Exported && openOk(merged[k])
    {
      var m :| 0 <= m < |files| && files[m].0 == merged[k];
      InYears(start, end, files[m].0);
    }
  }

  lemma InYears(start: int, end: int, y: int)
    requires y in Years(start, end)
    ensures start <= y <= end
  {
    var ys := Years(start, end);
    var i :| 0 <= i < |ys| && ys[i] == y;
  }

  lemma {:induction false} OpenedLength(files: seq<(int, string)>, openOk: int -> bool)
    ensures |Opened(files, openOk)| <= |files|
  {
    if |files| > 0 {
      OpenedLength(files[..|files| - 1], openOk);
    }
  }

  /** The status text of an all-years NetCDF outcome; `sizeText` stands for
      the merged file's size in megabytes, formatted with two decimals. */
  function NetCdfMessage(outcome: NetCdfOutcome, sizeText: string): string {
    match outcome
    case NoStateError => NoStateMessage
    case Combined(s, total, merged, yearsFolder, failed, _) =>
      "NetCDF export completed. " + NatToString(s) + " of " + IntToString(total) + " years exported. "
        + "Multi-year file saved to: " + merged + " (" + sizeText + " MB). "
        + "Individual year files available in " + yearsFolder + "."
        + (if failed > 0 then " " + NatToString(failed) + " years failed to export." else "")
    case NotMerged(s, yearsFolder) =>
      PartialHead(s) + ". Files available in " + yearsFolder + "."
    case MergeFailed(s, error, yearsFolder) =>
      PartialHead(s) + " due to error: " + error + ". Files available in " + yearsFolder + "."
    case SentToDrive(_, message) => message
  }

  /** The common opening of both partial-completion texts. */
  function PartialHead(successful: nat): string {
    "NetCDF export partially completed. " + NatToString(successful)
      + " individual year files created but could not be merged"
  }

  /** Naming what failed with "could not" makes the text an error, whatever
      follows. */
  lemma PartialHeadIsError(successful: nat, post: string)
    ensures Classify(PartialHead(successful) + post) == Error
  {
    var p, w, r := " individual year files created but ", "could not", " be merged";
    assert p + w + r == " individual year files created but could not be merged";
    var pre := "NetCDF export partially completed. " + NatToString(successful) + p;
    assert PartialHead(successful) + post == pre + w + (r + post);
    WordRaisesSeverity(pre, w, r + post);
  }

  /** Year files that were saved but not merged are reported in words the
      status display styles as an error. */
  lemma NotMergedIsError(successful: nat, yearsFolder: string, sizeText: string)
    ensures Classify(NetCdfMessage(NotMerged(successful, yearsFolder), sizeText)) == Error
  {
    var place := ". Files available in " + yearsFolder + ".";
    assert NetCdfMessage(NotMerged(successful, yearsFolder), sizeText) == PartialHead(successful) + place;
    PartialHeadIsError(successful, place);
  }

  lemma MergeFailedIsError(successful: nat, error: string, yearsFolder: string, sizeText: string)
    ensures Classify(NetCdfMessage(MergeFailed(successful, error, yearsFolder), sizeText)) == Error
  {
    var post := " due to error: " + error + ". Files available in " + yearsFolder + ".";
    assert NetCdfMessage(MergeFailed(successful, error, yearsFolder), sizeText) == PartialHead(successful) + post;
    PartialHeadIsError(successful, post);
  }

  /** The merged file holds the opened years in ascending order, each a year
      of the range whose file was saved. */
  lemma {:induction false} OpenedFacts(files: seq<(int, string)>, openOk: int -> bool)
    requires forall i, j :: 0 <= i < j < |files| ==> files[i].0 < files[j].0
    ensures forall k :: 0 <= k < |Opened(files, openOk)| ==>
      openOk(Opened(files, openOk)[k]) && exists m :: 0 <= m < |files| && files[m].0 == Opened(files, openOk)[k]
    ensures forall i, j :: 0 <= i < j < |Opened(files, openOk)| ==> Opened(files, openOk)[i] < Opened(files, openOk)[j]
  {
    if |files| > 0 {
      var init := files[..|files| - 1];
      var last := files[|files| - 1];
      assert forall i, j :: 0 <= i < j < |init| ==> init[i].0 < init[j].0 by {
        forall i, j | 0 <= i < j < |init| ensures init[i].0 < init[j].0 {
          assert init[i] == files[i] && init[j] == files[j];
        }
      }
      OpenedFacts(init, openOk);
      var prev := Opened(init, openOk);
      forall k | 0 <= k < |prev|
        ensures prev[k] < last.0 && exists m :: 0 <= m < |files| && files[m].0 == prev[k]
      {
        var m :| 0 <= m < |init| && init[m].0 == prev[k];
        assert files[m] == init[m];
      }
      var all := Opened(files, openOk);
      assert all == prev + (if openOk(last.0) then [last.0] else []);
      forall k | 0 <= k < |all|
        ensures openOk(all[k]) && exists m :: 0 <= m < |files| && files[m].0 == all[k]
      {
        if k == |prev| {
          assert files[|files| - 1].0 == all[k];
        } else {
          assert all[k] == prev[k];
        }
      }
    }
  }
}
