# Climate Index Visualizer: how exports, catalogues, the index registry and regions behave

This project models the decision-making core of the Climate Index
Visualizer. That is a notebook and command-line tool that computes annual
climate indices with Google Earth Engine and exports them. The model covers
four modules:

- `exporter.py`:
  - where export files go (`_get_export_path` and its two variants);
  - how a single GeoTIFF is routed: the size estimate decides between a
    direct download and a 2 x 2 spatial chunking, and a Google Drive task is
    the fallback;
  - how CSV tables are split into parts with an index file;
  - how the all-years GeoTIFF and NetCDF exports count their years, merge
    them and fall back to Drive;
  - how a status message is given its error, warning, success or info
    styling.
- `data_manager.py`: the dataset catalogue, with its built-in datasets and
  custom ones, lookups, date-range validation, and the saving of custom
  datasets.
- `analysis_engine.py`: the registry of climate indices, the validation of
  `analyze` and the assembly of its result, index listing, and custom
  indices.
- `geometry_manager.py`: the per-panel store of geometries and bounding
  boxes that the two analysis panels read.

Earth Engine, geemap, rasterio, xarray, pandas and the file system are not
modelled. What they report is an input: which years have data, which
downloads produce a file, whether a merge raises, the band dimensions, the
bounds ring.

Python dicts whose order can be seen are modelled as a key sequence beside a
map (module `OrderedDicts`): the dataset catalogue and the index registry.
Assigning to an existing key keeps its place, and a new key goes last.
Objects whose fields the source updates are classes:
`DataCatalog.DataManager`, `Analysis.AnalysisEngine` and
`Regions.GeometryManager`. The loops of the source are methods with loop
invariants, each proved against a specification function.

Where the code and its description disagree, the model follows the code:

- The all-years Drive fallbacks start a task only for a year that has an
  image (exporter.py:1111-1131). So the task count is the number of years
  with data, not the number of years.
- `_get_export_path` replaces "unknown" only in the first two folder
  segments (exporter.py:1720-1742). A later segment called "unknown" stays
  in the path.
- The all-years Drive GeoTIFF export applies no "unknown" rule to the
  second segment. `ExportPaths.DriveFolderAgrees` states exactly when it
  agrees with `_get_export_path`.
- A second `set_bounds` on a panel that already has a geometry stores the
  new box but keeps the old geometry (geometry_manager.py:473-475).
  `Regions.SetBoundsFacts` states this as written.
- The all-years CSV export writes its part files into the export directory
  itself, not into a `_chunks` sub-directory. The reason is that it takes
  the directory of a path ending in `_chunks.` (exporter.py:1213-1214).
- The exports that create sub-folders take `os.path.dirname` of the file path
  `_get_export_path` returns (exporter.py:479, 865, 1174, 1214, 1290). That
  is the export directory only while the export name holds no '/'. A name
  built from a custom dataset key such as "my/data" nests the sub-folders one
  level deeper. The model computes the `dirname` as the source does.

## Model

| member | source | states |
|---|---|---|
| ExportPaths.NormalizeParts | exporter.py:1718-1756 | the in-place rewriting of `parts` ends with exactly the normalised segment list `NormalizeFolder(format, folder)` |
| ExportPaths.AppendNonEmpty | exporter.py:1760-1763 | the path parts are the root and format followed by exactly the non-empty segments, in their order |
| ExportPaths.GetExportPath | exporter.py:1704-1773 | the directory is the root joined with the format name and the non-empty normalised segments; the file is that directory joined with `name.ext` |
| ExportPaths.NonEmptyFilters | exporter.py:1761-1763 | the `if part:` filter leaves only non-empty segments, brings in no separator, and keeps a list without empty segments unchanged |
| ExportPaths.NonEmptySnoc | exporter.py:1761-1763 | filtering a list with one more segment filters the list and then keeps that segment only if it is non-empty |
| ExportPaths.NormalizeFolderWellFormed | exporter.py:1718-1753 | the result has at least two segments; the first is one of ERA5, PRISM, DAYMET, general, Custom; neither of the first two is "unknown" in any case |
| ExportPaths.FixSourceHead | exporter.py:1721-1732 | after the first-segment rule the head is a standard directory; a folder newly nested under Custom has exactly two segments and its second is not "unknown" |
| ExportPaths.NormalizeFolderSource | exporter.py:1721-1732 | the four cases of the first segment: "unknown" becomes "general", a standard directory stays, a catalogue source in another case is upper-cased, anything else becomes `["Custom", seg0]` with later segments dropped |
| ExportPaths.AbsoluteFolderBecomesCustom | exporter.py:1718-1732 | a folder that starts with '/' normalises to `["Custom", ""]`, which the filter reduces to the Custom directory alone |
| ExportPaths.NormalizeFolderCategory | exporter.py:1734-1753 | a single segment gets the format's default category appended; an "unknown" second segment becomes that default; any other second segment stays |
| ExportPaths.NormalizeFolderNoSlash | exporter.py:1718-1756 | no normalised segment contains a separator |
| ExportPaths.NormalizeFolderIdempotent | exporter.py:1718-1756 | normalising the re-joined folder name again gives the same segments |
| ExportPaths.ExportSegmentsClean | exporter.py:1760-1765 | the path segments under the root are non-empty and separator-free, at least two, starting with the format name and then the normalised source |
| ExportPaths.RootedJoin | exporter.py:1765-1771 | under a root that does not end in '/', `os.path.join` of the segments and then the file name is plain '/'-joining |
| ExportPaths.DriveFolderAgrees | exporter.py:1076-1102 | the Drive folder rule of the all-years GeoTIFF export equals `_get_export_path`'s normalisation exactly when the fixed folder has one segment or a second that is not "unknown" |
| ExportPaths.GetExportFileDir | exporter.py:478-479 | the file path of `_get_export_path` and its `os.path.dirname`, the directory the exports create sub-folders in |
| ExportPaths.ExportFileDirPlain | exporter.py:864-865 | for a file name without '/', the `dirname` of the export path is `_get_export_path`'s directory |
| ExportPaths.ExportFileDirNested | exporter.py:864-868 | for a file name `sub/name`, the `dirname` is the export directory joined with `sub`, and so differs from the export directory |
| ExportPaths.ExportFileDirSameParent | exporter.py:1173-1214 | two file names that share a stem and differ only in a separator-free suffix have the same `dirname` |
| ExportPaths.ReplaceUnknownRemovesAll | exporter.py:172-173 | after the replacement no "unknown" occurs anywhere in the folder, and a folder without one is unchanged |
| Text.LowerIdempotent | exporter.py:1674 | lower-casing twice is lower-casing once |
| Text.LowerAppend | exporter.py:1674 | lower-casing distributes over concatenation |
| Text.Split | exporter.py:1718 | `split('/')` gives at least one segment and no segment contains '/' |
| Text.JoinSplit | exporter.py:1756 | joining the split segments with '/' gives the folder name back |
| Text.SplitJoin | exporter.py:1756 | splitting the joined separator-free segments gives the segments back |
| Text.PathJoinIsJoin | exporter.py:1765 | `os.path.join` of non-empty, separator-free segments after a first part not ending in '/' is '/'-joining |
| Text.PathJoinKeepsPrefix | exporter.py:1765 | `os.path.join` keeps its first argument as a prefix |
| Text.PathJoinEndsClean | exporter.py:1765 | `os.path.join` of non-empty, separator-free parts is non-empty and does not end in '/' |
| Text.DirnameOfChild | exporter.py:479 | `os.path.dirname(os.path.join(d, name))` is `d` for a separator-free name and a `d` not ending in '/' |
| Text.DirnameSameParent | exporter.py:1214 | paths that differ only after their last separator have the same `dirname` |
| Text.ReplaceRemovesAll | exporter.py:173 | `str.replace` with a replacement that shares no first character with the pattern leaves no occurrence of the pattern |
| Numerals.NatToStringInjective | exporter.py:513 | different counts print differently |
| Numerals.IntToStringInjective | exporter.py:1029 | different integers, negative ones included, print differently |
| Sequences.PartCountIsCeiling | exporter.py:498 | the part count is the ceiling of `n/size` |
| Sequences.PartsPartition | exporter.py:505-510 | the parts concatenate to the rows in order, and each holds between one and `size` rows |
| Sequences.PartsPrefix | exporter.py:505-510 | the first k parts concatenate to the first `min(k*size, n)` rows |
| StatusSeverity.AnyContainedIff | exporter.py:1674-1678 | `any(word in text ...)` holds exactly when some listed word occurs in the text |
| StatusSeverity.ClassifyCases | exporter.py:1673-1679 | a message is an error iff its lower-cased text contains an error word; a warning iff it contains no error word and some warning word; a success iff it contains neither and some success word; otherwise info |
| StatusSeverity.ClassifyMonotone | exporter.py:1673-1679 | adding text before or after a message never lowers its severity |
| StatusSeverity.MentionRaisesSeverity | exporter.py:1674-1678 | a message that mentions an error word is an error, a warning word makes it at least a warning, and a success word at least a success |
| StatusSeverity.WordRaisesSeverity | exporter.py:1674-1678 | the same for a message built as text, a listed word and more text |
| GeoTiffExport.EstimateSize | exporter.py:186-205 | the accumulation loop over the bands gives exactly the size estimate: the band total, four pixels per km² without bands, or none when anything raises |
| GeoTiffExport.BandsTotalDefined | exporter.py:191-194 | the band total exists iff every band has at least two dimensions, missing dimensions counting as `[0, 0]` |
| GeoTiffExport.BandsTotalNonNegative | exporter.py:191-194 | with non-negative dimensions the band total is non-negative |
| GeoTiffExport.BandsTotalCoversEach | exporter.py:191-194 | with non-negative dimensions each band's pixels are at most the total |
| GeoTiffExport.ChunkingForcedByBand | exporter.py:202-205 | one band over 5,000,000 pixels, or one whose dimensions cannot be read, sends the image to chunking |
| GeoTiffExport.SmallImageExportedDirectly | exporter.py:208-258 | an image under the limit is saved to the local file when the direct download works, never to chunking; otherwise Drive is called from the inner handler and again from the outer one, both with the folder holding no "unknown", and the export raises after two calls exactly when both raise |
| GeoTiffExport.DriveChainFacts | exporter.py:424-463 | a chain of Drive calls, each made from the previous one's handler, either starts a task or raises, and raises exactly when every call raises, after all of them |
| GeoTiffExport.DriveChainFirstStart | exporter.py:424-463 | the chain ends with its first call that starts, in that call's folder |
| GeoTiffExport.ChunkedDriveRetries | exporter.py:412-423 | a large image with no chunk file makes up to three Drive calls, two with the local folder and the last, from the outer handler at exporter.py:253-258, with the fixed folder; one whose sweep raises first makes up to two; it raises exactly when every call raises |
| GeoTiffExport.ExportGeoTiff | exporter.py:165-258 | the export ends in the outcome the replacement, the estimate and the routing determine, including the Drive retries of both handlers and the `DriveRaised` outcome when every call raises; a chunked export that merges reports the file the source writes, `root/GeoTIFF/Custom/<name>.tif` |
| GeoTiffExport.RingBoundsContain | exporter.py:281-284 | every point of the bounds ring lies in the min/max box |
| GeoTiffExport.ChunkGridEdges | exporter.py:296-313 | neighbouring chunks share their edge, and the outer chunks end exactly on the box |
| GeoTiffExport.ChunksCover | exporter.py:308-313 | every point of the box lies in some chunk |
| GeoTiffExport.ChunksDisjoint | exporter.py:308-313 | two different chunks of a box with positive extent share no interior point |
| GeoTiffExport.ChunkAreasSum | exporter.py:296-313 | the four chunk areas add up to the area of the box |
| GeoTiffExport.ChunkFilesDistinct | exporter.py:325 | different grid cells get different chunk files |
| GeoTiffExport.SweepChunks | exporter.py:304-351 | the nested sweep lists the four files and boxes in the order (0,0), (0,1), (1,0), (1,1), and counts exactly the chunks whose download worked |
| GeoTiffExport.ChunkedLocalExport | exporter.py:260-423 | the chunked export ends in `ChunkedOutcome`, whose merged file is the path the source computes at exporter.py:359, whose Drive fallback makes one call when the sweep cannot start and two when no chunk file was written, and with a non-empty ring it has swept the four chunks in grid order |
| GeoTiffExport.ChunkedOutcomeCases | exporter.py:354-423 | a Drive call (started, in the local folder, or raised) iff no chunk completed; a merged file iff some chunk completed and the merge worked; otherwise a partial report of between 1 and 4 completed chunks in the chunk directory |
| GeoTiffExport.PartialMessageIsWarning | exporter.py:410 | the partial-chunks report is styled at least as a warning, whatever the directory is called |
| GeoTiffExport.MergedPathAsWrittenIgnoresFolder | exporter.py:359 | as written, under an absolute export root every merged file lands in `root/GeoTIFF/Custom`, whatever folder was asked for |
| GeoTiffExport.MergedPathAsWrittenCollides | exporter.py:359 | as written, an ERA5 index and a PRISM index exported under the same name get the same merged file |
| GeoTiffExport.MergedPathInLocalFolder | exporter.py:359 | corrected: the merged file is the local folder, a separator, and `name.tif` |
| GeoTiffExport.MergedMatchesDirect | exporter.py:176-178 | corrected: a merged image goes to the same file a direct export of it would |
| GeoTiffExport.ChunkedMergeLandsInCustom | exporter.py:354-401 | as written, a large image whose chunks merge is reported at `root/GeoTIFF/Custom/<name>.tif` for every folder; corrected, at the file a direct export writes |
| GeoTiffExport.ChunkedCorrectedDiffersOnlyInPath | exporter.py:354-416 | the as-written and corrected chunked exports agree on every outcome except the merged file's path |
| CsvExport.SplitRows | exporter.py:497-510 | the part loop produces exactly the parts `Parts(rows, max_rows_csv)` |
| CsvExport.PartFileNamesDistinct | exporter.py:513 | different parts get different file names |
| CsvExport.IndexMatchesParts | exporter.py:522-526 | index row i states the size of part i and names its file `_part_{i+1}_of_{N}.csv` |
| CsvExport.IndexRowRows | exporter.py:524 | index row i reports `min(max, n - i*max)` rows |
| CsvExport.IndexRowsSum | exporter.py:524 | the index rows add up to the number of rows of the table |
| CsvExport.IndexForTwoAndAHalfMillion | exporter.py:522-526 | 2,500,000 rows give three parts of 1,000,000, 1,000,000 and 500,000 rows, the last named `part_3_of_3` |
| CsvExport.ErrorMessagesAreErrors | exporter.py:473-549 | the no-data and failure messages are styled as errors |
| CsvExport.WrittenMessagesSucceed | exporter.py:531-543 | the single-file message with its ` (x.xx MB)` size and the chunked completion message are styled at least as successes |
| CsvExport.CompleteMessageSucceeds | exporter.py:1674-1677 | any message opening with "CSV export complete" is styled at least as a success |
| CsvExport.ExportCsv | exporter.py:465-549 | an empty table is an error; a write error is reported as a failure; at most `max_rows_csv` rows are one file in the export directory; the single file's outcome carries the size text of its message; more are `ceil(n/max)` parts in `<name>_chunks` with the index, both in `os.path.dirname` of the file path |
| CsvExport.NoDuplicatesAddColumn | exporter.py:1190-1192 | adding a column (assigning if present) keeps the column names distinct |
| CsvExport.DataColumnsFacts | exporter.py:1197 | the data columns are exactly the columns other than dataset, parameter and index, and stay distinct |
| CsvExport.DataColumnsInOrder | exporter.py:1197 | the filter keeps the columns' relative order |
| CsvExport.ReorderColumnsFacts | exporter.py:1195-1198 | the reordered columns start with dataset, parameter, index; they hold the original columns and the metadata ones; no metadata column comes later; no duplicate appears |
| CsvExport.ExportAllCsv | exporter.py:1149-1259 | the same cases as the single CSV export, with the metadata values taken from the panel, then its state, then the defaults; the `_temporal` file name; and the part files beside the index, in `os.path.dirname` of the `_temporal` file's path, whatever the base name |
| CsvExport.ChunkDirIsIndexDir | exporter.py:1173-1214 | the `dirname` of the `_chunks.` path and of the `_temporal.csv` path agree for every base name |
| BatchExport.Years | exporter.py:945 | `range(start, end + 1)` has `end - start + 1` years (none when end < start), the k-th being `start + k` |
| BatchExport.CountExportedAppend | exporter.py:959-963 | the saved count of two runs of years is the sum of their counts |
| BatchExport.BatchesCoverYears | exporter.py:948-950 | the batches concatenate to the years in order, each with one to five years |
| BatchExport.CountYears | exporter.py:975-1025 | every year adds one to exactly one counter: the successes grow by the saved years, the failures by the rest |
| BatchExport.CountBatches | exporter.py:943-967 | the pool path counts exactly the years of the batches before the one that raised, and reports whether one raised |
| BatchExport.CountAllYearsAsWritten | exporter.py:943-1025 | as written: the sequential fallback adds its counts to those the pool path already made |
| BatchExport.CountsAsWrittenDoubleCount | exporter.py:969-975 | as written: ten years that all export, with the pool raising in the second batch, report 15 successes |
| BatchExport.CountAllYears | exporter.py:943-1025 | corrected: the successes are the saved years, and successes and failures add up to the number of years, whichever batch the pool raised in |
| BatchExport.SubmittedOnlyWithData | exporter.py:1108-1131 | tasks are started only for years with data, and for each of them when no submission raises |
| BatchExport.SubmitYears | exporter.py:1105-1131 | the task loop counts exactly the years with data whose task started |
| BatchExport.FixDriveFolder | exporter.py:1076-1099 | the in-place fix of the Drive folder gives exactly the joined `DriveFolderParts` |
| BatchExport.ExportAllGeoTiffToDrive | exporter.py:1048-1147 | no state is an error; otherwise the task count of the range and the message naming it and the fixed Drive folder |
| BatchExport.ExportAllNetCdfToDrive | exporter.py:1521-1595 | the same with the folder name used as given |
| BatchExport.SeriesFolderPlacement | exporter.py:864-868 | the time-series folder is the export directory joined with the base name for a base without '/'; for a base `sub/rest` it sits under `sub` as well, so `sub` appears twice |
| BatchExport.SummaryWithFailuresIsError | exporter.py:1029-1032 | a summary that reports failed years is styled as an error, although files were saved |
| BatchExport.ExportAllGeoTiff | exporter.py:835-1046 | no state is an error; otherwise the counts are the as-written ones (the pool's earlier batches stay counted after a pool exception), and some success is reported exactly when some year was saved; with a success the summary names the time-series folder and no Drive task starts; with none, the Drive fallback's tasks and message |
| BatchExport.PoolCountedIsPrefix | exporter.py:943-975 | the years the pool counted are a prefix of the range, all of it when the pool never raised, so they hold no more saved years than the range |
| BatchExport.AsWrittenCounts | exporter.py:943-1025 | as written: without a pool exception the counts are the saved and unsaved years; after one, the pool's years are counted twice; either way a success is reported iff some year was saved |
| BatchExport.SaveYears | exporter.py:1301-1431 | the year loop lists exactly the saved years' files and counts each year once |
| BatchExport.SavedFilesFacts | exporter.py:1306-1440 | one file per saved year, each named after its year in the years folder, already in ascending year order (so the sort changes nothing) |
| BatchExport.OpenDatasets | exporter.py:1446-1459 | the open loop keeps exactly the files that open, in file order |
| BatchExport.OpenedFacts | exporter.py:1446-1459 | the opened years open, come from the saved files, and stay in ascending order |
| BatchExport.MergeYears | exporter.py:1434-1505 | no opened file means not merged; an exception means a merge failure with its text; otherwise a combined file of the opened years |
| BatchExport.ExportYearRange | exporter.py:1293-1514 | the loop, merge and fallback end in `NetCdfAllOutcome` and list the saved files |
| BatchExport.ExportAllNetCdf | exporter.py:1261-1519 | no state is an error; otherwise the outcome for the years folder in `os.path.dirname` of the `.nc` path, the `_all_years.nc` file and the Drive folder that `_get_export_path` and the fallback use |
| BatchExport.MergedYearsFacts | exporter.py:1439-1463 | the merged years are years of the range, saved and opened, ascending, and no more than the saved ones |
| BatchExport.NetCdfCombinedFacts | exporter.py:1461-1494 | a combined file exists only without a merge error; it holds 1 to `successful` years of the range, each saved and opened, ascending; successes and failures add up to the number of years |
| BatchExport.PartialHeadIsError | exporter.py:1496-1505 | the partial-completion opening says "could not" and so styles the whole message as an error |
| BatchExport.NotMergedIsError | exporter.py:1496-1499 | the "could not be merged" message is styled as an error |
| BatchExport.MergeFailedIsError | exporter.py:1502-1505 | the "could not be merged due to error" message is styled as an error |
| OrderedDicts.Put | data_manager.py:117 | the key order after `d[k] = v` holds k and exactly the earlier keys |
| OrderedDicts.PutIndexes | data_manager.py:117 | an assignment keeps the keys distinct and listing the dict, keeps every earlier key in place, and adds one key exactly when it is new |
| DataCatalog.DefaultsIndexed | data_manager.py:41-83 | the built-in catalogue is ERA5, PRISM, DAYMET in this order, each ending in the current year |
| DataCatalog.LoadFacts | data_manager.py:85-99 | loading keeps the order valid, keeps every earlier key and dataset, and adds every entry before the first one that fails |
| DataCatalog.DataManager.constructor | data_manager.py:35-39 | the catalogue starts with the built-ins, then the custom file's entries loaded in order |
| DataCatalog.DataManager.GetDatasetConfig | data_manager.py:162-178 | success iff the name is in the catalogue, with its configuration; otherwise "Dataset not found: name" |
| DataCatalog.DataManager.ListDatasets | data_manager.py:180-187 | every catalogue name once, the built-ins first |
| DataCatalog.DataManager.GetDatasetInfo | data_manager.py:189-210 | the error for an unknown name, otherwise the record's id, year range, names, description, coverage and resolutions |
| DataCatalog.DataManager.GetVariableKey | data_manager.py:239-261 | the unknown-dataset error first; then precip, tmax, tmin map to the configuration's keys, and any other type is "Unknown variable type" |
| DataCatalog.DataManager.GetConversionFactor | data_manager.py:263-281 | the unknown-dataset error first; then precip gives the precipitation factor, temp/tmax/tmin the temperature one, anything else the error |
| DataCatalog.DataManager.ValidateDateRange | data_manager.py:283-312 | raises exactly for an unknown dataset, with its message |
| DataCatalog.ValidateDateRangeIff | data_manager.py:295-312 | for a known dataset: true iff both dates parse, both years lie in the dataset's range and the start is not after the end; never an error |
| DataCatalog.LaterIsCalendarOrder | data_manager.py:307 | `datetime`'s `start > end` is the calendar order of the day numbers |
| DataCatalog.VariableKeyHasFactor | data_manager.py:239-281 | a variable with a key has a conversion factor; "temp" is the only type with a factor but no key |
| DataCatalog.NonDefaultExact | data_manager.py:133-154 | the saved entries are exactly the non-built-in datasets with their configurations, each once |
| DataCatalog.DataManager.CustomConfigs | data_manager.py:133-154 | the filter loop collects exactly `NonDefault` of the catalogue |
| DataCatalog.DataManager.AddCustomDataset | data_manager.py:101-125 | an invalid configuration changes nothing and returns false; otherwise the key is inserted or overwritten, and the result is true unless the config directory cannot be created, with the non-built-in entries saved |
| DataCatalog.AddedDatasetIsSaved | data_manager.py:114-154 | an added dataset is among the saved entries exactly when its key is not built in |
| StringOrder.LexLessIrreflexive | analysis_engine.py:229 | no key sorts before itself |
| StringOrder.LexLessTransitive | analysis_engine.py:229 | the string order is transitive |
| StringOrder.LexLessTotal | analysis_engine.py:229 | of two different keys one sorts first |
| StringOrder.MinIndexIsMinimal | analysis_engine.py:229-230 | no key sorts before the one at that position |
| StringOrder.FirstTwo | analysis_engine.py:229-231 | `sorted(keys)[0]` and `[1]`: two different positions, the first holding a least key and the second a least one among the rest |
| Analysis.ParseCategoryInverse | analysis_engine.py:14-17 | `IndexCategory(s)` succeeds exactly for the two values and gives back the category whose value it is |
| Analysis.BuiltInsIndexed | analysis_engine.py:37-113 | the registry lists its eight indices once each, in declaration order, each under its own name |
| Analysis.InCategoryExact | analysis_engine.py:411-414 | the filtered list holds exactly the registry names of the category, is a subsequence of the registry, and repeats no name when the registry does not |
| Analysis.CategoriesPartition | analysis_engine.py:411-414 | every index is in exactly one of the two categories' lists |
| Analysis.CustomIndexInfo | analysis_engine.py:429-442 | a record exists iff the category (default Precipitation) is valid; it carries the name, that category, and each given field or its default: description "", units "", daily True, range 0 to 100, the default palette |
| Analysis.InitialVis | analysis_engine.py:163-168 | the initial ranges come from the record; the palette is the record's if non-empty and the default otherwise, so it is never empty; opacity 0.8 |
| Analysis.TemporalDataFacts | analysis_engine.py:171-209 | the series holds years of the range, ascending, each with a successful calculation and its mean; every such year with a value is in it |
| Analysis.Keys | analysis_engine.py:226 | `list(stats.keys())` in order |
| Analysis.PercentileOverrideIff | analysis_engine.py:216-238 | the override applies iff there are at least two keys and both values at the two least keys are present, and then it is those two values |
| Analysis.AnalysisEngine.constructor | analysis_engine.py:115-122 | a new engine sees the eight built-in indices |
| Analysis.AnalysisEngine.GetIndexInfo | analysis_engine.py:370-399 | "Unknown index" exactly for a missing name; otherwise all eight fields: the record's name, category value, description, units, daily flag, ranges and palette |
| Analysis.AnalysisEngine.ListIndices | analysis_engine.py:401-416 | no or empty category lists every name; an invalid one raises; a valid one lists exactly the names of that category, in registry order, each once |
| Analysis.AnalysisEngine.AddCustomIndex | analysis_engine.py:418-450 | false and nothing changed for an invalid category; otherwise true and the record inserted or overwritten |
| Analysis.AnalysisEngine.Analyze | analysis_engine.py:124-240 | the three validation errors in source order, success iff none applies, and the result fields: echoed inputs, the temporal series, data only from the end year, and the visualisation parameters: `InitialVis` (palette or default, opacity 0.8) with its ranges replaced by the percentile override only when data exists |
| Regions.BoundsConfig.ToList | geometry_manager.py:24-26 | four corners, in the order min lon, min lat, max lon, max lat |
| Regions.BoundsConfig.Center | geometry_manager.py:28-32 | latitude first: equidistant from both edges, and strictly inside a box with extent |
| Regions.ToListRoundTrip | geometry_manager.py:24-26 | the box and its corner list determine each other |
| Regions.BoundsKeyDiffers | geometry_manager.py:508 | a panel's bounds key never is its geometry key |
| Regions.BoundsErrorIff | geometry_manager.py:457-465 | the checks pass exactly for boxes inside the globe with positive extent, and such a box has its centre inside |
| Regions.SetBoundsFacts | geometry_manager.py:467-475 | the box is stored; an existing geometry is kept, otherwise the box's rectangle is stored; no other key changes; setting it again changes nothing |
| Regions.CopyFacts | geometry_manager.py:555-573 | the target gets the source's geometry, and its box when there is one; other keys are untouched; copying a panel onto itself changes nothing |
| Regions.GeometryManager.constructor | geometry_manager.py:39-44 | both dicts start empty |
| Regions.GeometryManager.SetBounds | geometry_manager.py:442-475 | the first failing check's message in order, with nothing stored; otherwise the storage rule |
| Regions.GeometryManager.GetGeometry | geometry_manager.py:477-493 | raises exactly when the panel has no geometry; otherwise the stored value |
| Regions.GeometryManager.GetBounds | geometry_manager.py:495-513 | raises exactly when the panel has no box; otherwise the stored value |
| Regions.GeometryManager.CopyGeometry | geometry_manager.py:535-580 | nothing happens without a source geometry; otherwise the geometry, the box if any, and the input method if any are copied |
| Regions.GeometryManager.Clear | geometry_manager.py:144-151 | exactly the panel's geometry and bounds keys are removed |
| Regions.ClearFacts | geometry_manager.py:144-151 | after clearing, both getters raise for the panel and every other key keeps its value |
| Regions.SetThenGet | geometry_manager.py:467-513 | after a successful `set_bounds` both getters succeed, `get_bounds` returns the box, and a new panel's geometry is its rectangle |

## Left out

- Earth Engine, geemap, rasterio, xarray and pandas calls are foreign code. Their results are inputs: the bands, the area, the bounds ring, which downloads leave a file, whether a merge raises, which years have data, which Drive submissions of the all-years exports start. In a single-image GeoTIFF export, which of its successive `_export_geotiff_to_drive` calls start their task is an input too (`driveOk`).
- File-system effects are I/O: `makedirs`, `exists`, `getsize`, `rmtree`, and reading and writing the custom-dataset JSON. The file's content is an input, and a failing `makedirs` of the config directory is a flag.
- DataCatalog.DataManager.AddCustomDataset: does not model a failure to write the JSON file. The source catches it and only prints a warning.
- DataCatalog.DataManager.constructor: a JSON file that does not parse is not modelled apart from a missing file. In both cases no custom dataset is loaded.
- The multiprocessing pool is concurrency. Only its accounting is modelled: the batches, and the batch in which the pool raises.
- The busy-wait for a chunk file (exporter.py:343-344) is modelled by its end. A chunk either completes or raises.
- Floating point: sizes in megabytes and their two-decimal formatting are text inputs (the `sizeText` of the CSV and NetCDF messages). The `area_km2 * 4` estimate and coordinates are exact reals.
- `os.path.normpath` is not modelled. Paths are built with a POSIX `os.path.join`.
- `datetime.now()` is a parameter (the current year of the built-in datasets). Message timestamps and NetCDF metadata attributes are left out.
- `datetime.strptime` is replaced by an already parsed, optional date. A string that does not parse is `None`.
- `get_ee_collection`, `_calculate_index` and the per-index Earth Engine formulas are Earth Engine code. A year's calculation is an input: raised, or an image with an optional mean.
- Widgets, maps, drawing controls, `process_shapefile`, `_update_bounds_ui`, and the HTML of the status widget are UI. The `current_method` entries are set only by widget creation, so they appear only as state that `copy_geometry` copies.
- Regions.GeometryManager.CopyGeometry: the `getInfo` round trip is foreign. Its failure, which the source catches after nothing was written, is not modelled.
- Case mapping is ASCII only. Python's full Unicode `lower`/`upper` is not modelled.
- `AVAILABLE_INDICES` is a class attribute shared by all engines; the model keeps it per engine.
- The single-raster NetCDF export and `export_current_view`/`export_all_data` dispatch are outside the modelled core, and so are `_get_data_for_year` and the regex extraction of saved paths. Which years have data is an input.
- GeoTiffExport.ChunkedOutcome: a chunk "completes" when its download finishes. The source's merge test (exporter.py:354) asks whether some chunk file exists. A file left behind by a download that raised would reach the partial branch with "0 of 4". The model does not cover that case, and the "between 1 and 4" of `ChunkedOutcomeCases` relies on leaving it out.
- Analysis.ParseCategory: the repr of the bad value in the enum's error text is not modelled, and the error carries the value itself.

## Findings

The exports themselves (`GeoTiffExport.ExportGeoTiff`, `BatchExport.ExportAllGeoTiff`) behave as written. The corrected definitions sit beside them, with the intended property proved.

| source | as written | input that shows it | evidently intended | confidence | as-written member | corrected member |
|---|---|---|---|---|---|---|
| exporter.py:359 | `_chunked_geotiff_local_export` receives the absolute local folder (exporter.py:211) and passes it to `_get_export_path` as a folder name, which normalises an absolute folder to `Custom` | root `/data/exports`, folders `ERA5/Consecutive Dry Days` and `PRISM/Heavy Precipitation Days`, same export name: both merged files are `/data/exports/GeoTIFF/Custom/<name>.tif` | the merged file goes into the local folder, where a direct export of the same image would go | not executed | GeoTiffExport.MergedPathAsWrittenCollides | GeoTiffExport.ChunkedMergeLandsInCustom |
| exporter.py:969-975 | the sequential fallback after a pool exception keeps the counts made by the pool's earlier batches and counts those years again | 2000-2009, every year exported, the pool raising in the second batch: 15 successes of 10 years. The text shows no way to reach this under CPython: every batch maps the same local closure `export_one_year` (exporter.py:892, 934-939), which the pool cannot pickle, so the first batch raises before anything is counted. The double count needs a pool that fails later, for instance under a start method or pool that can ship closures | the fallback starts counting from zero, so each year is counted once | not executed | BatchExport.CountsAsWrittenDoubleCount | BatchExport.CountAllYears |
