/** Where the exporter puts its files: the folder normalisation of
    `Exporter._get_export_path`, the simpler variant used by the all-years
    Google Drive export, and the whole-string "unknown" replacement used by the
    single GeoTIFF export. */
module ExportPaths {
  import opened Text

  datatype Format = GeoTIFF | CSV | NetCDF

  /** The `format_type` string, which is also the first folder under the root. */
  function FormatName(f: Format): string {
    match f
    case GeoTIFF => "GeoTIFF"
    case CSV => "CSV"
    case NetCDF => "NetCDF"
  }

  /** Source folders that are kept as they are. */
  const StandardDirs: seq<string> := ["ERA5", "PRISM", "DAYMET", "general", "Custom"]

  /** Catalogue sources that a differently cased name is mapped onto. */
  const CatalogSources: seq<string> := ["ERA5", "PRISM", "DAYMET"]

  /** Replacement for an "unknown" (or missing) second folder segment. */
  function CategoryDefault(f: Format): string {
    match f
    case GeoTIFF => "raster_data"
    case CSV => "tabular_data"
    case NetCDF => "climate_data"
  }

  predicate IsUnknown(s: string) {
    Lower(s) == "unknown"
  }

  // ---------------------------------------------------------------------------
  // The normalisation, stated step by step as functions

  /** First segment: "unknown" becomes "general"; a standard folder is kept;
      a catalogue source in another case is upper-cased; anything else is
      nested under "Custom", dropping all later segments. */
  function FixSource(parts: seq<string>): (r: seq<string>)
    requires |parts| >= 1
  {
    var p0 := if IsUnknown(parts[0]) then "general" else parts[0];
    if p0 in StandardDirs then [p0] + parts[1..]
    else if Upper(p0) in CatalogSources then [Upper(p0)] + parts[1..]
    else ["Custom", p0]
  }

  /** Second segment: "unknown" becomes the format's default category. */
  function FixCategory(f: Format, parts: seq<string>): seq<string> {
    if |parts| > 1 && IsUnknown(parts[1]) then parts[1 := CategoryDefault(f)] else parts
  }

  /** A single segment gets the format's default category appended. */
  function EnsureTwo(f: Format, parts: seq<string>): seq<string> {
    if |parts| == 1 then parts + [CategoryDefault(f)] else parts
  }

  /** The folder segments `_get_export_path` places under `root/format`. */
  function NormalizeFolder(f: Format, folder: string): seq<string> {
    var fixed := FixSource(Split(folder));
    EnsureTwo(f, FixCategory(f, fixed))
  }

  /** The segments that survive the `if part:` filter. */
  function NonEmpty(parts: seq<string>): seq<string> {
    if |parts| == 0 then []
    else if parts[0] == "" then NonEmpty(parts[1..])
    else [parts[0]] + NonEmpty(parts[1..])
  }

  /** The filter keeps exactly the non-empty segments, so it never brings in a
      separator. */
  lemma {:induction false} NonEmptyFilters(parts: seq<string>)
    ensures AllNonEmpty(NonEmpty(parts))
    ensures NoSlashAnywhere(parts) ==> NoSlashAnywhere(NonEmpty(parts))
    ensures AllNonEmpty(parts) ==> NonEmpty(parts) == parts
  {
    if |parts| > 0 {
      NonEmptyFilters(parts[1..]);
      var r := NonEmpty(parts[1..]);
      if parts[0] != "" {
        assert NonEmpty(parts) == [parts[0]] + r;
        assert forall k :: 1 <= k < |[parts[0]] + r| ==> ([parts[0]] + r)[k] == r[k - 1];
      }
    }
  }

  lemma NonEmptySnoc(parts: seq<string>, p: string)
    ensures NonEmpty(parts + [p]) == NonEmpty(parts) + (if p == "" then [] else [p])
  {
    if |parts| > 0 {
      assert (parts + [p])[1..] == parts[1..] + [p];
    } else {
      assert parts + [p] == [p];
    }
  }

  // ---------------------------------------------------------------------------
  // The method

  /** The folders placed under the root: the format, then the non-empty
      normalised segments. */
  function ExportSegments(f: Format, folder: string): seq<string> {
    [FormatName(f)] + NonEmpty(NormalizeFolder(f, folder))
  }

  /** The folder normalisation at the head of `_get_export_path`. */
  method NormalizeParts(f: Format, folder: string) returns (parts: seq<string>)
    ensures parts == NormalizeFolder(f, folder)
  {
    parts := Split(folder);
    ghost var split := parts;
    if IsUnknown(parts[0]) {
      parts := parts[0 := "general"];
    }
    ghost var p0 := parts[0];
    assert parts == [p0] + split[1..];
    if parts[0] !in StandardDirs {
      var upperPart := Upper(parts[0]);
      if upperPart in CatalogSources {
        parts := parts[0 := upperPart];
        assert parts == [Upper(p0)] + split[1..];
      } else {
        parts := ["Custom", parts[0]];
      }
    }
    assert parts == FixSource(split);
    if |parts| > 1 {
      if IsUnknown(parts[1]) {
        parts := parts[1 := CategoryDefault(f)];
      }
    }
    if |parts| == 1 {
      parts := parts + [CategoryDefault(f)];
    }
  }

  /** `_get_export_path(format_type, folder_name, export_name, extension)`,
      returning the directory it creates as well as the file path in it
      (the directory creation itself is not modelled). */
  method GetExportPath(root: string, f: Format, folder: string, name: string, ext: string)
    returns (dir: string, path: string)
    ensures dir == PathJoin(root, ExportSegments(f, folder))
    ensures path == JoinTwo(dir, name + "." + ext)
  {
    var parts := NormalizeParts(f, folder);
    var pathParts := AppendNonEmpty([root, FormatName(f)], parts);
    ghost var segs := ExportSegments(f, folder);
    assert pathParts == [root] + segs;
    assert pathParts[0] == root && pathParts[1..] == segs;
    dir := PathJoin(pathParts[0], pathParts[1..]);
    path := JoinTwo(dir, name + "." + ext);
  }

  /** `_get_export_path`'s directory for a format and folder. */
  function ExportDir(root: string, f: Format, folder: string): string {
    PathJoin(root, ExportSegments(f, folder))
  }

  /** `os.path.dirname` of the path `_get_export_path` returns for the file
      `fileName`, which is where the exports create their sub-folders. */
  function ExportFileDir(root: string, f: Format, folder: string, fileName: string): string {
    Dirname(JoinTwo(ExportDir(root, f, folder), fileName))
  }

  /** `_get_export_path` followed by `os.path.dirname` of its result, as the
      exports call them: the parent of the file and the file. */
  method GetExportFileDir(root: string, f: Format, folder: string, name: string, ext: string)
    returns (dir: string, path: string)
    ensures path == JoinTwo(ExportDir(root, f, folder), name + "." + ext)
    ensures dir == ExportFileDir(root, f, folder, name + "." + ext)
  {
    var exportDir;
    exportDir, path := GetExportPath(root, f, folder, name, ext);
    dir := Dirname(path);
  }

  /** The export directory is non-empty and does not end in '/'. */
  lemma ExportDirClean(root: string, f: Format, folder: string)
    ensures var d := ExportDir(root, f, folder); |d| > 0 && d[|d| - 1] != '/'
  {
    ExportSegmentsClean(f, folder);
    PathJoinEndsClean(root, ExportSegments(f, folder));
  }

  /** For a file name without a separator, the parent of the file is
      `_get_export_path`'s directory. */
  lemma ExportFileDirPlain(root: string, f: Format, folder: string, fileName: string)
    requires '/' !in fileName
    ensures ExportFileDir(root, f, folder, fileName) == ExportDir(root, f, folder)
  {
    ExportDirClean(root, f, folder);
    DirnameOfChild(ExportDir(root, f, folder), fileName);
  }

  /** A file name with one separator, such as one built from a dataset key
      "my/data", puts the file, and so its parent, one level deeper. */
  lemma ExportFileDirNested(root: string, f: Format, folder: string, sub: string, fileName: string)
    requires sub != "" && '/' !in sub && '/' !in fileName
    ensures ExportFileDir(root, f, folder, sub + "/" + fileName) == JoinTwo(ExportDir(root, f, folder), sub)
    ensures ExportFileDir(root, f, folder, sub + "/" + fileName) != ExportDir(root, f, folder)
  {
    var d := ExportDir(root, f, folder);
    ExportDirClean(root, f, folder);
    assert sub[0] in sub;
    assert sub[|sub| - 1] in sub;
    var d2 := JoinTwo(d, sub);
    assert d2 == d + "/" + sub;
    assert JoinTwo(d, sub + "/" + fileName) == d2 + "/" + fileName;
    DirnameOfChild(d2, fileName);
    assert |d2| > |d|;
  }

  /** Two file names that differ only after the last separator of a common
      stem have the same parent. */
  lemma ExportFileDirSameParent(root: string, f: Format, folder: string, stem: string, s: string, t: string)
    requires '/' !in s && '/' !in t && |s| > 0 && |t| > 0
    ensures ExportFileDir(root, f, folder, stem + s) == ExportFileDir(root, f, folder, stem + t)
  {
    var d := ExportDir(root, f, folder);
    ExportDirClean(root, f, folder);
    assert s[0] in s && t[0] in t;
    assert JoinTwo(d, stem + s) == JoinTwo(d, stem) + s;
    assert JoinTwo(d, stem + t) == JoinTwo(d, stem) + t;
    DirnameSameParent(JoinTwo(d, stem), s, t);
  }

  /** The loop of `_get_export_path` that appends the non-empty segments. */
  method AppendNonEmpty(pathParts0: seq<string>, parts: seq<string>) returns (pathParts: seq<string>)
    ensures pathParts == pathParts0 + NonEmpty(parts)
  {
    pathParts := pathParts0;
    var k := 0;
    while k < |parts|
      invariant 0 <= k <= |parts|
      invariant pathParts == pathParts0 + NonEmpty(parts[..k])
    {
      NonEmptySnoc(parts[..k], parts[k]);
      assert parts[..k + 1] == parts[..k] + [parts[k]];
      if parts[k] != "" {
        pathParts := pathParts + [parts[k]];
      }
      k := k + 1;
    }
    assert parts[..k] == parts;
  }

  // ---------------------------------------------------------------------------
  // What the normalisation guarantees

  lemma StandardDirsKnown(s: string)
    requires s in StandardDirs
    ensures !IsUnknown(s)
  {
    assert s == "ERA5" || s == "PRISM" || s == "DAYMET" || s == "general" || s == "Custom";
    if s == "general" {
      assert Lower(s)[0] == LowerChar('g');
    }
  }

  lemma CategoryDefaultKnown(f: Format)
    ensures !IsUnknown(CategoryDefault(f))
  {
  }

  /** The normalised folder has at least two segments, a standard first one,
      and neither of its first two segments is "unknown" in any case. */
  lemma NormalizeFolderWellFormed(f: Format, folder: string)
    ensures |NormalizeFolder(f, folder)| >= 2
    ensures NormalizeFolder(f, folder)[0] in StandardDirs
    ensures !IsUnknown(NormalizeFolder(f, folder)[0])
    ensures !IsUnknown(NormalizeFolder(f, folder)[1])
  {
    var parts := Split(folder);
    var fixed := FixSource(parts);
    FixSourceHead(parts);
    var n := NormalizeFolder(f, folder);
    assert n[0] == fixed[0];
    StandardDirsKnown(n[0]);
    CategoryDefaultKnown(f);
  }

  /** The source segment is a standard directory; when the folder went into
      "Custom", the original name follows and is not "unknown". */
  lemma FixSourceHead(parts: seq<string>)
    requires |parts| >= 1
    ensures FixSource(parts)[0] in StandardDirs
    ensures FixSource(parts)[0] == "Custom" && parts[0] != "Custom" ==>
      |FixSource(parts)| == 2 && !IsUnknown(FixSource(parts)[1])
  {
    var p0 := if IsUnknown(parts[0]) then "general" else parts[0];
    assert IsUnknown(parts[0]) ==> p0 in StandardDirs;
    if p0 !in StandardDirs {
      if Upper(p0) in CatalogSources {
        assert Upper(p0) == "ERA5" || Upper(p0) == "PRISM" || Upper(p0) == "DAYMET";
      } else {
        assert FixSource(parts) == ["Custom", p0];
        assert !IsUnknown(p0);
      }
    }
  }


  /** The rules for the first segment, case by case. */
  lemma NormalizeFolderSource(f: Format, folder: string)
    ensures var seg0 := Split(folder)[0]; var n := NormalizeFolder(f, folder);
      && (IsUnknown(seg0) ==> n[0] == "general")
      && (seg0 in StandardDirs ==> n[0] == seg0)
      && (!IsUnknown(seg0) && seg0 !in StandardDirs && Upper(seg0) in CatalogSources
          ==> n[0] == Upper(seg0))
      && (!IsUnknown(seg0) && seg0 !in StandardDirs && Upper(seg0) !in CatalogSources
          ==> n == ["Custom", seg0])
  {
    var seg0 := Split(folder)[0];
    if IsUnknown(seg0) {
      assert "general" in StandardDirs;
    }
    if seg0 in StandardDirs {
      StandardDirsKnown(seg0);
    }
    if !IsUnknown(seg0) && seg0 !in StandardDirs && Upper(seg0) !in CatalogSources {
      assert FixSource(Split(folder)) == ["Custom", seg0];
    }
  }

  /** An absolute folder (the local directory passed back in by the chunked
      GeoTIFF export) is normalised to ["Custom", ""]. */
  lemma AbsoluteFolderBecomesCustom(f: Format, folder: string)
    requires |folder| > 0 && folder[0] == '/'
    ensures NormalizeFolder(f, folder) == ["Custom", ""]
    ensures NonEmpty(NormalizeFolder(f, folder)) == ["Custom"]
  {
    AbsoluteSplitsEmptyFirst(folder);
    assert !IsUnknown("");
    assert "" !in StandardDirs;
    assert Upper("") == "";
    assert "" !in CatalogSources;
    assert NonEmpty(["Custom", ""]) == ["Custom"] + NonEmpty([""]);
  }

  /** The "unknown" category rule and the single-segment default. */
  lemma NormalizeFolderCategory(f: Format, folder: string)
    ensures var fixed := FixSource(Split(folder)); var n := NormalizeFolder(f, folder);
      && (|fixed| == 1 ==> n == fixed + [CategoryDefault(f)])
      && (|fixed| > 1 && IsUnknown(fixed[1]) ==> n == fixed[1 := CategoryDefault(f)])
      && (|fixed| > 1 && !IsUnknown(fixed[1]) ==> n == fixed)
  {
  }

  /** The normalised segments contain no separator. */
  lemma NormalizeFolderNoSlash(f: Format, folder: string)
    ensures NoSlashAnywhere(NormalizeFolder(f, folder))
  {
    var fixed := FixSource(Split(folder));
    FixSourceNoSlash(Split(folder));
    assert '/' !in CategoryDefault(f);
    var c := FixCategory(f, fixed);
    assert NoSlashAnywhere(c) by {
      forall k | 0 <= k < |c| ensures '/' !in c[k] {
        assert c[k] == fixed[k] || c[k] == CategoryDefault(f);
      }
    }
    var n := EnsureTwo(f, c);
    assert NoSlashAnywhere(n) by {
      forall k | 0 <= k < |n| ensures '/' !in n[k] {
        assert k < |c| ==> n[k] == c[k];
      }
    }
  }

  lemma FixSourceNoSlash(parts: seq<string>)
    requires |parts| >= 1 && NoSlashAnywhere(parts)
    ensures NoSlashAnywhere(FixSource(parts))
  {
    var fixed := FixSource(parts);
    var p0 := if IsUnknown(parts[0]) then "general" else parts[0];
    assert '/' !in p0;
    if p0 in StandardDirs {
      assert fixed == [p0] + parts[1..];
    } else if Upper(p0) in CatalogSources {
      assert Upper(p0) == "ERA5" || Upper(p0) == "PRISM" || Upper(p0) == "DAYMET";
      assert fixed == [Upper(p0)] + parts[1..];
    } else {
      assert fixed == ["Custom", p0];
    }
  }


  /** Normalising a normalised folder changes nothing. */
  lemma NormalizeFolderIdempotent(f: Format, folder: string)
    ensures NormalizeFolder(f, Join(NormalizeFolder(f, folder))) == NormalizeFolder(f, folder)
  {
    var n := NormalizeFolder(f, folder);
    NormalizeFolderWellFormed(f, folder);
    NormalizeFolderNoSlash(f, folder);
    SplitJoin(n);
    StandardDirsKnown(n[0]);
    assert FixSource(n) == n;
  }

  /** The folders under the root are separator-free, non-empty, and start with
      the format followed by the normalised source folder; with `RootedJoin`
      this makes the file path exactly root/format/source/.../name.ext. */
  lemma ExportSegmentsClean(f: Format, folder: string)
    ensures NoSlashAnywhere(ExportSegments(f, folder)) && AllNonEmpty(ExportSegments(f, folder))
    ensures |ExportSegments(f, folder)| >= 2
    ensures ExportSegments(f, folder)[0] == FormatName(f)
    ensures ExportSegments(f, folder)[1] == NormalizeFolder(f, folder)[0]
  {
    var n := NormalizeFolder(f, folder);
    NormalizeFolderWellFormed(f, folder);
    StandardDirNonEmpty(n[0]);
    NormalizeFolderNoSlash(f, folder);
    FormatNameClean(f);
    HeadedSegmentsClean(FormatName(f), n);
  }

  lemma StandardDirNonEmpty(s: string)
    requires s in StandardDirs
    ensures s != ""
  {
    assert s == "ERA5" || s == "PRISM" || s == "DAYMET" || s == "general" || s == "Custom";
  }

  /** A clean head before the non-empty segments of `n`, whose first segment
      is kept. */
  lemma HeadedSegmentsClean(head: string, n: seq<string>)
    requires '/' !in head && head != ""
    requires |n| >= 1 && n[0] != "" && NoSlashAnywhere(n)
    ensures var segs := [head] + NonEmpty(n);
      NoSlashAnywhere(segs) && AllNonEmpty(segs) && |segs| >= 2 && segs[0] == head && segs[1] == n[0]
  {
    assert NonEmpty(n) == [n[0]] + NonEmpty(n[1..]);
    NonEmptyFilters(n);
    ConsClean(head, NonEmpty(n));
  }


  /** `os.path.join(root, *segs, file)` for clean segments is the plain
      '/'-join. */
  lemma RootedJoin(root: string, segs: seq<string>, b: string)
    requires |root| > 0 && root[|root| - 1] != '/'
    requires |segs| > 0 && NoSlashAnywhere(segs) && AllNonEmpty(segs)
    requires |b| > 0 && b[0] != '/'
    ensures PathJoin(root, segs) == Join([root] + segs)
    ensures JoinTwo(PathJoin(root, segs), b) == Join([root] + segs) + "/" + b
  {
    PathJoinIsJoin(root, segs);
    var parts := [root] + segs;
    assert parts[|parts| - 1] == segs[|segs| - 1];
    JoinThenFile(parts, b);
  }

  lemma FormatNameClean(f: Format)
    ensures '/' !in FormatName(f) && FormatName(f) != ""
  {
    match f
    case GeoTIFF => assert FormatName(f) == "GeoTIFF";
    case CSV => assert FormatName(f) == "CSV";
    case NetCDF => assert FormatName(f) == "NetCDF";
  }

  lemma ConsClean(head: string, rest: seq<string>)
    requires '/' !in head && head != ""
    requires NoSlashAnywhere(rest) && AllNonEmpty(rest)
    ensures NoSlashAnywhere([head] + rest) && AllNonEmpty([head] + rest)
  {
    assert forall k :: 1 <= k < |[head] + rest| ==> ([head] + rest)[k] == rest[k - 1];
  }

  /** Joining a file name onto a folder that ends in a plain segment inserts
      exactly one separator. */
  lemma JoinThenFile(parts: seq<string>, b: string)
    requires |parts| >= 1
    requires var last := parts[|parts| - 1]; last != "" && '/' !in last
    requires |b| > 0 && b[0] != '/'
    ensures JoinTwo(Join(parts), b) == Join(parts) + "/" + b
  {
    JoinLastChar(parts);
    var last := parts[|parts| - 1];
    assert last[|last| - 1] in last;
  }

  /** The last character of a join is that of its last part. */
  lemma {:induction false} JoinLastChar(parts: seq<string>)
    requires |parts| >= 1 && parts[|parts| - 1] != ""
    ensures |Join(parts)| > 0 && Join(parts)[|Join(parts)| - 1] == parts[|parts| - 1][|parts[|parts| - 1]| - 1]
  {
    if |parts| > 1 {
      JoinLastChar(parts[1..]);
    }
  }

  // ---------------------------------------------------------------------------
  // The all-years Google Drive variant (exporter.py:1076-1102)

  /** The folder segments of `_export_all_geotiff_to_drive`: the same first-
      segment rule, no "unknown" rule for the second segment, and
      "climate_data" appended to a single segment. */
  function DriveFolderParts(folder: string): seq<string> {
    var fixed := FixSource(Split(folder));
    if |fixed| == 1 then fixed + ["climate_data"] else fixed
  }

  const ExportRoot: string := "Climate_Analysis_Tool_Exports"

  /** `f"{self.export_root}/{folder_name}/{export_name_base}"` after the fix. */
  function DriveAllYearsFolder(folder: string, base: string): string {
    ExportRoot + "/" + Join(DriveFolderParts(folder)) + "/" + base
  }

  /** The Drive variant agrees with `_get_export_path`'s normalisation (for a
      format whose default category is "climate_data") except that it leaves
      an "unknown" second segment alone. */
  lemma DriveFolderAgrees(folder: string)
    ensures var fixed := FixSource(Split(folder));
      (|fixed| == 1 || !IsUnknown(fixed[1])) <==> DriveFolderParts(folder) == NormalizeFolder(NetCDF, folder)
  {
    var fixed := FixSource(Split(folder));
    if |fixed| > 1 && IsUnknown(fixed[1]) {
      assert NormalizeFolder(NetCDF, folder)[1] == "climate_data";
      assert DriveFolderParts(folder)[1] == fixed[1];
      assert fixed[1] != "climate_data";
    }
  }

  // ---------------------------------------------------------------------------
  // The single GeoTIFF export's own folder (exporter.py:171-178)

  /** `folder_name.replace("unknown", "climate_data")` when "unknown" occurs. */
  function ReplaceUnknown(folder: string): string {
    if Contains(folder, "unknown") then ReplaceAll(folder, "unknown", "climate_data") else folder
  }

  /** After the replacement no "unknown" is left anywhere in the folder, and a
      folder without one is untouched. */
  lemma ReplaceUnknownRemovesAll(folder: string)
    ensures !Contains(ReplaceUnknown(folder), "unknown")
    ensures !Contains(folder, "unknown") ==> ReplaceUnknown(folder) == folder
  {
    if Contains(folder, "unknown") {
      assert "unknown"[0] !in "climate_data";
      assert "climate_data"[0] !in "unknown";
      ReplaceRemovesAll(folder, "unknown", "climate_data");
    }
  }

  /** `os.path.join(local_export_dir, 'GeoTIFF', *folder_name.split('/'))` */
  function GeoTiffLocalFolder(root: string, folder: string): string {
    PathJoin(root, ["GeoTIFF"] + Split(ReplaceUnknown(folder)))
  }

  /** The direct export's file, `os.path.join(local_folder, f"{export_name}.tif")`. */
  function GeoTiffLocalFile(root: string, folder: string, name: string): string {
    JoinTwo(GeoTiffLocalFolder(root, folder), name + ".tif")
  }
}
