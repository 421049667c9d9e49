/** The single-image GeoTIFF export (`Exporter._export_geotiff_enhanced` and
    `_chunked_geotiff_local_export`): estimate the image size, export it
    directly or as a 2x2 grid of spatial chunks that are then merged, and fall
    back to a Google Drive task. Earth Engine, geemap and rasterio are not
    modelled; what they report is passed in as `ImageFacts`. */
module GeoTiffExport {
  import opened Text
  import opened Numerals
  import opened Outcomes
  import opened ExportPaths
  import opened StatusSeverity

  /** Above this many pixels the image is exported in chunks. */
  const MaxPixelsNoChunk: int := 5000000

  /** The chunk grid is 2 x 2. */
  const NumChunksX: nat := 2
  const NumChunksY: nat := 2
  const TotalChunks: nat := NumChunksX * NumChunksY

  /** A band of `image.getInfo()`; `dimensions` may be absent. */
  datatype Band = Band(dimensions: Option<seq<int>>)

  /** What Earth Engine and the export libraries report for one image:
      the bands (None when `getInfo` raises), the bounds area in km², the
      bounds ring, whether a direct download produces the file, which chunk
      downloads produce theirs, whether the merge goes through, and which
      calls of `_export_geotiff_to_drive`, numbered in the order the export
      makes them, create and start their task. */
  datatype ImageFacts = ImageFacts(
    bands: Option<seq<Band>>,
    areaKm2: Option<real>,
    ring: seq<(real, real)>,
    directOk: bool,
    chunkOk: (nat, nat) -> bool,
    mergeOk: bool,
    driveOk: nat -> bool)

  // ---------------------------------------------------------------------------
  // Size estimate

  /** `dims[0] * dims[1]`, with `[0, 0]` for missing dimensions and None
      where indexing raises. */
  function BandPixels(b: Band): Option<int> {
    var d := if b.dimensions.Some? then b.dimensions.value else [0, 0];
    if |d| < 2 then None else Some(d[0] * d[1])
  }

  /** The running sum over the bands, None once a band raises. */
  function BandsTotal(bands: seq<Band>): Option<int> {
    if |bands| == 0 then Some(0)
    else
      match BandsTotal(bands[..|bands| - 1])
      case None => None
      case Some(t) =>
        match BandPixels(bands[|bands| - 1])
        case None => None
        case Some(p) => Some(t + p)
  }

  /** The estimate: the band total when there are bands, otherwise four pixels
      per km² of the bounds. None when anything on the way raises. */
  function SizeEstimate(bands: Option<seq<Band>>, areaKm2: Option<real>): Option<real> {
    match bands
    case None => None
    case Some(bs) =>
      if |bs| > 0 then
        match BandsTotal(bs)
        case None => None
        case Some(t) => Some(t as real)
      else
        match areaKm2
        case None => None
        case Some(a) => Some(a * 4.0)
  }

  /** An estimate that could not be made counts as large. */
  predicate NeedsChunking(estimate: Option<real>) {
    estimate.None? || estimate.value > MaxPixelsNoChunk as real
  }

  lemma {:induction false} BandsTotalNonePrefix(bands: seq<Band>, k: nat)
    requires k <= |bands| && BandsTotal(bands[..k]) == None
    ensures BandsTotal(bands) == None
    decreases |bands| - k
  {
    if k < |bands| {
      assert bands[..k + 1][..k] == bands[..k];
      BandsTotalNonePrefix(bands, k + 1);
    } else {
      assert bands[..k] == bands;
    }
  }

  /** The loop of `_export_geotiff_enhanced` that sums the band sizes. */
  method EstimateSize(bands: Option<seq<Band>>, areaKm2: Option<real>) returns (estimate: Option<real>)
    ensures estimate == SizeEstimate(bands, areaKm2)
  {
    if bands.None? {
      return None;
    }
    var bs := bands.value;
    if |bs| == 0 {
      if areaKm2.None? {
        return None;
      }
      return Some(areaKm2.value * 4.0);
    }
    var total := 0;
    var k := 0;
    while k < |bs|
      invariant 0 <= k <= |bs|
      invariant BandsTotal(bs[..k]) == Some(total)
    {
      var d := if bs[k].dimensions.Some? then bs[k].dimensions.value else [0, 0];
      assert bs[..k + 1][..k] == bs[..k];
      if |d| < 2 {
        BandsTotalNonePrefix(bs, k + 1);
        return None;
      }
      total := total + d[0] * d[1];
      k := k + 1;
    }
    assert bs[..k] == bs;
    estimate := Some(total as real);
  }

  /** The total is defined exactly when every band's dimensions can be read. */
  lemma {:induction false} BandsTotalDefined(bands: seq<Band>)
    ensures BandsTotal(bands).Some? <==> forall k :: 0 <= k < |bands| ==> BandPixels(bands[k]).Some?
  {
    if |bands| > 0 {
      var init := bands[..|bands| - 1];
      BandsTotalDefined(init);
      assert forall k :: 0 <= k < |init| ==> init[k] == bands[k];
    }
  }

  predicate NonNegativeDims(b: Band) {
    b.dimensions.Some? ==> forall k :: 0 <= k < |b.dimensions.value| ==> b.dimensions.value[k] >= 0
  }

  /** With non-negative dimensions every band contributes at least its own
      pixels, so a single band over the limit forces chunking. */
  lemma {:induction false} BandsTotalCoversEach(bands: seq<Band>, k: nat)
    requires k < |bands| && BandsTotal(bands).Some?
    requires forall m :: 0 <= m < |bands| ==> NonNegativeDims(bands[m])
    ensures BandPixels(bands[k]).Some? && BandPixels(bands[k]).value <= BandsTotal(bands).value
  {
    var init := bands[..|bands| - 1];
    var last := bands[|bands| - 1];
    assert BandsTotal(init).Some?;
    BandsTotalNonNegative(init);
    assert BandPixels(last).value >= 0 by {
      var d := if last.dimensions.Some? then last.dimensions.value else [0, 0];
      assert d[0] >= 0 && d[1] >= 0;
    }
    if k < |bands| - 1 {
      assert init[k] == bands[k];
      BandsTotalCoversEach(init, k);
    }
  }

  lemma {:induction false} BandsTotalNonNegative(bands: seq<Band>)
    requires BandsTotal(bands).Some?
    requires forall m :: 0 <= m < |bands| ==> NonNegativeDims(bands[m])
    ensures BandsTotal(bands).value >= 0
  {
    if |bands| > 0 {
      var init := bands[..|bands| - 1];
      var last := bands[|bands| - 1];
      assert forall m :: 0 <= m < |init| ==> init[m] == bands[m];
      BandsTotalNonNegative(init);
      var d := if last.dimensions.Some? then last.dimensions.value else [0, 0];
      assert d[0] >= 0 && d[1] >= 0;
    }
  }

  /** When the estimate is read from the bands, a band whose dimensions cannot
      be read, or one band above the limit, sends the export to chunking. */
  lemma ChunkingForcedByBand(bs: seq<Band>, areaKm2: Option<real>, k: nat)
    requires k < |bs|
    requires forall m :: 0 <= m < |bs| ==> NonNegativeDims(bs[m])
    requires BandPixels(bs[k]).None? || BandPixels(bs[k]).value > MaxPixelsNoChunk
    ensures NeedsChunking(SizeEstimate(Some(bs), areaKm2))
  {
    BandsTotalDefined(bs);
    if BandsTotal(bs).Some? {
      BandsTotalCoversEach(bs, k);
    }
  }

  // ---------------------------------------------------------------------------
  // The chunk grid

  datatype Box = Box(minX: real, minY: real, maxX: real, maxY: real)

  predicate InBox(b: Box, x: real, y: real) {
    b.minX <= x <= b.maxX && b.minY <= y <= b.maxY
  }

  predicate InInterior(b: Box, x: real, y: real) {
    b.minX < x < b.maxX && b.minY < y < b.maxY
  }

  function Area(b: Box): real {
    (b.maxX - b.minX) * (b.maxY - b.minY)
  }

  function MinX(ring: seq<(real, real)>): real
    requires |ring| > 0
  {
    if |ring| == 1 then ring[0].0
    else var m := MinX(ring[1..]); if ring[0].0 <= m then ring[0].0 else m
  }

  function MaxX(ring: seq<(real, real)>): real
    requires |ring| > 0
  {
    if |ring| == 1 then ring[0].0
    else var m := MaxX(ring[1..]); if ring[0].0 >= m then ring[0].0 else m
  }

  function MinY(ring: seq<(real, real)>): real
    requires |ring| > 0
  {
    if |ring| == 1 then ring[0].1
    else var m := MinY(ring[1..]); if ring[0].1 <= m then ring[0].1 else m
  }

  function MaxY(ring: seq<(real, real)>): real
    requires |ring| > 0
  {
    if |ring| == 1 then ring[0].1
    else var m := MaxY(ring[1..]); if ring[0].1 >= m then ring[0].1 else m
  }

  /** The bounding box of the ring: `min(c[0] for c in coords)` and so on. */
  function RingBounds(ring: seq<(real, real)>): Box
    requires |ring| > 0
  {
    Box(MinX(ring), MinY(ring), MaxX(ring), MaxY(ring))
  }

  /** Every vertex of the ring lies in its bounding box. */
  lemma {:induction false} RingBoundsContain(ring: seq<(real, real)>, k: nat)
    requires k < |ring|
    ensures InBox(RingBounds(ring), ring[k].0, ring[k].1)
  {
    if |ring| > 1 && k > 0 {
      RingBoundsContain(ring[1..], k - 1);
    }
  }

  /** Chunk (i, j): column i and row j of the grid over `b`. */
  function ChunkBox(b: Box, i: nat, j: nat): Box {
    var xSize := (b.maxX - b.minX) / NumChunksX as real;
    var ySize := (b.maxY - b.minY) / NumChunksY as real;
    Box(b.minX + i as real * xSize, b.minY + j as real * ySize,
        b.minX + (i + 1) as real * xSize, b.minY + (j + 1) as real * ySize)
  }

  /** Neighbouring chunks share their edge, the outer chunks end on the
      bounds: the grid has no gaps and does not leave the image. */
  lemma ChunkGridEdges(b: Box, j: nat)
    requires j < NumChunksY
    ensures ChunkBox(b, 0, j).minX == b.minX
    ensures ChunkBox(b, 0, j).maxX == ChunkBox(b, 1, j).minX
    ensures ChunkBox(b, 1, j).maxX == b.maxX
    ensures ChunkBox(b, j, 0).minY == b.minY
    ensures ChunkBox(b, j, 0).maxY == ChunkBox(b, j, 1).minY
    ensures ChunkBox(b, j, 1).maxY == b.maxY
  {
  }

  /** Every point of a well-formed bounding box lies in some chunk. */
  lemma ChunksCover(b: Box, x: real, y: real)
    requires b.minX <= b.maxX && b.minY <= b.maxY
    requires InBox(b, x, y)
    ensures exists i: nat, j: nat :: i < NumChunksX && j < NumChunksY && InBox(ChunkBox(b, i, j), x, y)
  {
    var xSize := (b.maxX - b.minX) / 2.0;
    var ySize := (b.maxY - b.minY) / 2.0;
    var i: nat := if x <= b.minX + xSize then 0 else 1;
    var j: nat := if y <= b.minY + ySize then 0 else 1;
    assert InBox(ChunkBox(b, i, j), x, y);
  }

  /** Different chunks of a box with a positive extent never overlap in their
      interiors. */
  lemma ChunksDisjoint(b: Box, i: nat, j: nat, i2: nat, j2: nat, x: real, y: real)
    requires b.minX < b.maxX && b.minY < b.maxY
    requires i < NumChunksX && j < NumChunksY && i2 < NumChunksX && j2 < NumChunksY
    requires (i, j) != (i2, j2)
    ensures !(InInterior(ChunkBox(b, i, j), x, y) && InInterior(ChunkBox(b, i2, j2), x, y))
  {
  }

  /** The four chunk areas add up to the area of the bounds. */
  lemma ChunkAreasSum(b: Box)
    ensures Area(ChunkBox(b, 0, 0)) + Area(ChunkBox(b, 0, 1)) + Area(ChunkBox(b, 1, 0))
          + Area(ChunkBox(b, 1, 1)) == Area(b)
  {
    var xSize := (b.maxX - b.minX) / 2.0;
    var ySize := (b.maxY - b.minY) / 2.0;
    assert Area(ChunkBox(b, 0, 0)) == xSize * ySize;
    assert Area(ChunkBox(b, 0, 1)) == xSize * ySize;
    assert Area(ChunkBox(b, 1, 0)) == xSize * ySize;
    assert Area(ChunkBox(b, 1, 1)) == xSize * ySize;
    assert Area(b) == (2.0 * xSize) * (2.0 * ySize);
  }

  // ---------------------------------------------------------------------------
  // Chunk files

  /** `os.path.join(local_export_dir, 'temp', f"{export_name}_chunks")` */
  function ChunkDir(root: string, name: string): string {
    PathJoin(root, ["temp", name + "_chunks"])
  }

  function ChunkFileName(name: string, i: nat, j: nat): string {
    name + "_chunk_" + NatToString(i) + "_" + NatToString(j) + ".tif"
  }

  /** `os.path.join(chunk_dir, f"{export_name}_chunk_{i}_{j}.tif")` */
  function ChunkFile(dir: string, name: string, i: nat, j: nat): string {
    JoinTwo(dir, ChunkFileName(name, i, j))
  }

  lemma NoUnderscoreBefore(a: string, b: string, k: int)
    requires '_' !in a && 0 <= k < |a|
    ensures (a + "_" + b)[k] != '_'
  {
    assert (a + "_" + b)[k] == a[k];
  }

  /** Two texts split at their first '_' the same way. */
  lemma SplitAtUnderscore(a: string, b: string, c: string, d: string)
    requires '_' !in a && '_' !in c
    requires a + "_" + b == c + "_" + d
    ensures a == c && b == d
  {
    var s := a + "_" + b;
    assert s[|a|] == '_';
    assert (c + "_" + d)[|c|] == '_';
    if |a| < |c| {
      NoUnderscoreBefore(c, d, |a|);
      assert false;
    } else if |c| < |a| {
      NoUnderscoreBefore(a, b, |c|);
      assert false;
    }
    assert a == s[..|a|] == c;
    assert b == s[|a| + 1..] == d;
  }

  lemma DigitsHaveNoUnderscore(n: nat)
    ensures '_' !in NatToString(n)
  {
    var s := NatToString(n);
    assert forall k :: 0 <= k < |s| ==> s[k] != '_';
  }

  /** Each grid cell has its own chunk file. */
  lemma ChunkFilesDistinct(dir: string, name: string, i: nat, j: nat, i2: nat, j2: nat)
    requires (i, j) != (i2, j2)
    ensures ChunkFile(dir, name, i, j) != ChunkFile(dir, name, i2, j2)
  {
    var f1, f2 := ChunkFileName(name, i, j), ChunkFileName(name, i2, j2);
    ChunkFileNamesDistinct(name, i, j, i2, j2);
    assert |f1| > 0 && |f2| > 0 && f1[0] == f2[0] by {
      if |name| > 0 { assert f1[0] == name[0] == f2[0]; } else { assert f1[0] == '_' == f2[0]; }
    }
    JoinTwoInjective(dir, f1, f2);
  }

  /** Within one directory, names that start alike give different paths. */
  lemma JoinTwoInjective(dir: string, b1: string, b2: string)
    requires |b1| > 0 && |b2| > 0 && b1[0] == b2[0] && b1 != b2
    ensures JoinTwo(dir, b1) != JoinTwo(dir, b2)
  {
    if b1[0] != '/' {
      var p := if |dir| == 0 || dir[|dir| - 1] == '/' then dir else dir + "/";
      assert JoinTwo(dir, b1) == p + b1 && JoinTwo(dir, b2) == p + b2;
      assert (p + b1)[|p|..] == b1;
      assert (p + b2)[|p|..] == b2;
    }
  }

  lemma ChunkFileNamesDistinct(name: string, i: nat, j: nat, i2: nat, j2: nat)
    requires (i, j) != (i2, j2)
    ensures ChunkFileName(name, i, j) != ChunkFileName(name, i2, j2)
  {
    var mid1 := NatToString(i) + "_" + NatToString(j);
    var mid2 := NatToString(i2) + "_" + NatToString(j2);
    assert ChunkFileName(name, i, j) == (name + "_chunk_") + mid1 + ".tif";
    assert ChunkFileName(name, i2, j2) == (name + "_chunk_") + mid2 + ".tif";
    if ChunkFileName(name, i, j) == ChunkFileName(name, i2, j2) {
      Unframe(name + "_chunk_", mid1, mid2, ".tif");
      DigitsHaveNoUnderscore(i);
      DigitsHaveNoUnderscore(i2);
      SplitAtUnderscore(NatToString(i), NatToString(j), NatToString(i2), NatToString(j2));
      NatToStringInjective(i, i2);
      NatToStringInjective(j, j2);
      assert false;
    }
  }

  /** The number of cells among the first `n` (in the loop's order: column
      outer, row inner) whose download succeeds. */
  function CountExported(chunkOk: (nat, nat) -> bool, n: nat): nat {
    if n == 0 then 0
    else CountExported(chunkOk, n - 1) + (if chunkOk((n - 1) / NumChunksY, (n - 1) % NumChunksY) then 1 else 0)
  }

  /** The first `|files|` chunks of the row-by-row sweep: file and box. */
  ghost predicate Swept(files: seq<string>, boxes: seq<Box>, b: Box, name: string, dir: string) {
    |boxes| == |files|
    && forall k :: 0 <= k < |files| ==>
         files[k] == ChunkFile(dir, name, k / NumChunksY, k % NumChunksY)
         && boxes[k] == ChunkBox(b, k / NumChunksY, k % NumChunksY)
  }

  lemma SweepStep(files: seq<string>, boxes: seq<Box>, b: Box, name: string, dir: string, i: nat, j: nat)
    requires Swept(files, boxes, b, name, dir)
    requires j < NumChunksY && |files| == i * NumChunksY + j
    ensures Swept(files + [ChunkFile(dir, name, i, j)], boxes + [ChunkBox(b, i, j)], b, name, dir)
  {
    var k := |files|;
    assert k / NumChunksY == i && k % NumChunksY == j;
  }

  /** The nested loop over the grid: the chunk files in order, the box each
      one covers, and how many downloads completed. */
  method SweepChunks(b: Box, name: string, dir: string, chunkOk: (nat, nat) -> bool)
    returns (files: seq<string>, boxes: seq<Box>, completed: nat)
    ensures |files| == TotalChunks && |boxes| == TotalChunks
    ensures forall k :: 0 <= k < TotalChunks ==>
      files[k] == ChunkFile(dir, name, k / NumChunksY, k % NumChunksY)
      && boxes[k] == ChunkBox(b, k / NumChunksY, k % NumChunksY)
    ensures completed == CountExported(chunkOk, TotalChunks)
  {
    files, boxes, completed := [], [], 0;
    var i := 0;
    while i < NumChunksX
      invariant 0 <= i <= NumChunksX
      invariant |files| == i * NumChunksY && Swept(files, boxes, b, name, dir)
      invariant completed == CountExported(chunkOk, i * NumChunksY)
    {
      var j := 0;
      while j < NumChunksY
        invariant 0 <= j <= NumChunksY
        invariant |files| == i * NumChunksY + j && Swept(files, boxes, b, name, dir)
        invariant completed == CountExported(chunkOk, i * NumChunksY + j)
      {
        var k := i * NumChunksY + j;
        assert k / NumChunksY == i && k % NumChunksY == j;
        SweepStep(files, boxes, b, name, dir, i, j);
        files := files + [ChunkFile(dir, name, i, j)];
        boxes := boxes + [ChunkBox(b, i, j)];
        if chunkOk(i, j) {
          completed := completed + 1;
        }
        j := j + 1;
      }
      i := i + 1;
    }
  }

  // ---------------------------------------------------------------------------
  // Where the merged file goes

  /** As written: the chunked export passes its absolute local folder as the
      folder name to `_get_export_path` (exporter.py:211, 359). */
  function MergedPathAsWritten(root: string, localFolder: string, name: string): string {
    JoinTwo(PathJoin(root, ExportSegments(GeoTIFF, localFolder)), name + ".tif")
  }

  /** The absolute local folder always normalises to ["Custom", ""], so with an
      absolute export root every merged file lands in root/GeoTIFF/Custom,
      whatever dataset and index it belongs to. */
  lemma MergedPathAsWrittenIgnoresFolder(root: string, folder: string, name: string)
    requires |root| > 0 && root[0] == '/'
    ensures MergedPathAsWritten(root, GeoTiffLocalFolder(root, folder), name)
         == JoinTwo(PathJoin(root, ["GeoTIFF", "Custom"]), name + ".tif")
  {
    var local := GeoTiffLocalFolder(root, folder);
    LocalFolderAbsolute(root, folder);
    AbsoluteFolderBecomesCustom(GeoTIFF, local);
    assert ExportSegments(GeoTIFF, local) == [FormatName(GeoTIFF)] + ["Custom"];
  }

  /** Under an absolute export root the local folder is absolute too. */
  lemma LocalFolderAbsolute(root: string, folder: string)
    requires |root| > 0 && root[0] == '/'
    ensures |GeoTiffLocalFolder(root, folder)| > 0 && GeoTiffLocalFolder(root, folder)[0] == '/'
  {
    var rest := ["GeoTIFF"] + Split(ReplaceUnknown(folder));
    assert NoSlashAnywhere(rest) by {
      var sp := Split(ReplaceUnknown(folder));
      assert forall k :: 1 <= k < |rest| ==> rest[k] == sp[k - 1];
    }
    PathJoinKeepsPrefix(root, rest);
    assert PathJoin(root, rest)[..|root|][0] == root[0];
  }

  /** Two exports of different datasets write the same merged file. */
  lemma MergedPathAsWrittenCollides(root: string, name: string)
    requires |root| > 0 && root[0] == '/'
    ensures MergedPathAsWritten(root, GeoTiffLocalFolder(root, "ERA5/Consecutive Dry Days"), name)
         == MergedPathAsWritten(root, GeoTiffLocalFolder(root, "PRISM/Heavy Precipitation Days"), name)
  {
    MergedPathAsWrittenIgnoresFolder(root, "ERA5/Consecutive Dry Days", name);
    MergedPathAsWrittenIgnoresFolder(root, "PRISM/Heavy Precipitation Days", name);
  }

  /** Corrected: the merged file goes to `export_name.tif` in the local folder,
      where a direct export of the same image would have put it. */
  function MergedPath(localFolder: string, name: string): string {
    JoinTwo(localFolder, name + ".tif")
  }

  /** The corrected merged file sits in the local folder: the path is the
      folder, a separator, and the file name. */
  lemma MergedPathInLocalFolder(localFolder: string, name: string)
    requires |localFolder| > 0
    requires |name| == 0 || name[0] != '/'
    ensures var p := MergedPath(localFolder, name);
      && |p| > |localFolder|
      && p[..|localFolder|] == localFolder
      && (localFolder[|localFolder| - 1] == '/' || p[|localFolder|] == '/')
      && p[|p| - |name + ".tif"|..] == name + ".tif"
  {
    var b := name + ".tif";
    assert b[0] != '/' by {
      if |name| == 0 { assert b[0] == '.'; } else { assert b[0] == name[0]; }
    }
  }

  /** A chunked export and a direct export of the same image agree on the
      file name. */
  lemma MergedMatchesDirect(root: string, folder: string, name: string)
    ensures MergedPath(GeoTiffLocalFolder(root, folder), name) == GeoTiffLocalFile(root, folder, name)
  {
  }

  // ---------------------------------------------------------------------------
  // Outcomes and messages

  /** The result of a GeoTIFF export. `DriveRaised(attempts)`: every one of
      the `attempts` calls of `_export_geotiff_to_drive` raised, and the last
      exception leaves the export. */
  datatype GeoTiffOutcome =
    | SavedLocally(path: string)
    | ChunksPartial(completed: nat, total: nat, chunkDir: string)
    | SentToDrive(driveFolder: string)
    | DriveRaised(attempts: nat)

  /** `f"{self.export_root}/{folder_name}"` */
  function DriveFolder(folder: string): string {
    ExportRoot + "/" + folder
  }

  /** `_export_geotiff_to_drive` for each folder in turn, every call but the
      first made from the handler of the previous call's exception. The calls
      are numbered from `first`; `driveOk(k)` says whether call `k` of this
      export creates and starts its task. */
  function DriveChain(folders: seq<string>, driveOk: nat -> bool, first: nat): GeoTiffOutcome
    decreases |folders|
  {
    if |folders| == 0 then DriveRaised(first)
    else if driveOk(first) then SentToDrive(DriveFolder(folders[0]))
    else DriveChain(folders[1..], driveOk, first + 1)
  }

  /** The chain either starts a task or raises, and it raises exactly when
      every call raises, after all of them. */
  lemma {:induction false} DriveChainFacts(folders: seq<string>, driveOk: nat -> bool, first: nat)
    ensures var r := DriveChain(folders, driveOk, first);
      && (r.SentToDrive? || r.DriveRaised?)
      && (r.DriveRaised? <==> forall k: nat :: first <= k < first + |folders| ==> !driveOk(k))
      && (r.DriveRaised? ==> r.attempts == first + |folders|)
    decreases |folders|
  {
    if |folders| > 0 && !driveOk(first) {
      DriveChainFacts(folders[1..], driveOk, first + 1);
    }
  }

  /** The chain ends with its first call that starts, in that call's folder. */
  lemma {:induction false} DriveChainFirstStart(folders: seq<string>, driveOk: nat -> bool, first: nat, k: nat)
    requires first <= k < first + |folders| && driveOk(k)
    requires forall j: nat :: first <= j < k ==> !driveOk(j)
    ensures DriveChain(folders, driveOk, first) == SentToDrive(DriveFolder(folders[k - first]))
    decreases |folders|
  {
    if k > first {
      assert !driveOk(first);
      DriveChainFirstStart(folders[1..], driveOk, first + 1, k);
      assert folders[1..][k - (first + 1)] == folders[k - first];
    }
  }

  /** The chunked export, as a function of what the downloads report, with
      the merged file placed as written (`MergedPathAsWritten`). An empty ring
      stands for any exception before the sweep (the bounds or projection
      `getInfo`, or `min` of the ring), which the handler at the end of
      `_chunked_geotiff_local_export` turns into a Drive export. */
  function ChunkedOutcome(root: string, name: string, localFolder: string, img: ImageFacts): GeoTiffOutcome {
    ChunkedOutcomeWith(root, name, localFolder, img, MergedPathAsWritten(root, localFolder, name))
  }

  /** Corrected: the same export with the merged file in the local folder. */
  function ChunkedOutcomeCorrected(root: string, name: string, localFolder: string, img: ImageFacts): GeoTiffOutcome {
    ChunkedOutcomeWith(root, name, localFolder, img, MergedPath(localFolder, name))
  }

  /** The chunked export's outcomes, given where the merged file goes. With
      no chunk file the Drive export of the `else` branch runs inside the
      `try`, so when it raises the handler calls Drive a second time; both
      calls use the local folder, which the chunked export receives as its
      folder name. */
  function ChunkedOutcomeWith(root: string, name: string, localFolder: string, img: ImageFacts, merged: string): GeoTiffOutcome {
    if |img.ring| == 0 then DriveChain([localFolder], img.driveOk, 0)
    else
      var completed := CountExported(img.chunkOk, TotalChunks);
      if completed == 0 then DriveChain([localFolder, localFolder], img.driveOk, 0)
      else if img.mergeOk then SavedLocally(merged)
      else ChunksPartial(completed, TotalChunks, ChunkDir(root, name))
  }

  /** `_chunked_geotiff_local_export`, merging into the path the source
      computes. */
  method ChunkedLocalExport(root: string, name: string, localFolder: string, img: ImageFacts)
    returns (outcome: GeoTiffOutcome, files: seq<string>, boxes: seq<Box>)
    ensures outcome == ChunkedOutcome(root, name, localFolder, img)
    ensures |img.ring| > 0 ==>
      |files| == TotalChunks && |boxes| == TotalChunks
      && forall k :: 0 <= k < TotalChunks ==>
           files[k] == ChunkFile(ChunkDir(root, name), name, k / NumChunksY, k % NumChunksY)
           && boxes[k] == ChunkBox(RingBounds(img.ring), k / NumChunksY, k % NumChunksY)
  {
    if |img.ring| == 0 {
      return DriveChain([localFolder], img.driveOk, 0), [], [];
    }
    var bounds := RingBounds(img.ring);
    var dir := ChunkDir(root, name);
    var completed;
    files, boxes, completed := SweepChunks(bounds, name, dir, img.chunkOk);
    if completed > 0 {
      if img.mergeOk {
        outcome := SavedLocally(MergedPathAsWritten(root, localFolder, name));
      } else {
        outcome := ChunksPartial(completed, TotalChunks, dir);
      }
    } else {
      outcome := DriveChain([localFolder, localFolder], img.driveOk, 0);
    }
  }

  /** `_export_geotiff_enhanced`, as a function of what Earth Engine reports.
      A failed direct download calls Drive from its handler, and when that
      raises the outer handler calls it again; an exception leaving the
      chunked export reaches the outer handler too. Both outer calls use the
      folder with "unknown" replaced. */
  function GeoTiffOutcomeOf(root: string, name: string, folder: string, img: ImageFacts): GeoTiffOutcome {
    var fixed := ReplaceUnknown(folder);
    var local := GeoTiffLocalFolder(root, folder);
    if NeedsChunking(SizeEstimate(img.bands, img.areaKm2)) then
      var c := ChunkedOutcome(root, name, local, img);
      if c.DriveRaised? then DriveChain([fixed], img.driveOk, c.attempts) else c
    else if img.directOk then SavedLocally(GeoTiffLocalFile(root, folder, name))
    else DriveChain([fixed, fixed], img.driveOk, 0)
  }

  /** `_export_geotiff_enhanced`: replace "unknown" in the folder, estimate the
      size, then export directly or in chunks, falling back to Drive. */
  method ExportGeoTiff(root: string, name: string, folder: string, img: ImageFacts)
    returns (outcome: GeoTiffOutcome)
    ensures outcome == GeoTiffOutcomeOf(root, name, folder, img)
  {
    var fixed := folder;
    if Contains(folder, "unknown") {
      fixed := ReplaceAll(folder, "unknown", "climate_data");
    }
    var local := PathJoin(root, ["GeoTIFF"] + Split(fixed));
    var file := JoinTwo(local, name + ".tif");
    var estimate := EstimateSize(img.bands, img.areaKm2);
    if NeedsChunking(estimate) {
      var files, boxes;
      outcome, files, boxes := ChunkedLocalExport(root, name, local, img);
      if outcome.DriveRaised? {
        outcome := DriveChain([fixed], img.driveOk, outcome.attempts);
      }
    } else if img.directOk {
      outcome := SavedLocally(file);
    } else {
      outcome := DriveChain([fixed, fixed], img.driveOk, 0);
    }
  }

  /** A small image whose direct download succeeds is saved in the local
      folder. If the download fails, Drive is tried twice with the folder
      with every "unknown" replaced, and the export raises only when both
      calls raise. */
  lemma SmallImageExportedDirectly(root: string, name: string, folder: string, img: ImageFacts)
    requires !NeedsChunking(SizeEstimate(img.bands, img.areaKm2))
    ensures img.directOk ==> GeoTiffOutcomeOf(root, name, folder, img) == SavedLocally(GeoTiffLocalFile(root, folder, name))
    ensures !img.directOk && (img.driveOk(0) || img.driveOk(1)) ==>
      GeoTiffOutcomeOf(root, name, folder, img) == SentToDrive(DriveFolder(ReplaceUnknown(folder)))
    ensures !img.directOk && !img.driveOk(0) && !img.driveOk(1) ==>
      GeoTiffOutcomeOf(root, name, folder, img) == DriveRaised(2)
    ensures !Contains(ReplaceUnknown(folder), "unknown")
  {
    ReplaceUnknownRemovesAll(folder);
    var fixed := ReplaceUnknown(folder);
    DriveChainFacts([fixed, fixed], img.driveOk, 0);
    if !img.directOk && !img.driveOk(0) && img.driveOk(1) {
      DriveChainFirstStart([fixed, fixed], img.driveOk, 0, 1);
    }
  }

  /** A large image whose chunks all fail goes through three Drive calls: two
      with the local folder inside the chunked export, then one with the fixed
      folder in the outer handler; it raises only when all three raise. When
      the sweep cannot start, there are two calls. */
  lemma ChunkedDriveRetries(root: string, name: string, folder: string, img: ImageFacts)
    requires NeedsChunking(SizeEstimate(img.bands, img.areaKm2))
    requires |img.ring| == 0 || CountExported(img.chunkOk, TotalChunks) == 0
    ensures var (local, fixed, o) := (GeoTiffLocalFolder(root, folder), ReplaceUnknown(folder), GeoTiffOutcomeOf(root, name, folder, img));
      var n := if |img.ring| == 0 then 1 else 2;
      && (img.driveOk(0) ==> o == SentToDrive(DriveFolder(local)))
      && (n == 2 && !img.driveOk(0) && img.driveOk(1) ==> o == SentToDrive(DriveFolder(local)))
      && ((forall k :: 0 <= k < n ==> !img.driveOk(k)) && img.driveOk(n) ==> o == SentToDrive(DriveFolder(fixed)))
      && ((forall k :: 0 <= k <= n ==> !img.driveOk(k)) <==> o.DriveRaised?)
      && (o.DriveRaised? ==> o.attempts == n + 1)
  {
    var local, fixed := GeoTiffLocalFolder(root, folder), ReplaceUnknown(folder);
    var inner := if |img.ring| == 0 then [local] else [local, local];
    var n := |inner|;
    var c := ChunkedOutcome(root, name, local, img);
    assert c == DriveChain(inner, img.driveOk, 0);
    DriveChainFacts(inner, img.driveOk, 0);
    if img.driveOk(0) {
      DriveChainFirstStart(inner, img.driveOk, 0, 0);
    } else if n == 2 && img.driveOk(1) {
      DriveChainFirstStart(inner, img.driveOk, 0, 1);
    }
    if c.DriveRaised? {
      DriveChainFacts([fixed], img.driveOk, n);
      if img.driveOk(n) {
        DriveChainFirstStart([fixed], img.driveOk, n, n);
      }
    }
  }

  /** As written, a chunked export whose merge succeeds reports the file
      `root/GeoTIFF/Custom/<name>.tif`, whatever the folder; the corrected
      export reports the file a direct export of the same image writes. The
      two differ in nothing else. */
  lemma ChunkedMergeLandsInCustom(root: string, name: string, folder: string, img: ImageFacts)
    requires |root| > 0 && root[0] == '/'
    requires NeedsChunking(SizeEstimate(img.bands, img.areaKm2))
    requires |img.ring| > 0 && CountExported(img.chunkOk, TotalChunks) > 0 && img.mergeOk
    ensures GeoTiffOutcomeOf(root, name, folder, img)
         == SavedLocally(JoinTwo(PathJoin(root, ["GeoTIFF", "Custom"]), name + ".tif"))
    ensures ChunkedOutcomeCorrected(root, name, GeoTiffLocalFolder(root, folder), img)
         == SavedLocally(GeoTiffLocalFile(root, folder, name))
  {
    MergedPathAsWrittenIgnoresFolder(root, folder, name);
    MergedMatchesDirect(root, folder, name);
  }

  /** Apart from the merged file's path, the as-written and the corrected
      chunked exports report the same outcome. */
  lemma ChunkedCorrectedDiffersOnlyInPath(root: string, name: string, localFolder: string, img: ImageFacts)
    ensures var (o, c) := (ChunkedOutcome(root, name, localFolder, img), ChunkedOutcomeCorrected(root, name, localFolder, img));
      && (o.SavedLocally? <==> c.SavedLocally?)
      && (!o.SavedLocally? ==> o == c)
      && (o.SavedLocally? ==> o.path == MergedPathAsWritten(root, localFolder, name) && c.path == MergedPath(localFolder, name))
  {
    DriveChainFacts([localFolder], img.driveOk, 0);
    DriveChainFacts([localFolder, localFolder], img.driveOk, 0);
  }

  /** The outcome of a chunked export, case by case: a Drive call (which may
      raise) exactly when no chunk downloads, the merged file when the merge
      succeeds, and otherwise a partial report whose count lies between 1
      and 4. */
  lemma ChunkedOutcomeCases(root: string, name: string, localFolder: string, img: ImageFacts)
    requires |img.ring| > 0
    ensures var o := ChunkedOutcome(root, name, localFolder, img);
      && (o.SentToDrive? || o.DriveRaised? <==> CountExported(img.chunkOk, TotalChunks) == 0)
      && (o.SentToDrive? ==> o.driveFolder == DriveFolder(localFolder))
      && (o.SavedLocally? <==> CountExported(img.chunkOk, TotalChunks) > 0 && img.mergeOk)
      && (o.SavedLocally? ==> o.path == MergedPathAsWritten(root, localFolder, name))
      && (o.ChunksPartial? ==> 1 <= o.completed <= o.total == 4 && o.chunkDir == ChunkDir(root, name))
  {
    CountExportedBound(img.chunkOk, TotalChunks);
    DriveChainFacts([localFolder, localFolder], img.driveOk, 0);
  }

  lemma {:induction false} CountExportedBound(chunkOk: (nat, nat) -> bool, n: nat)
    ensures CountExported(chunkOk, n) <= n
  {
    if n > 0 {
      CountExportedBound(chunkOk, n - 1);
    }
  }

  /** `f"Chunked export partially successful. {chunks_completed} of
      {total_chunks} chunks exported to: {chunk_dir}"` */
  function PartialMessage(completed: nat, total: nat, chunkDir: string): string {
    "Chunked export partially successful. " + NatToString(completed) + " of "
      + NatToString(total) + " chunks exported to: " + chunkDir
  }

  /** The partial report is shown at least as a warning, whatever the
      directory is called. */
  lemma PartialMessageIsWarning(completed: nat, total: nat, chunkDir: string)
    ensures Rank(Classify(PartialMessage(completed, total, chunkDir))) >= Rank(Warning)
  {
    var rest := NatToString(completed) + " of " + NatToString(total) + " chunks exported to: " + chunkDir;
    assert PartialMessage(completed, total, chunkDir) == "Chunked export partially successful. " + rest;
    PartialOpeningIsWarning(rest);
  }

  lemma PartialOpeningIsWarning(rest: string)
    ensures Rank(Classify("Chunked export partially successful. " + rest)) >= Rank(Warning)
  {
    var p, w, r := "Chunked export ", "partial", "ly successful. ";
    assert p + w + r == "Chunked export partially successful. ";
    assert "Chunked export partially successful. " + rest == p + w + (r + rest);
    WordRaisesSeverity(p, w, r + rest);
  }

}
