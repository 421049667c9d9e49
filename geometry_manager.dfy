/** The region-of-interest store of the two analysis panels. One dict holds,
    for a panel `p`, its geometry under `p` and its bounding box under
    `p + "_bounds"`; a second dict records the input method of each panel.
    Map widgets, drawing controls and shapefile reading are not modelled. */
module Regions {
  import opened Outcomes

  /** A longitude/latitude bounding box. */
  datatype BoundsConfig = BoundsConfig(minLon: real, minLat: real, maxLon: real, maxLat: real) {

    /** `to_list`: the corner order `ee.Geometry.Rectangle` expects. */
    function ToList(): (l: seq<real>)
      ensures |l| == 4
    {
      [minLon, minLat, maxLon, maxLat]
    }

    /** `center`: latitude first, then longitude. */
    function Center(): (c: (real, real))
      ensures c.0 - minLat == maxLat - c.0
      ensures c.1 - minLon == maxLon - c.1
      ensures minLat < maxLat ==> minLat < c.0 < maxLat
      ensures minLon < maxLon ==> minLon < c.1 < maxLon
    {
      ((minLat + maxLat) / 2.0, (minLon + maxLon) / 2.0)
    }
  }

  /** A box read back from its corner list. */
  function FromList(l: seq<real>): BoundsConfig
    requires |l| == 4
  {
    BoundsConfig(l[0], l[1], l[2], l[3])
  }

  /** The corner list and the box determine each other. */
  lemma ToListRoundTrip(b: BoundsConfig, l: seq<real>)
    requires |l| == 4
    ensures FromList(b.ToList()) == b
    ensures FromList(l).ToList() == l
  {
  }

  /** What an Earth Engine geometry is built from: the rectangle `set_bounds`
      creates, or a shape stored by another input method. */
  datatype Geometry = Rectangle(corners: seq<real>) | Shape(handle: nat)

  /** A value of the geometries dict. */
  datatype Stored = Geom(geometry: Geometry) | Bounds(bounds: BoundsConfig)

  function BoundsKey(panel: string): string {
    panel + "_bounds"
  }

  /** A panel's geometry key and bounds key always differ. */
  lemma BoundsKeyDiffers(panel: string)
    ensures BoundsKey(panel) != panel
  {
    assert |BoundsKey(panel)| == |panel| + 7;
  }

  const LongitudeError: string := "Longitude must be between -180 and 180"
  const LatitudeError: string := "Latitude must be between -90 and 90"
  const OrderError: string := "Minimum values must be less than maximum values"
  const NoGeometryError: string := "No geometry defined for this panel"
  const NoBoundsError: string := "No bounds defined for this panel"

  /** The checks of `set_bounds`, in order: the ValueError message, or None. */
  function BoundsError(minLon: real, minLat: real, maxLon: real, maxLat: real): Option<string> {
    if !(-180.0 <= minLon <= 180.0 && -180.0 <= maxLon <= 180.0) then Some(LongitudeError)
    else if !(-90.0 <= minLat <= 90.0 && -90.0 <= maxLat <= 90.0) then Some(LatitudeError)
    else if minLon >= maxLon || minLat >= maxLat then Some(OrderError)
    else None
  }

  /** A box on the globe with a positive extent in both directions. */
  predicate ProperBox(b: BoundsConfig) {
    -180.0 <= b.minLon < b.maxLon <= 180.0 && -90.0 <= b.minLat < b.maxLat <= 90.0
  }

  /** The checks accept exactly the proper boxes, and such a box has its
      centre strictly inside it. */
  lemma BoundsErrorIff(minLon: real, minLat: real, maxLon: real, maxLat: real)
    ensures BoundsError(minLon, minLat, maxLon, maxLat).None? <==>
      ProperBox(BoundsConfig(minLon, minLat, maxLon, maxLat))
    ensures BoundsError(minLon, minLat, maxLon, maxLat).None? ==>
      var c := BoundsConfig(minLon, minLat, maxLon, maxLat).Center();
      minLat < c.0 < maxLat && minLon < c.1 < maxLon
  {
  }

  /** The geometries dict after a successful `set_bounds`: the box is always
      stored, and a rectangle is stored only if the panel has no geometry. */
  function SetBoundsState(g: map<string, Stored>, panel: string, b: BoundsConfig): map<string, Stored> {
    var withBounds := g[BoundsKey(panel) := Bounds(b)];
    if panel in withBounds then withBounds
    else withBounds[panel := Geom(Rectangle(b.ToList()))]
  }

  /** After `set_bounds` the panel has the new box and a geometry: the one it
      had before, or the box's rectangle if it had none. No other key
      changes, and setting the same box again changes nothing. */
  lemma SetBoundsFacts(g: map<string, Stored>, panel: string, b: BoundsConfig)
    ensures var s := SetBoundsState(g, panel, b);
      s[BoundsKey(panel)] == Bounds(b)
      && panel in s
      && (panel in g ==> s[panel] == g[panel])
      && (panel !in g ==> s[panel] == Geom(Rectangle(b.ToList())))
      && (forall k :: k != panel && k != BoundsKey(panel) ==> (k in s <==> k in g))
      && (forall k :: k in g && k != panel && k != BoundsKey(panel) ==> s[k] == g[k])
      && SetBoundsState(s, panel, b) == s
  {
    BoundsKeyDiffers(panel);
  }

  /** The geometries dict after `copy_geometry` from a panel that has a
      geometry. The box is looked up after the geometry has been written. */
  function CopyState(g: map<string, Stored>, source: string, target: string): map<string, Stored>
    requires source in g
  {
    var withGeometry := g[target := g[source]];
    if BoundsKey(source) in withGeometry then
      withGeometry[BoundsKey(target) := withGeometry[BoundsKey(source)]]
    else withGeometry
  }

  /** Copying gives the target the source's geometry and, when the source has
      a box (and the target is not the source's box key), the source's box;
      nothing else changes, and copying a panel onto itself is a no-op. */
  lemma CopyFacts(g: map<string, Stored>, source: string, target: string)
    requires source in g
    ensures var s := CopyState(g, source, target);
      s[target] == g[source]
    ensures var s := CopyState(g, source, target);
      BoundsKey(source) in g && target != BoundsKey(source) ==>
        s[BoundsKey(target)] == g[BoundsKey(source)] && s[target] == g[source]
    ensures var s := CopyState(g, source, target);
      forall k :: k != target && k != BoundsKey(target) ==> (k in s <==> k in g)
    ensures var s := CopyState(g, source, target);
      forall k :: k in g && k != target && k != BoundsKey(target) ==> s[k] == g[k]
    ensures CopyState(g, source, source) == g
  {
    BoundsKeyDiffers(target);
    BoundsKeyDiffers(source);
  }

  /** The geometries dict after the clear button: the panel's two keys go. */
  function ClearState(g: map<string, Stored>, panel: string): (s: map<string, Stored>)
  {
    g - {panel, BoundsKey(panel)}
  }

  class GeometryManager {
    var geometries: map<string, Stored>
    var currentMethod: map<string, string>

    constructor()
      ensures geometries == map[] && currentMethod == map[]
    {
      geometries, currentMethod := map[], map[];
    }

    /** `set_bounds`: None on success, otherwise the ValueError message and
        nothing stored. */
    method SetBounds(panel: string, minLon: real, minLat: real, maxLon: real, maxLat: real)
      returns (err: Option<string>)
      modifies this
      ensures err == BoundsError(minLon, minLat, maxLon, maxLat)
      ensures err.Some? ==> geometries == old(geometries)
      ensures err.None? ==>
        geometries == SetBoundsState(old(geometries), panel, BoundsConfig(minLon, minLat, maxLon, maxLat))
      ensures currentMethod == old(currentMethod)
    {
      if !(-180.0 <= minLon <= 180.0 && -180.0 <= maxLon <= 180.0) {
        return Some(LongitudeError);
      }
      if !(-90.0 <= minLat <= 90.0 && -90.0 <= maxLat <= 90.0) {
        return Some(LatitudeError);
      }
      if minLon >= maxLon || minLat >= maxLat {
        return Some(OrderError);
      }
      var bounds := BoundsConfig(minLon, minLat, maxLon, maxLat);
      geometries := geometries[BoundsKey(panel) := Bounds(bounds)];
      if panel !in geometries {
        geometries := geometries[panel := Geom(Rectangle(bounds.ToList()))];
      }
      return None;
    }

    /** `get_geometry`. */
    function GetGeometry(panel: string): (r: Result<Stored, string>)
      reads this
      ensures r.Err? <==> panel !in geometries
      ensures r.Err? ==> r.error == NoGeometryError
      ensures r.Ok? ==> r.value == geometries[panel]
    {
      if panel !in geometries then Err(NoGeometryError) else Ok(geometries[panel])
    }

    /** `get_bounds`. */
    function GetBounds(panel: string): (r: Result<Stored, string>)
      reads this
      ensures r.Err? <==> BoundsKey(panel) !in geometries
      ensures r.Err? ==> r.error == NoBoundsError
      ensures r.Ok? ==> r.value == geometries[BoundsKey(panel)]
    {
      var key := BoundsKey(panel);
      if key !in geometries then Err(NoBoundsError) else Ok(geometries[key])
    }

    /** `copy_geometry`: nothing happens when the source has no geometry;
        otherwise the geometry, the box if any, and the method if any are
        copied to the target. */
    method CopyGeometry(source: string, target: string)
      modifies this
      ensures source !in old(geometries) ==>
        geometries == old(geometries) && currentMethod == old(currentMethod)
      ensures source in old(geometries) ==>
        geometries == CopyState(old(geometries), source, target)
        && currentMethod == (if source in old(currentMethod)
                             then old(currentMethod)[target := old(currentMethod)[source]]
                             else old(currentMethod))
    {
      if source !in geometries {
        return;
      }
      geometries := geometries[target := geometries[source]];
      var sourceKey, targetKey := BoundsKey(source), BoundsKey(target);
      if sourceKey in geometries {
        geometries := geometries[targetKey := geometries[sourceKey]];
      }
      if source in currentMethod {
        currentMethod := currentMethod[target := currentMethod[source]];
      }
    }

    /** The stored-geometry part of the clear button (`on_clear`). */
    method Clear(panel: string)
      modifies this
      ensures geometries == ClearState(old(geometries), panel)
      ensures currentMethod == old(currentMethod)
    {
      if panel in geometries {
        geometries := map k | k in geometries && k != panel :: geometries[k];
      }
      var key := BoundsKey(panel);
      if key in geometries {
        geometries := map k | k in geometries && k != key :: geometries[k];
      }
    }
  }

  /** After clearing, both getters raise for the panel and every other key
      keeps its value. */
  lemma ClearFacts(gm: GeometryManager, panel: string, g: map<string, Stored>)
    requires gm.geometries == ClearState(g, panel)
    ensures gm.GetGeometry(panel).Err? && gm.GetBounds(panel).Err?
    ensures forall k :: k in g && k != panel && k != BoundsKey(panel) ==>
      k in gm.geometries && gm.geometries[k] == g[k]
  {
  }

  /** Once `set_bounds` succeeded, both getters succeed and `get_bounds`
      returns the box. */
  lemma SetThenGet(gm: GeometryManager, g: map<string, Stored>, panel: string, b: BoundsConfig)
    requires gm.geometries == SetBoundsState(g, panel, b)
    ensures gm.GetBounds(panel) == Ok(Bounds(b))
    ensures gm.GetGeometry(panel).Ok?
    ensures panel !in g ==> gm.GetGeometry(panel) == Ok(Geom(Rectangle(b.ToList())))
  {
    SetBoundsFacts(g, panel, b);
  }
}
