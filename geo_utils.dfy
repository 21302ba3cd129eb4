/**
 * The small helpers of urbanworm/utils.py: `meters_to_degrees`, the choice
 * of the street-view image nearest to a building in `closest`, the
 * footprint filter of `getOSMbuildings`, `temp_file_path` and the default
 * destination of `image_to_cog`.
 */
module GeoUtils {
  import opened Wrappers
  import opened PyText
  import opened TileGrid

  // ---------------------------------------------------------------------
  // meters_to_degrees
  // ---------------------------------------------------------------------

  /** `111320 * (1 - 0.000022 * abs(latitude))`: metres per degree at a latitude. */
  function MetersPerDegree(latitude: real): real {
    111320.0 * (1.0 - 0.000022 * AbsReal(latitude))
  }

  /** `meters_to_degrees(meters, latitude)`; `None` where the divisor is zero and Python raises. */
  function MetersToDegrees(meters: real, latitude: real): (r: Option<real>)
    ensures r.None? <==> MetersPerDegree(latitude) == 0.0
  {
    var perDegree := MetersPerDegree(latitude);
    if perDegree == 0.0 then None else Some(meters / perDegree)
  }

  /**
   * On the globe (|latitude| <= 90) the conversion is defined, keeps the
   * sign of the distance, and scaling back by the metres per degree gives
   * the distance again.
   */
  lemma MetersToDegreesOnGlobe(meters: real, latitude: real)
    requires -90.0 <= latitude <= 90.0
    ensures MetersPerDegree(latitude) >= 111320.0 * (1.0 - 0.000022 * 90.0) > 0.0
    ensures MetersToDegrees(meters, latitude).Some?
    ensures var d := MetersToDegrees(meters, latitude).value;
      && d * MetersPerDegree(latitude) == meters
      && (meters > 0.0 <==> d > 0.0)
      && (meters == 0.0 <==> d == 0.0)
  {
    var p := MetersPerDegree(latitude);
    var d := meters / p;
    assert d * p == meters;
    if meters > 0.0 {
      assert d > 0.0;
    } else if meters < 0.0 {
      assert d < 0.0;
    }
  }

  /** Further from the equator a degree is shorter, so the same distance spans more degrees. */
  lemma MetersToDegreesGrowsPoleward(meters: real, lat1: real, lat2: real)
    requires meters > 0.0
    requires AbsReal(lat1) <= AbsReal(lat2) <= 90.0
    ensures MetersToDegrees(meters, lat1).Some? && MetersToDegrees(meters, lat2).Some?
    ensures MetersToDegrees(meters, lat1).value <= MetersToDegrees(meters, lat2).value
  {
    var p1, p2 := MetersPerDegree(lat1), MetersPerDegree(lat2);
    assert 0.0 < p2 <= p1;
    DivideByLarger(meters, p2, p1);
  }

  lemma DivideByLarger(a: real, p: real, q: real)
    requires a > 0.0 && 0.0 < p <= q
    ensures a / q <= a / p
  {
  }

  // ---------------------------------------------------------------------
  // closest
  // ---------------------------------------------------------------------

  /** One image of the Mapillary response: its id and position. */
  datatype Candidate = Candidate(id: int, lon: real, lat: real)

  /** `(lon - cx)^2 + (lat - cy)^2`: squared planar distance to the centroid. */
  function Distance(c: Candidate, cx: real, cy: real): real {
    (c.lon - cx) * (c.lon - cx) + (c.lat - cy) * (c.lat - cy)
  }

  function Distances(cands: seq<Candidate>, cx: real, cy: real): seq<real> {
    seq(|cands|, k requires 0 <= k < |cands| => Distance(cands[k], cx, cy))
  }

  /**
   * The first index, outside `taken`, holding the smallest value outside
   * `taken`: `np.where(d == np.min(d))[0][0]` when nothing is taken.
   */
  predicate Free(d: seq<real>, taken: set<nat>, i: int) {
    0 <= i < |d| && i !in taken
  }

  function ArgMin(d: seq<real>, taken: set<nat>): (k: nat)
    requires exists i :: Free(d, taken, i)
    ensures k < |d| && k !in taken
    ensures forall i :: 0 <= i < |d| && i !in taken ==> d[k] <= d[i]
    ensures forall i :: 0 <= i < k && i !in taken ==> d[k] < d[i]
    decreases |d|
  {
    var last := |d| - 1;
    if forall i :: 0 <= i < last ==> i in taken then last
    else
      var w :| 0 <= w < last && w !in taken;
      assert Free(d[..last], taken, w);
      var k := ArgMin(d[..last], taken);
      if last in taken || d[k] <= d[last] then k else last
  }

  /**
   * Three indices with the smallest values, in ascending order: one result
   * `np.argsort(d)[:3]` can give (among equal values its order is not
   * fixed).
   */
  function SmallestThree(d: seq<real>): (ks: seq<nat>)
    requires |d| > 3
    ensures |ks| == 3 && ks[0] != ks[1] && ks[0] != ks[2] && ks[1] != ks[2]
    ensures forall m :: 0 <= m < 3 ==> ks[m] < |d|
    ensures forall m, i :: 0 <= m < 3 && 0 <= i < |d| && i !in ks ==> d[ks[m]] <= d[i]
    ensures d[ks[0]] <= d[ks[1]] <= d[ks[2]]
  {
    assert Free(d, {}, 0);
    var a := ArgMin(d, {});
    assert Free(d, {a}, if a == 0 then 1 else 0);
    var b := ArgMin(d, {a});
    assert Free(d, {a, b}, 0) || Free(d, {a, b}, 1) || Free(d, {a, b}, 2);
    var c := ArgMin(d, {a, b});
    [a, b, c]
  }

  /** The rows of the response whose id is in `ids`, in response order. */
  function RowsWithId(cands: seq<Candidate>, ids: set<int>): (rows: seq<Candidate>)
    ensures forall r :: r in rows <==> r in cands && r.id in ids
    ensures |rows| <= |cands|
  {
    if cands == [] then []
    else (if cands[0].id in ids then [cands[0]] else []) + RowsWithId(cands[1..], ids)
  }

  datatype ClosestError = NoImages   // an empty response raises when the coordinate columns are built (utils.py:100)

  /**
   * `closest(centroid, response, multi)`: with `multi` and more than three
   * images, every row of the three nearest images' ids; otherwise every row
   * of the id of the first nearest image.
   */
  function Closest(cands: seq<Candidate>, cx: real, cy: real, multi: bool): Result<seq<Candidate>, ClosestError> {
    var d := Distances(cands, cx, cy);
    if multi && |d| > 3 then
      var ks := SmallestThree(d);
      Ok(RowsWithId(cands, {cands[ks[0]].id, cands[ks[1]].id, cands[ks[2]].id}))
    else if |d| == 0 then Err(NoImages)
    else
      assert Free(d, {}, 0);
      var k := ArgMin(d, {});
      Ok(RowsWithId(cands, {cands[k].id}))
  }

  /** Image `k` is at the smallest distance, and no earlier image is. */
  predicate FirstNearest(cands: seq<Candidate>, cx: real, cy: real, k: int) {
    && 0 <= k < |cands|
    && (forall i :: 0 <= i < |cands| ==> Distance(cands[k], cx, cy) <= Distance(cands[i], cx, cy))
    && (forall i :: 0 <= i < k ==> Distance(cands[k], cx, cy) < Distance(cands[i], cx, cy))
  }

  /**
   * Without `multi` (or with at most three images) the result is exactly
   * the rows sharing the id of the first image at the smallest distance, and
   * it is not empty; no image is nearer than the ones chosen.
   */
  lemma ClosestSingle(cands: seq<Candidate>, cx: real, cy: real, multi: bool)
    requires |cands| > 0 && !(multi && |cands| > 3)
    ensures Closest(cands, cx, cy, multi).Ok?
    ensures var rows := Closest(cands, cx, cy, multi).value;
      && |rows| > 0
      && (forall r, s :: r in rows && s in rows ==> r.id == s.id)
      && (exists r :: r in rows && forall c :: c in cands ==> Distance(r, cx, cy) <= Distance(c, cx, cy))
    ensures var rows := Closest(cands, cx, cy, multi).value;
      exists k :: FirstNearest(cands, cx, cy, k) && forall r :: r in rows <==> r in cands && r.id == cands[k].id
  {
    var d := Distances(cands, cx, cy);
    assert |d| == |cands| && forall i :: 0 <= i < |cands| ==> d[i] == Distance(cands[i], cx, cy);
    assert Free(d, {}, 0);
    var k := ArgMin(d, {});
    var rows := Closest(cands, cx, cy, multi).value;
    assert rows == RowsWithId(cands, {cands[k].id});
    assert forall r :: r in rows <==> r in cands && r.id == cands[k].id;
    assert cands[k] in rows;
    assert FirstNearest(cands, cx, cy, k);
    forall c | c in cands
      ensures Distance(cands[k], cx, cy) <= Distance(c, cx, cy)
    {
      var i :| 0 <= i < |cands| && cands[i] == c;
    }
  }

  /**
   * With `multi` and more than three images, the rows chosen carry the ids
   * of three distinct images that are at least as near as every image left
   * out.
   */
  lemma ClosestMulti(cands: seq<Candidate>, cx: real, cy: real)
    requires |cands| > 3
    ensures Closest(cands, cx, cy, true).Ok?
    ensures
      var d := Distances(cands, cx, cy);
      var ks := SmallestThree(d);
      var ids := {cands[ks[0]].id, cands[ks[1]].id, cands[ks[2]].id};
      var rows := Closest(cands, cx, cy, true).value;
      && (forall r :: r in rows <==> r in cands && r.id in ids)
      && (forall m, i :: 0 <= m < 3 && 0 <= i < |cands| && i !in ks ==>
            Distance(cands[ks[m]], cx, cy) <= Distance(cands[i], cx, cy))
  {
    var d := Distances(cands, cx, cy);
    assert |d| == |cands| && forall i :: 0 <= i < |cands| ==> d[i] == Distance(cands[i], cx, cy);
  }

  // ---------------------------------------------------------------------
  // getOSMbuildings
  // ---------------------------------------------------------------------

  /** An Overpass element: its `geometry`, when it has one, as (lon, lat) nodes. */
  datatype Element = Element(geometry: Option<seq<(real, real)>>)

  /** `111320 ** 2`: square metres per square degree in the approximation. */
  const SquareMetresPerSquareDegree: real := 111320.0 * 111320.0

  /**
   * The test each element goes through; `area(coords)` stands for shapely's
   * `Polygon(coords).area` in square degrees.
   */
  predicate Keeps(e: Element, area: seq<(real, real)> -> real, minArea: real, maxArea: Option<real>) {
    && e.geometry.Some?
    && |e.geometry.value| > 2
    && var m2 := area(e.geometry.value) * SquareMetresPerSquareDegree;
       m2 >= minArea && (maxArea.None? || m2 <= maxArea.value)
  }

  /** The footprints of the kept elements, in response order. */
  function KeptFootprints(elements: seq<Element>, area: seq<(real, real)> -> real, minArea: real, maxArea: Option<real>): (kept: seq<seq<(real, real)>>)
    ensures |kept| <= |elements|
  {
    if elements == [] then []
    else
      var rest := KeptFootprints(elements[..|elements| - 1], area, minArea, maxArea);
      var e := elements[|elements| - 1];
      if Keeps(e, area, minArea, maxArea) then rest + [e.geometry.value] else rest
  }

  /** The loop of `getOSMbuildings` over `data["elements"]`, then `None` when nothing was kept. */
  method FilterBuildings(elements: seq<Element>, area: seq<(real, real)> -> real, minArea: real, maxArea: Option<real>)
    returns (buildings: Option<seq<seq<(real, real)>>>)
    ensures buildings.None? <==> KeptFootprints(elements, area, minArea, maxArea) == []
    ensures buildings.Some? ==> buildings.value == KeptFootprints(elements, area, minArea, maxArea)
  {
    var kept: seq<seq<(real, real)>> := [];
    for k := 0 to |elements|
      invariant kept == KeptFootprints(elements[..k], area, minArea, maxArea)
    {
      var e := elements[k];
      assert elements[..k + 1][..k] == elements[..k];
      if e.geometry.Some? {
        var coords := e.geometry.value;
        if |coords| > 2 {
          var m2 := area(coords) * SquareMetresPerSquareDegree;
          if m2 >= minArea && (maxArea.None? || m2 <= maxArea.value) {
            kept := kept + [coords];
          }
        }
      }
    }
    assert elements[..|elements|] == elements;
    if |kept| == 0 {
      return None;
    }
    return Some(kept);
  }

  /** A footprint is kept exactly when some element with that geometry passes the test. */
  lemma {:induction false} KeptMembers(elements: seq<Element>, area: seq<(real, real)> -> real, minArea: real, maxArea: Option<real>, p: seq<(real, real)>)
    ensures p in KeptFootprints(elements, area, minArea, maxArea) <==>
      exists k :: 0 <= k < |elements| && Keeps(elements[k], area, minArea, maxArea) && elements[k].geometry.value == p
  {
    if elements != [] {
      var init := elements[..|elements| - 1];
      KeptMembers(init, area, minArea, maxArea, p);
      assert forall k :: 0 <= k < |init| ==> init[k] == elements[k];
    }
  }

  /** A higher minimum area never keeps more footprints. */
  lemma {:induction false} KeptShrinks(elements: seq<Element>, area: seq<(real, real)> -> real, min1: real, min2: real, maxArea: Option<real>)
    requires min1 <= min2
    ensures |KeptFootprints(elements, area, min2, maxArea)| <= |KeptFootprints(elements, area, min1, maxArea)|
  {
    if elements != [] {
      KeptShrinks(elements[..|elements| - 1], area, min1, min2, maxArea);
    }
  }

  // ---------------------------------------------------------------------
  // temp_file_path and image_to_cog
  // ---------------------------------------------------------------------

  /** `if not extension.startswith("."): extension = "." + extension` */
  function DottedExtension(extension: string): (e: string)
    ensures |e| > 0 && e[0] == '.'
  {
    if StartsWith(extension, ".") then extension else "." + extension
  }

  /** The extension gets one leading dot: kept when present, added when missing, and only once. */
  lemma DottedExtensionSpec(extension: string)
    ensures StartsWith(extension, ".") ==> DottedExtension(extension) == extension
    ensures !StartsWith(extension, ".") ==> DottedExtension(extension) == "." + extension
    ensures DottedExtension(DottedExtension(extension)) == DottedExtension(extension)
  {
    assert StartsWith(DottedExtension(extension), ".");
  }

  /** `os.path.join(a, b)` for a relative `b`. */
  function Join(a: string, b: string): string {
    if a == [] || a[|a| - 1] == '/' then a + b else a + "/" + b
  }

  /**
   * `temp_file_path(extension)`, given the temporary directory and the
   * UUID the call draws.
   */
  function TempFilePath(tempDir: string, fileId: string, extension: string): (path: string)
    ensures |path| >= |DottedExtension(extension)|
    ensures path[|path| - |DottedExtension(extension)|..] == DottedExtension(extension)
  {
    var name := fileId + DottedExtension(extension);
    var path := Join(tempDir, name);
    assert path[|path| - |name|..] == name;
    path
  }

  /**
   * The destination `image_to_cog` picks when none is given: next to a
   * local source (`checked`, the absolute path `check_file_path` made of
   * it) with its extension replaced by `_cog.tif`, and a fresh temporary
   * `.tif` for a URL.
   */
  function DefaultCogPath(source: string, checked: string, tempPath: string): string {
    if !StartsWith(source, "http") then SplitExt(checked).0 + "_cog.tif" else tempPath
  }

  /**
   * For a local source the destination keeps the source's name without its
   * extension and ends in `_cog.tif`; it is never the source itself, so the
   * conversion does not overwrite its input.
   */
  lemma DefaultCogPathLocal(source: string, checked: string, tempPath: string)
    requires !StartsWith(source, "http")
    ensures var dst := DefaultCogPath(source, checked, tempPath);
      && dst[..|SplitExt(checked).0|] == SplitExt(checked).0
      && |dst| >= 8 && dst[|dst| - 8..] == "_cog.tif"
      && dst != checked
  {
  }
}
