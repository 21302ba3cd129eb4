/**
 * Slippy-map tile arithmetic used by `tms_to_geotiff` (urbanworm/utils.py):
 * the x part of `deg2num`, `resolution_to_zoom_level`, the covering tile
 * range of `draw_tile` with its x-outer, y-inner enumeration, and Python's
 * `round` (round half to even) used by `finish_picture`.
 */
module TileGrid {
  import opened Wrappers

  // ---------------------------------------------------------------------
  // Powers of two and `deg2num`'s x coordinate
  // ---------------------------------------------------------------------

  function Pow2(n: nat): (p: nat)
    ensures p >= 1
  {
    if n == 0 then 1 else 2 * Pow2(n - 1)
  }

  lemma {:induction false} Pow2Monotone(a: nat, b: nat)
    requires a <= b
    ensures Pow2(a) <= Pow2(b)
  {
    if a < b {
      Pow2Monotone(a, b - 1);
    }
  }

  /** `2**zoom` for any integer zoom; a negative zoom gives a fraction. */
  function Pow2Real(z: int): (p: real)
    ensures p > 0.0
  {
    if z >= 0 then Pow2(z) as real else 1.0 / (Pow2(-z) as real)
  }

  /** The x tile coordinate of `deg2num`: `(lon + 180) / 360 * 2**zoom`. */
  function TileX(lon: real, zoom: int): real {
    (lon + 180.0) / 360.0 * Pow2Real(zoom)
  }

  /** Moving east never decreases the x tile coordinate. */
  lemma TileXMonotone(lon0: real, lon1: real, zoom: int)
    requires lon0 <= lon1
    ensures TileX(lon0, zoom) <= TileX(lon1, zoom)
  {
    var p := Pow2Real(zoom);
    assert (lon1 + 180.0) / 360.0 - (lon0 + 180.0) / 360.0 == (lon1 - lon0) / 360.0;
    assert TileX(lon1, zoom) - TileX(lon0, zoom) == (lon1 - lon0) / 360.0 * p;
  }

  /** A longitude of the world maps into the grid's x range `[0, 2**zoom]`. */
  lemma TileXInGrid(lon: real, zoom: int)
    requires -180.0 <= lon <= 180.0
    ensures 0.0 <= TileX(lon, zoom) <= Pow2Real(zoom)
  {
    var p := Pow2Real(zoom);
    var f := (lon + 180.0) / 360.0;
    assert 0.0 <= f <= 1.0;
    assert f * p <= 1.0 * p;
  }

  // ---------------------------------------------------------------------
  // `resolution_to_zoom_level`: int(log2(156543.03392804097 / resolution))
  // ---------------------------------------------------------------------

  const InitialResolution: real := 156543.03392804097

  /** floor(log2 q) for q >= 1, the largest n with 2**n <= q. */
  function Log2Floor(q: real): (n: nat)
    requires q >= 1.0
    ensures Pow2(n) as real <= q < (Pow2(n + 1) as real)
    decreases q.Floor
  {
    if q < 2.0 then 0
    else
      assert (q / 2.0).Floor < q.Floor;
      1 + Log2Floor(q / 2.0)
  }

  lemma Log2FloorMonotone(q1: real, q2: real)
    requires 1.0 <= q1 <= q2
    ensures Log2Floor(q1) <= Log2Floor(q2)
  {
    var a, b := Log2Floor(q1), Log2Floor(q2);
    if a > b {
      Pow2Monotone(b + 1, a);
      assert false;
    }
  }

  /**
   * `int(math.log2(InitialResolution / resolution))`. `int` truncates toward
   * zero, so a ratio below 1 gives minus floor(log2(1 / ratio)). A
   * resolution of 0 divides by zero and a negative one takes the logarithm
   * of a negative number; both raise, which is `None` here.
   */
  function ResolutionToZoom(resolution: real): Option<int> {
    if resolution <= 0.0 then None
    else
      var q := InitialResolution / resolution;
      var z: int := if q >= 1.0 then Log2Floor(q) else -(Log2Floor(1.0 / q) as int);
      Some(z)
  }

  /**
   * The zoom is the truncated base-2 logarithm: for a ratio q >= 1 it is the
   * n with 2**n <= q < 2**(n+1); for q < 1 it is -n with
   * 2**n <= 1/q < 2**(n+1). A non-positive resolution is refused.
   */
  lemma ResolutionToZoomSpec(resolution: real)
    ensures resolution <= 0.0 <==> ResolutionToZoom(resolution).None?
    ensures resolution > 0.0 && InitialResolution / resolution >= 1.0 ==>
      var z := ResolutionToZoom(resolution).value;
      z >= 0 && Pow2(z) as real <= InitialResolution / resolution < Pow2(z + 1) as real
    ensures resolution > 0.0 && InitialResolution / resolution < 1.0 ==>
      var z := ResolutionToZoom(resolution).value;
      z <= 0 && Pow2(-z) as real <= resolution / InitialResolution < Pow2(-z + 1) as real
  {
    if resolution > 0.0 && InitialResolution / resolution < 1.0 {
      assert 1.0 / (InitialResolution / resolution) == resolution / InitialResolution;
    }
  }

  /** Dividing a positive constant by a larger divisor gives a smaller quotient. */
  lemma QuotientAntitone(a: real, r1: real, r2: real)
    requires a > 0.0 && 0.0 < r1 <= r2
    ensures a / r2 <= a / r1
  {
    assert a / r1 - a / r2 == a * (r2 - r1) / (r1 * r2);
    assert a * (r2 - r1) >= 0.0;
  }

  /** A coarser resolution never asks for a deeper zoom. */
  lemma ResolutionToZoomMonotone(r1: real, r2: real)
    requires 0.0 < r1 <= r2
    ensures ResolutionToZoom(r1).value >= ResolutionToZoom(r2).value
  {
    var q1, q2 := InitialResolution / r1, InitialResolution / r2;
    QuotientAntitone(InitialResolution, r1, r2);
    if q2 >= 1.0 {
      Log2FloorMonotone(q2, q1);
    } else if q1 < 1.0 {
      QuotientAntitone(1.0, q2, q1);
      Log2FloorMonotone(1.0 / q1, 1.0 / q2);
    }
  }

  // ---------------------------------------------------------------------
  // Floor, ceiling and the covering tile range of `draw_tile`
  // ---------------------------------------------------------------------

  function Floor(r: real): int {
    r.Floor
  }

  /** `math.ceil` */
  function Ceil(r: real): (c: int)
    ensures c as real - 1.0 < r <= c as real
  {
    -((-r).Floor)
  }

  /** `sorted([a, b])` */
  function Sorted2(a: real, b: real): (r: (real, real))
    ensures r.0 <= r.1
    ensures (r.0 == a && r.1 == b) || (r.0 == b && r.1 == a)
  {
    if a <= b then (a, b) else (b, a)
  }

  /**
   * The integer frame `(floor x0, floor y0, ceil x1, ceil y1)` that
   * `draw_tile` calls `bbox`: the tiles are `[minX, maxX) x [minY, maxY)`.
   */
  datatype TileBox = TileBox(minX: int, minY: int, maxX: int, maxY: int) {
    function Columns(): nat { if maxX > minX then maxX - minX else 0 }
    function Rows(): nat { if maxY > minY then maxY - minY else 0 }
  }

  /** The frame covering the fractional tile coordinates `x0 <= x1`, `y0 <= y1`. */
  function CoveringBox(x0: real, y0: real, x1: real, y1: real): (b: TileBox)
    requires x0 <= x1 && y0 <= y1
    ensures b.minX <= b.maxX && b.minY <= b.maxY
    ensures b.minX as real <= x0 && x1 <= b.maxX as real
    ensures b.minY as real <= y0 && y1 <= b.maxY as real
    ensures x0 < b.minX as real + 1.0 && b.maxX as real - 1.0 < x1
    ensures y0 < b.minY as real + 1.0 && b.maxY as real - 1.0 < y1
  {
    TileBox(Floor(x0), Floor(y0), Ceil(x1), Ceil(y1))
  }

  /** `range(lo, hi)` */
  function Range(lo: int, hi: int): (r: seq<int>)
    ensures |r| == if lo < hi then hi - lo else 0
    ensures forall i :: 0 <= i < |r| ==> r[i] == lo + i
    decreases hi - lo
  {
    if lo >= hi then [] else [lo] + Range(lo + 1, hi)
  }

  /** `itertools.product(xs, ys)`: all pairs, `xs` in the outer position. */
  function Product(xs: seq<int>, ys: seq<int>): seq<(int, int)> {
    if xs == [] then [] else seq(|ys|, j requires 0 <= j < |ys| => (xs[0], ys[j])) + Product(xs[1..], ys)
  }

  lemma {:induction false} ProductLength(xs: seq<int>, ys: seq<int>)
    ensures |Product(xs, ys)| == |xs| * |ys|
  {
    if xs != [] {
      ProductLength(xs[1..], ys);
      assert |xs| * |ys| == |ys| + (|xs| - 1) * |ys|;
    }
  }

  /** The pair at index `i * |ys| + j` of the product is `(xs[i], ys[j])`. */
  lemma {:induction false} ProductAt(xs: seq<int>, ys: seq<int>, i: int, j: int)
    requires 0 <= i < |xs| && 0 <= j < |ys|
    ensures |Product(xs, ys)| == |xs| * |ys|
    ensures 0 <= i * |ys| + j < |xs| * |ys|
    ensures Product(xs, ys)[i * |ys| + j] == (xs[i], ys[j])
  {
    ProductLength(xs, ys);
    var n := |ys|;
    RowMajorBound(i, |xs|, j, n);
    var head := seq(n, k requires 0 <= k < n => (xs[0], ys[k]));
    assert Product(xs, ys) == head + Product(xs[1..], ys);
    if i > 0 {
      ProductAt(xs[1..], ys, i - 1, j);
      assert i * n + j == n + ((i - 1) * n + j);
    }
  }

  /** Row-major index `i * n + j` of an `m` by `n` grid is in range. */
  lemma RowMajorBound(i: int, m: int, j: int, n: int)
    requires 0 <= i < m && 0 <= j < n
    ensures 0 <= i * n + j < m * n
  {
    MulNonNegative(i, n);
    MulNonNegative(m - i - 1, n);
    assert m * n - (i * n + j) == (m - i - 1) * n + (n - j);
  }

  lemma MulNonNegative(a: int, b: int)
    requires a >= 0 && b >= 0
    ensures a * b >= 0
  {
  }

  /** Membership in the product is membership of both components. */
  lemma {:induction false} ProductMember(xs: seq<int>, ys: seq<int>, p: (int, int))
    ensures p in Product(xs, ys) <==> p.0 in xs && p.1 in ys
  {
    if xs != [] {
      ProductMember(xs[1..], ys, p);
      var head := seq(|ys|, j requires 0 <= j < |ys| => (xs[0], ys[j]));
      assert Product(xs, ys) == head + Product(xs[1..], ys);
      if p.0 == xs[0] && p.1 in ys {
        var j :| 0 <= j < |ys| && ys[j] == p.1;
        assert head[j] == p;
      }
      assert p in head ==> p.0 == xs[0] && p.1 in ys;
      assert xs == [xs[0]] + xs[1..];
    }
  }

  /** The tiles fetched by `draw_tile`, in submission order. */
  function Corners(b: TileBox): seq<(int, int)> {
    Product(Range(b.minX, b.maxX), Range(b.minY, b.maxY))
  }

  /** The enumeration holds exactly the tiles of the frame. */
  lemma CornersMembers(b: TileBox, x: int, y: int)
    ensures (x, y) in Corners(b) <==> b.minX <= x < b.maxX && b.minY <= y < b.maxY
  {
    ProductMember(Range(b.minX, b.maxX), Range(b.minY, b.maxY), (x, y));
    var xs, ys := Range(b.minX, b.maxX), Range(b.minY, b.maxY);
    if b.minX <= x < b.maxX { assert xs[x - b.minX] == x; }
    if b.minY <= y < b.maxY { assert ys[y - b.minY] == y; }
  }

  /**
   * There are columns times rows of them, and the k-th is
   * `(minX + k / rows, minY + k % rows)`: x in the outer loop, y inner.
   */
  lemma CornerAt(b: TileBox, k: int)
    requires 0 <= k < b.Columns() * b.Rows()
    ensures |Corners(b)| == b.Columns() * b.Rows()
    ensures Corners(b)[k] == (b.minX + k / b.Rows(), b.minY + k % b.Rows())
  {
    var xs, ys := Range(b.minX, b.maxX), Range(b.minY, b.maxY);
    var n := b.Rows();
    var i, j := k / n, k % n;
    assert k == i * n + j;
    MulCancel(i, b.Columns(), n);
    ProductAt(xs, ys, i, j);
  }

  lemma MulCancel(a: int, b: int, n: int)
    requires n > 0
    ensures a * n < b * n ==> a < b
  {
    if a >= b {
      assert a * n - b * n == (a - b) * n;
    }
  }

  lemma CornersLength(b: TileBox)
    ensures |Corners(b)| == b.Columns() * b.Rows()
  {
    ProductLength(Range(b.minX, b.maxX), Range(b.minY, b.maxY));
  }

  // ---------------------------------------------------------------------
  // Python's round(): to the nearest integer, ties to the even one
  // ---------------------------------------------------------------------

  function RoundHalfEven(r: real): int {
    var f := r.Floor;
    var d := r - f as real;
    if d < 0.5 then f
    else if d > 0.5 then f + 1
    else if f % 2 == 0 then f
    else f + 1
  }

  predicate Even(n: int) { n % 2 == 0 }

  function AbsReal(r: real): real { if r < 0.0 then -r else r }

  /** The distance from `r` to the integer `m`. */
  function Dist(r: real, m: int): real { AbsReal(r - m as real) }

  lemma DistFromFloor(r: real, m: int)
    ensures m <= r.Floor ==> Dist(r, m) >= r - r.Floor as real
    ensures m > r.Floor ==> Dist(r, m) >= r.Floor as real + 1.0 - r
  {
  }

  /** `RoundHalfEven(r)` is an integer nearest to `r`, the even one on a tie. */
  lemma RoundIsNearest(r: real, m: int)
    ensures Dist(r, RoundHalfEven(r)) <= 0.5
    ensures Dist(r, RoundHalfEven(r)) <= Dist(r, m)
    ensures m != RoundHalfEven(r) && Dist(r, m) == Dist(r, RoundHalfEven(r)) ==> Even(RoundHalfEven(r))
  {
    var f := r.Floor;
    var d := r - f as real;
    DistFromFloor(r, m);
    assert Dist(r, f) == d && Dist(r, f + 1) == 1.0 - d;
  }

  /** Those two facts determine the rounded value: no other integer has them. */
  lemma RoundUnique(r: real, n: int)
    requires forall m: int :: Dist(r, n) <= Dist(r, m)
    requires forall m: int :: m != n && Dist(r, m) == Dist(r, n) ==> Even(n)
    ensures n == RoundHalfEven(r)
  {
    var k := RoundHalfEven(r);
    RoundIsNearest(r, n);
    assert Dist(r, n) <= Dist(r, k);
    assert Dist(r, n) == Dist(r, k);
    assert n != k ==> Even(n);
    assert n != k ==> Even(k);
    assert n != k ==> n - k == 1 || k - n == 1;
  }

  /** Rounding a non-negative value gives a non-negative integer. */
  lemma RoundNonNegative(r: real)
    requires r >= 0.0
    ensures RoundHalfEven(r) >= 0
  {
  }
}
