/**
 * What `draw_tile` does after compositing (urbanworm/utils.py):
 * `finish_picture` crops the canvas to the requested fractional extent and
 * drops a fully opaque alpha channel; then the image is split into bands,
 * each reshaped to height x width, and written with a north-up
 * geotransform built from the projected corners.
 */
module Picture {
  import opened TileGrid
  import opened Mosaic

  /** A PIL image held as rows of pixels. */
  datatype Image = Image(mode: Mode, width: nat, height: nat, rows: seq<seq<Pixel>>) {
    predicate WellFormed() {
      |rows| == height && forall i :: 0 <= i < |rows| ==> |rows[i]| == width
    }
  }

  // ---------------------------------------------------------------------
  // finish_picture
  // ---------------------------------------------------------------------

  /**
   * The number of pixels, at `size` pixels per tile, between the fractional
   * tile coordinates `from` and `to`.
   */
  function Scaled(size: nat, from: real, to: real): real {
    size as real * (to - from)
  }

  /**
   * The crop box of `finish_picture`: `(x2, y2, x2 + imgw, y2 + imgh)` with
   * `x2 = round(w * (x0 - minX))`, `y2 = round(h * (y0 - minY))`,
   * `imgw = round(w * (x1 - x0))`, `imgh = round(h * (y1 - y0))`.
   */
  function CropBoxOf(baseWidth: nat, baseHeight: nat, box: TileBox, x0: real, y0: real, x1: real, y1: real): (c: CropBox)
    requires x0 <= x1 && y0 <= y1
    ensures c.left <= c.right && c.upper <= c.lower
  {
    var x2 := RoundHalfEven(Scaled(baseWidth, box.minX as real, x0));
    var y2 := RoundHalfEven(Scaled(baseHeight, box.minY as real, y0));
    ScaledNonNegative(baseWidth, x0, x1);
    ScaledNonNegative(baseHeight, y0, y1);
    RoundNonNegative(Scaled(baseWidth, x0, x1));
    RoundNonNegative(Scaled(baseHeight, y0, y1));
    var imgw := RoundHalfEven(Scaled(baseWidth, x0, x1));
    var imgh := RoundHalfEven(Scaled(baseHeight, y0, y1));
    CropBox(x2, y2, x2 + imgw, y2 + imgh)
  }

  lemma RoundBounds(r: real)
    ensures r - 0.5 <= RoundHalfEven(r) as real <= r + 0.5
  {
    RoundIsNearest(r, 0);
  }

  lemma RoundBelow(r: real, n: int)
    requires r <= n as real
    ensures RoundHalfEven(r) <= n
  {
    RoundIsNearest(r, n);
  }

  lemma ScaleMonotone(w: real, a: real, b: real)
    requires w >= 0.0 && a <= b
    ensures w * a <= w * b
  {
    assert w * b - w * a == w * (b - a);
  }

  lemma ScaledNonNegative(size: nat, from: real, to: real)
    requires from <= to
    ensures Scaled(size, from, to) >= 0.0
  {
    ScaleMonotone(size as real, 0.0, to - from);
  }

  /** Less than one tile from its start, the scaled distance stays within one tile. */
  lemma ScaledWithinTile(size: nat, from: real, to: real)
    requires from <= to <= from + 1.0
    ensures 0.0 <= Scaled(size, from, to) <= size as real
  {
    var w, d := size as real, to - from;
    assert Scaled(size, from, to) == w * d;
    ScaleMonotone(w, 0.0, d);
    ScaleMonotone(w, d, 1.0);
    assert w * 1.0 == w;
  }

  /** Scaled distances add up along an axis and grow with the distance. */
  lemma ScaledSum(size: nat, lo: real, a0: real, a1: real, span: int)
    requires a1 - lo <= span as real
    ensures Scaled(size, lo, a0) + Scaled(size, a0, a1) <= (size * span) as real
  {
    var w := size as real;
    assert Scaled(size, lo, a0) + Scaled(size, a0, a1) == w * (a1 - lo);
    ScaleMonotone(w, a1 - lo, span as real);
    assert w * span as real == (size * span) as real;
  }

  /** The crop starts inside the first tile: `0 <= round(w * (a0 - lo)) <= w`. */
  lemma RoundWithin(size: nat, lo: real, a0: real)
    requires lo <= a0 <= lo + 1.0
    ensures 0 <= RoundHalfEven(Scaled(size, lo, a0)) <= size
  {
    ScaledWithinTile(size, lo, a0);
    RoundNonNegative(Scaled(size, lo, a0));
    RoundBelow(Scaled(size, lo, a0), size);
  }

  /** Two roundings add at most one pixel to the span they cover. */
  lemma RoundSumBound(size: nat, lo: real, a0: real, a1: real, span: int)
    requires a1 - lo <= span as real
    ensures RoundHalfEven(Scaled(size, lo, a0)) + RoundHalfEven(Scaled(size, a0, a1)) <= size * span + 1
  {
    ScaledSum(size, lo, a0, a1, span);
    RoundBounds(Scaled(size, lo, a0));
    RoundBounds(Scaled(size, a0, a1));
  }

  /**
   * For a frame that covers the fractional coordinates with the first
   * column and row containing `(x0, y0)` (as `CoveringBox` does), the crop
   * starts inside the first tile column and row, and ends at most one pixel
   * past the canvas: each of the two roundings may add half a pixel.
   */
  lemma CropWithinCanvas(baseWidth: nat, baseHeight: nat, box: TileBox, x0: real, y0: real, x1: real, y1: real)
    requires x0 <= x1 && y0 <= y1
    requires box.minX as real <= x0 < box.minX as real + 1.0 && x1 <= box.maxX as real
    requires box.minY as real <= y0 < box.minY as real + 1.0 && y1 <= box.maxY as real
    ensures
      var c := CropBoxOf(baseWidth, baseHeight, box, x0, y0, x1, y1);
      && 0 <= c.left <= baseWidth && 0 <= c.upper <= baseHeight
      && c.right <= baseWidth * box.Columns() + 1
      && c.lower <= baseHeight * box.Rows() + 1
  {
    RoundWithin(baseWidth, box.minX as real, x0);
    RoundWithin(baseHeight, box.minY as real, y0);
    RoundSumBound(baseWidth, box.minX as real, x0, x1, box.maxX - box.minX);
    RoundSumBound(baseHeight, box.minY as real, y0, y1, box.maxY - box.minY);
  }

  /** Every alpha value is 255 (and the image is not empty). */
  predicate FullyOpaque(img: Image)
    requires img.WellFormed()
  {
    img.width > 0 && img.height > 0
    && forall i, j :: 0 <= i < img.height && 0 <= j < img.width ==> img.rows[i][j].a == 255
  }

  /** `convert("RGB")` */
  function ToRGB(img: Image): (r: Image)
    requires img.WellFormed()
    ensures r.WellFormed()
  {
    Image(RGB, img.width, img.height,
      seq(img.height, i requires 0 <= i < img.height =>
        seq(img.width, j requires 0 <= j < img.width => Convert(img.rows[i][j], img.mode, RGB))))
  }

  /** `finish_picture(bigim, base_size, bbox, x0, y0, x1, y1)` on the canvas contents. */
  function Finished(grid: seq<seq<Pixel>>, width: nat, height: nat, mode: Mode,
                    baseWidth: nat, baseHeight: nat, box: TileBox, x0: real, y0: real, x1: real, y1: real): (img: Image)
    requires |grid| == height && forall i :: 0 <= i < height ==> |grid[i]| == width
    requires x0 <= x1 && y0 <= y1
    ensures img.WellFormed()
  {
    var c := CropBoxOf(baseWidth, baseHeight, box, x0, y0, x1, y1);
    var cropped := Image(mode, c.right - c.left, c.lower - c.upper, CropGrid(grid, width, height, mode, c));
    if mode == RGBA && FullyOpaque(cropped) then ToRGB(cropped) else cropped
  }

  /**
   * The finished picture is `round(w * (x1 - x0))` by `round(h * (y1 - y0))`
   * pixels; its pixel (i, j) is the canvas pixel at (y2 + i, x2 + j), or
   * blank where the crop box leaves the canvas; it is RGBA exactly when the
   * canvas is RGBA and some pixel is not fully opaque. Dropping the alpha
   * channel changes no pixel.
   */
  lemma FinishedSpec(grid: seq<seq<Pixel>>, width: nat, height: nat, mode: Mode,
                     baseWidth: nat, baseHeight: nat, box: TileBox, x0: real, y0: real, x1: real, y1: real,
                     i: int, j: int)
    requires |grid| == height && forall i :: 0 <= i < height ==> |grid[i]| == width
    requires x0 <= x1 && y0 <= y1
    requires mode == RGB || mode == RGBA
    requires 0 <= i < RoundHalfEven(Scaled(baseHeight, y0, y1))
    requires 0 <= j < RoundHalfEven(Scaled(baseWidth, x0, x1))
    ensures
      var img := Finished(grid, width, height, mode, baseWidth, baseHeight, box, x0, y0, x1, y1);
      var c := CropBoxOf(baseWidth, baseHeight, box, x0, y0, x1, y1);
      var x2, y2 := c.left, c.upper;
      && img.width == RoundHalfEven(Scaled(baseWidth, x0, x1))
      && img.height == RoundHalfEven(Scaled(baseHeight, y0, y1))
      && img.rows[i][j] == (if 0 <= y2 + i < height && 0 <= x2 + j < width then grid[y2 + i][x2 + j] else Blank(mode))
      && (img.mode == RGBA <==>
            mode == RGBA && exists p, q :: 0 <= p < img.height && 0 <= q < img.width && img.rows[p][q].a != 255)
  {
    var img := Finished(grid, width, height, mode, baseWidth, baseHeight, box, x0, y0, x1, y1);
    var c := CropBoxOf(baseWidth, baseHeight, box, x0, y0, x1, y1);
    var cropped := Image(mode, c.right - c.left, c.lower - c.upper, CropGrid(grid, width, height, mode, c));
    if mode == RGBA && FullyOpaque(cropped) {
      assert img.rows[i][j] == cropped.rows[i][j].(a := 255) == cropped.rows[i][j];
    }
  }

  /** The finished picture is `round(w * (x1 - x0))` by `round(h * (y1 - y0))` pixels. */
  lemma FinishedSize(grid: seq<seq<Pixel>>, width: nat, height: nat, mode: Mode,
                     baseWidth: nat, baseHeight: nat, box: TileBox, x0: real, y0: real, x1: real, y1: real)
    requires |grid| == height && forall i :: 0 <= i < height ==> |grid[i]| == width
    requires x0 <= x1 && y0 <= y1
    ensures
      var img := Finished(grid, width, height, mode, baseWidth, baseHeight, box, x0, y0, x1, y1);
      && img.width == RoundHalfEven(Scaled(baseWidth, x0, x1))
      && img.height == RoundHalfEven(Scaled(baseHeight, y0, y1))
  {
  }

  /**
   * For a frame whose first column and row contain `(x0, y0)`, pixel
   * (i, j) of the finished picture is read at canvas position
   * (y2 + i, x2 + j), which is never before the canvas, and is blank only
   * past its end.
   */
  lemma CroppedPixel(grid: seq<seq<Pixel>>, width: nat, height: nat, mode: Mode,
                     baseWidth: nat, baseHeight: nat, box: TileBox, x0: real, y0: real, x1: real, y1: real,
                     i: int, j: int)
    requires |grid| == height && forall i :: 0 <= i < height ==> |grid[i]| == width
    requires x0 <= x1 && y0 <= y1 && (mode == RGB || mode == RGBA)
    requires box.minX as real <= x0 < box.minX as real + 1.0 && x1 <= box.maxX as real
    requires box.minY as real <= y0 < box.minY as real + 1.0 && y1 <= box.maxY as real
    requires 0 <= i < RoundHalfEven(Scaled(baseHeight, y0, y1))
    requires 0 <= j < RoundHalfEven(Scaled(baseWidth, x0, x1))
    ensures
      var img := Finished(grid, width, height, mode, baseWidth, baseHeight, box, x0, y0, x1, y1);
      var c := CropBoxOf(baseWidth, baseHeight, box, x0, y0, x1, y1);
      var y, x := c.upper + i, c.left + j;
      && 0 <= y && 0 <= x
      && img.height == RoundHalfEven(Scaled(baseHeight, y0, y1))
      && img.width == RoundHalfEven(Scaled(baseWidth, x0, x1))
      && img.rows[i][j] == (if y < height && x < width then grid[y][x] else Blank(mode))
  {
    CropWithinCanvas(baseWidth, baseHeight, box, x0, y0, x1, y1);
    FinishedSpec(grid, width, height, mode, baseWidth, baseHeight, box, x0, y0, x1, y1, i, j);
  }

  /**
   * `retim.getextrema()[3] == (255, 255)`: a scan of the alpha band for a
   * value other than 255.
   */
  method AlphaOpaque(img: Image) returns (allOpaque: bool)
    requires img.WellFormed()
    ensures allOpaque == FullyOpaque(img)
  {
    if img.width == 0 || img.height == 0 {
      return false;
    }
    for i := 0 to img.height
      invariant forall p, q :: 0 <= p < i && 0 <= q < img.width ==> img.rows[p][q].a == 255
    {
      for j := 0 to img.width
        invariant forall p, q :: 0 <= p < i && 0 <= q < img.width ==> img.rows[p][q].a == 255
        invariant forall q :: 0 <= q < j ==> img.rows[i][q].a == 255
      {
        if img.rows[i][j].a != 255 {
          return false;
        }
      }
    }
    return true;
  }

  /**
   * `finish_picture` on the composited canvas: crop, then drop an alpha
   * channel that is 255 everywhere.
   */
  method FinishPicture(bigim: Canvas, baseWidth: nat, baseHeight: nat, box: TileBox,
                       x0: real, y0: real, x1: real, y1: real) returns (img: Image)
    requires bigim.Valid() && x0 <= x1 && y0 <= y1
    ensures img == Finished(bigim.Grid(), bigim.width, bigim.height, bigim.mode, baseWidth, baseHeight, box, x0, y0, x1, y1)
  {
    var c := CropBoxOf(baseWidth, baseHeight, box, x0, y0, x1, y1);
    var rows := bigim.Crop(c);
    img := Image(bigim.mode, c.right - c.left, c.lower - c.upper, rows);
    if img.mode == RGBA {
      var allOpaque := AlphaOpaque(img);
      if allOpaque {
        img := ToRGB(img);
      }
    }
  }

  // ---------------------------------------------------------------------
  // Bands
  // ---------------------------------------------------------------------

  /** `len(img.getbands())` */
  function BandCount(mode: Mode): nat {
    if mode == RGB then 3 else 4
  }

  function BandValue(p: Pixel, band: nat): int
    requires band < 4
  {
    if band == 0 then p.r else if band == 1 then p.g else if band == 2 then p.b else p.a
  }

  /** One band of one row of pixels. */
  function RowBand(row: seq<Pixel>, band: nat): seq<int>
    requires band < 4
  {
    seq(|row|, j requires 0 <= j < |row| => BandValue(row[j], band))
  }

  /** `img.getdata(band)`: one band's values, row after row. */
  function GetData(rows: seq<seq<Pixel>>, band: nat): seq<int>
    requires band < 4
  {
    if rows == [] then [] else RowBand(rows[0], band) + GetData(rows[1..], band)
  }

  /** `array.reshape((height, width))` of a flat sequence: row `i` is the `i`-th run of `width` values. */
  function Reshape(flat: seq<int>, height: nat, width: nat): (grid: seq<seq<int>>)
    requires |flat| == width * height
    ensures |grid| == height
  {
    seq(height, i requires 0 <= i < height =>
      BlockInside(width, i, height);
      flat[width * i .. width * i + width])
  }

  lemma {:induction false} GetDataLength(rows: seq<seq<Pixel>>, width: nat, band: nat)
    requires band < 4
    requires forall r :: 0 <= r < |rows| ==> |rows[r]| == width
    ensures |GetData(rows, band)| == width * |rows|
  {
    if rows != [] {
      GetDataLength(rows[1..], width, band);
      assert width * |rows| == width + width * (|rows| - 1);
    }
  }

  lemma SliceAfter(a: seq<int>, b: seq<int>, lo: int, hi: int)
    requires 0 <= lo <= hi <= |b|
    ensures (a + b)[|a| + lo .. |a| + hi] == b[lo .. hi]
  {
  }

  /** Row `i` of the pixels occupies the `i`-th run of `width` values of the band's data. */
  lemma {:induction false} GetDataRow(rows: seq<seq<Pixel>>, width: nat, band: nat, i: int)
    requires band < 4
    requires forall r :: 0 <= r < |rows| ==> |rows[r]| == width
    requires 0 <= i < |rows|
    ensures |GetData(rows, band)| == width * |rows|
    ensures 0 <= width * i && width * i + width <= width * |rows|
    ensures GetData(rows, band)[width * i .. width * i + width] == RowBand(rows[i], band)
  {
    GetDataLength(rows, width, band);
    BlockInside(width, i, |rows|);
    if i > 0 {
      GetDataRow(rows[1..], width, band, i - 1);
      var m := width * (i - 1);
      assert width * i == width + m;
      SliceAfter(RowBand(rows[0], band), GetData(rows[1..], band), m, m + width);
    }
  }

  /**
   * Reshaping a band's flat data to height x width gives back the band as
   * a grid: row `i` is the band of pixel row `i`.
   */
  lemma ReshapeGetData(img: Image, band: nat, i: int)
    requires img.WellFormed() && band < 4
    requires 0 <= i < img.height
    ensures |GetData(img.rows, band)| == img.width * img.height
    ensures Reshape(GetData(img.rows, band), img.height, img.width)[i] == RowBand(img.rows[i], band)
  {
    GetDataRow(img.rows, img.width, band, i);
  }

  /**
   * The band arrays `draw_tile` writes: `for band in range(imgbands)`, each
   * band's data reshaped to height x width.
   */
  method BandArrays(img: Image) returns (bands: seq<seq<seq<int>>>)
    requires img.WellFormed()
    ensures |bands| == BandCount(img.mode)
    ensures forall b :: 0 <= b < |bands| ==> |bands[b]| == img.height
    ensures forall b, i :: 0 <= b < |bands| && 0 <= i < img.height ==> bands[b][i] == RowBand(img.rows[i], b)
    ensures bands == BandGrids(img)
  {
    bands := [];
    var n := BandCount(img.mode);
    for b := 0 to n
      invariant |bands| == b
      invariant forall c :: 0 <= c < b ==> |bands[c]| == img.height
      invariant forall c, i :: 0 <= c < b && 0 <= i < img.height ==> bands[c][i] == RowBand(img.rows[i], c)
    {
      GetDataLength(img.rows, img.width, b);
      var grid := Reshape(GetData(img.rows, b), img.height, img.width);
      forall i | 0 <= i < img.height
        ensures grid[i] == RowBand(img.rows[i], b)
      {
        ReshapeGetData(img, b, i);
      }
      bands := bands + [grid];
    }
    assert forall b :: 0 <= b < |bands| ==> bands[b] == BandGrids(img)[b];
  }

  /** The bands of an image, each as a grid of `height` rows of `width` values. */
  function BandGrids(img: Image): (bands: seq<seq<seq<int>>>)
    requires img.WellFormed()
    ensures |bands| == BandCount(img.mode)
  {
    seq(BandCount(img.mode), b requires 0 <= b < BandCount(img.mode) =>
      seq(img.height, i requires 0 <= i < img.height => RowBand(img.rows[i], b)))
  }

  // ---------------------------------------------------------------------
  // The geotransform
  // ---------------------------------------------------------------------

  /** GDAL's six coefficients: origin, pixel width, two rotations, pixel height. */
  datatype GeoTransform = GeoTransform(
    originX: real, pixelWidth: real, rowRotation: real,
    originY: real, columnRotation: real, pixelHeight: real)

  function MinR(a: real, b: real): real { if a <= b then a else b }
  function MaxR(a: real, b: real): real { if a >= b then a else b }

  /**
   * `(min(xp0, xp1), pwidth, 0, max(yp0, yp1), 0, -pheight)` with
   * `pwidth = abs(xp1 - xp0) / width` and `pheight = abs(yp1 - yp0) / height`.
   */
  function GeoTransformOf(xp0: real, yp0: real, xp1: real, yp1: real, width: nat, height: nat): GeoTransform
    requires width > 0 && height > 0
  {
    GeoTransform(MinR(xp0, xp1), AbsReal(xp1 - xp0) / width as real, 0.0,
                 MaxR(yp0, yp1), 0.0, -(AbsReal(yp1 - yp0) / height as real))
  }

  /**
   * The transform is north-up and unrotated, and maps the raster exactly
   * onto the projected box: the top-left pixel corner is the west-north
   * corner, and `width` pixels east and `height` pixels south reach the
   * east-south corner.
   */
  lemma GeoTransformSpansBox(xp0: real, yp0: real, xp1: real, yp1: real, width: nat, height: nat)
    requires width > 0 && height > 0
    ensures
      var g := GeoTransformOf(xp0, yp0, xp1, yp1, width, height);
      && g.rowRotation == 0.0 && g.columnRotation == 0.0
      && g.pixelWidth >= 0.0 && g.pixelHeight <= 0.0
      && g.originX <= xp0 && g.originX <= xp1
      && g.originY >= yp0 && g.originY >= yp1
      && g.originX + width as real * g.pixelWidth == MaxR(xp0, xp1)
      && g.originY + height as real * g.pixelHeight == MinR(yp0, yp1)
  {
    var w, h := width as real, height as real;
    assert w * (AbsReal(xp1 - xp0) / w) == AbsReal(xp1 - xp0);
    assert h * -(AbsReal(yp1 - yp0) / h) == -AbsReal(yp1 - yp0);
  }
}
