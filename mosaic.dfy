/**
 * The compositing half of `draw_tile` in `tms_to_geotiff`
 * (urbanworm/utils.py): `is_empty`, `paste_tile` and the loop that pastes
 * the fetched tiles, in submission order, onto a lazily created canvas.
 *
 * Image decoding is a parameter: `Image.open` on a downloaded body either
 * fails (the body is not an image) or gives a tile, a record holding its
 * size, its PIL mode, the per-band extrema that `is_empty` inspects and its
 * pixels, both as they are after the tile has been brought into its paste
 * mode (RGB stays RGB, every other mode is converted to RGBA). The extrema
 * are taken as given with the tile; they are not recomputed from the
 * pixels.
 */
module Mosaic {
  import opened Wrappers
  import opened TileGrid
  import opened TileFetch

  datatype Mode = RGB | RGBA | OtherMode(name: string)

  /**
   * A pixel with an alpha channel. Pixels of an RGB image carry alpha 255,
   * which is what PIL gives them when they are converted to RGBA.
   */
  datatype Pixel = Pixel(r: int, g: int, b: int, a: int)

  datatype TileImage = TileImage(
    width: nat,
    height: nat,
    mode: Mode,
    extrema: seq<(int, int)>,
    pixels: seq<seq<Pixel>>)
  {
    /** The pixel rows match the size, and there is at least one band. */
    predicate WellFormed() {
      && |pixels| == height
      && (forall i :: 0 <= i < |pixels| ==> |pixels[i]| == width)
      && |extrema| >= 1
    }
  }

  /** What `Image.open` gives: an image whose pixel rows match its size. */
  type Tile = t: TileImage | t.WellFormed() witness TileImage(0, 0, RGB, [(0, 0)], [])

  /** `mode = "RGB" if im.mode == "RGB" else "RGBA"` */
  function PasteMode(m: Mode): Mode {
    if m == RGB then RGB else RGBA
  }

  /** The colour PIL gives a new image: black, and transparent when it has alpha. */
  function Blank(mode: Mode): Pixel {
    Pixel(0, 0, 0, if mode == RGB then 255 else 0)
  }

  /** PIL's conversion of a pixel between RGB and RGBA. */
  function Convert(p: Pixel, from: Mode, to: Mode): Pixel {
    if from == RGB || to == RGB then p.(a := 255) else p
  }

  // ---------------------------------------------------------------------
  // is_empty
  // ---------------------------------------------------------------------

  /**
   * When `is_empty` holds of an image with these band extrema: more than
   * three bands and the last (alpha) band is (0, 0); or at least three bands
   * and the first three are (0, 0); or fewer than three bands and the first
   * is (0, 0).
   */
  predicate EmptyExtrema(extrema: seq<(int, int)>)
    requires |extrema| >= 1
  {
    if |extrema| >= 3 then
      (|extrema| > 3 && extrema[|extrema| - 1] == (0, 0))
      || (forall i :: 0 <= i < 3 ==> extrema[i] == (0, 0))
    else
      extrema[0] == (0, 0)
  }

  /** `is_empty(im)`, with its early returns. */
  method IsEmpty(extrema: seq<(int, int)>) returns (empty: bool)
    requires |extrema| >= 1
    ensures empty == EmptyExtrema(extrema)
  {
    if |extrema| >= 3 {
      if |extrema| > 3 && extrema[|extrema| - 1] == (0, 0) {
        return true;
      }
      for i := 0 to 3
        invariant forall j :: 0 <= j < i ==> extrema[j] == (0, 0)
      {
        if extrema[i] != (0, 0) {
          return false;
        }
      }
      return true;
    } else {
      return extrema[0] == (0, 0);
    }
  }

  /** Whether `paste_tile` pastes a tile: always for RGB, otherwise unless it is empty. */
  predicate Pasted(t: TileImage)
    requires t.WellFormed()
  {
    PasteMode(t.mode) == RGB || !EmptyExtrema(t.extrema)
  }

  // ---------------------------------------------------------------------
  // The canvas
  // ---------------------------------------------------------------------

  /** The pixel at row `i`, column `j` after pasting `t` with its top-left corner at `(x, y)`. */
  function PasteAt(prev: Pixel, mode: Mode, t: TileImage, x: int, y: int, i: int, j: int): Pixel
    requires t.WellFormed()
  {
    if y <= i < y + t.height && x <= j < x + t.width
    then Convert(t.pixels[i - y][j - x], PasteMode(t.mode), mode)
    else prev
  }

  /** The PIL image `bigim`: a mode, a size and a pixel buffer updated in place. */
  class Canvas {
    const mode: Mode
    const width: nat
    const height: nat
    const pixels: array2<Pixel>

    ghost predicate Valid() {
      && pixels.Length0 == height
      && pixels.Length1 == width
      && (mode == RGB || mode == RGBA)
    }

    /** `Image.new(mode, (width, height))` */
    constructor (mode: Mode, width: nat, height: nat)
      requires mode == RGB || mode == RGBA
      ensures Valid() && fresh(pixels)
      ensures this.mode == mode && this.width == width && this.height == height
      ensures forall i, j :: 0 <= i < height && 0 <= j < width ==> pixels[i, j] == Blank(mode)
    {
      this.mode := mode;
      this.width := width;
      this.height := height;
      pixels := new Pixel[height, width]((i, j) => Blank(mode));
    }

    /**
     * `Image.paste(t, (x, y))`: the tile's pixels, converted to the canvas
     * mode, replace the covered part of the canvas; the rest of the tile is
     * clipped and the rest of the canvas is untouched.
     */
    method Paste(t: TileImage, x: int, y: int)
      requires Valid() && t.WellFormed()
      modifies pixels
      ensures forall i, j :: 0 <= i < height && 0 <= j < width ==>
        pixels[i, j] == PasteAt(old(pixels[i, j]), mode, t, x, y, i, j)
    {
      forall i, j | 0 <= i < height && 0 <= j < width && y <= i < y + t.height && x <= j < x + t.width {
        pixels[i, j] := Convert(t.pixels[i - y][j - x], PasteMode(t.mode), mode);
      }
    }

    /** The pixel buffer as rows of pixels. */
    ghost function Grid(): (g: seq<seq<Pixel>>)
      requires Valid()
      reads pixels
      ensures |g| == height
      ensures forall i :: 0 <= i < height ==> |g[i]| == width
      ensures forall i, j :: 0 <= i < height && 0 <= j < width ==> g[i][j] == pixels[i, j]
    {
      seq(height, i requires 0 <= i < height reads pixels =>
        seq(width, j requires 0 <= j < width reads pixels => pixels[i, j]))
    }

    /** `Image.crop(c)` */
    method Crop(c: CropBox) returns (rows: seq<seq<Pixel>>)
      requires Valid() && c.left <= c.right && c.upper <= c.lower
      ensures rows == CropGrid(Grid(), width, height, mode, c)
    {
      rows := seq(c.lower - c.upper, i requires 0 <= i < c.lower - c.upper reads pixels =>
        seq(c.right - c.left, j requires 0 <= j < c.right - c.left reads pixels =>
          if 0 <= c.upper + i < height && 0 <= c.left + j < width then pixels[c.upper + i, c.left + j] else Blank(mode)));
      ghost var expected := CropGrid(Grid(), width, height, mode, c);
      assert forall i :: 0 <= i < |rows| ==> rows[i] == expected[i];
    }
  }

  /** PIL's `crop`: the box may reach past the image, and the part outside is zeros. */
  function CropGrid(grid: seq<seq<Pixel>>, width: nat, height: nat, mode: Mode, c: CropBox): (rows: seq<seq<Pixel>>)
    requires |grid| == height && forall i :: 0 <= i < height ==> |grid[i]| == width
    requires c.left <= c.right && c.upper <= c.lower
    ensures |rows| == c.lower - c.upper
    ensures forall i :: 0 <= i < |rows| ==> |rows[i]| == c.right - c.left
  {
    seq(c.lower - c.upper, i requires 0 <= i < c.lower - c.upper =>
      seq(c.right - c.left, j requires 0 <= j < c.right - c.left =>
        if 0 <= c.upper + i < height && 0 <= c.left + j < width then grid[c.upper + i][c.left + j] else Blank(mode)))
  }

  /** The box `(left, upper, right, lower)` handed to `Image.crop`. */
  datatype CropBox = CropBox(left: int, upper: int, right: int, lower: int)

  function Abs(n: int): nat { if n < 0 then -n else n }

  /** `xy0 = (size[0] * dx, size[1] * dy)`: where `paste_tile` puts a tile. */
  function Offset(t: TileImage, corner: (int, int), box: TileBox): (int, int) {
    (t.width * Abs(corner.0 - box.minX), t.height * Abs(corner.1 - box.minY))
  }

  /** One step of the compositing loop, on one canvas pixel. */
  function Step(prev: Pixel, mode: Mode, t: TileImage, corner: (int, int), box: TileBox, i: int, j: int): Pixel
    requires t.WellFormed()
  {
    if Pasted(t) then
      var o := Offset(t, corner, box);
      PasteAt(prev, mode, t, o.0, o.1, i, j)
    else prev
  }

  /** `paste_tile(bigim, base_size, tile, corner_xy, bbox)` */
  method PasteTile(bigim: Canvas?, baseSize: array<int>, tile: Option<TileImage>, corner: (int, int), box: TileBox)
    returns (newim: Canvas?)
    requires baseSize.Length == 2
    requires box.minX <= box.maxX && box.minY <= box.maxY
    requires bigim != null ==> bigim.Valid()
    requires tile.Some? ==> tile.value.WellFormed()
    modifies baseSize, if bigim != null then {bigim.pixels} else {}
    ensures tile.None? ==> newim == bigim && unchanged(baseSize)
    ensures tile.None? && bigim != null ==> unchanged(bigim.pixels)
    ensures tile.Some? ==> newim != null && newim.Valid()
    ensures tile.Some? && bigim == null ==>
      && fresh(newim) && fresh(newim.pixels)
      && newim.mode == PasteMode(tile.value.mode)
      && newim.width == tile.value.width * box.Columns()
      && newim.height == tile.value.height * box.Rows()
      && baseSize[0] == tile.value.width && baseSize[1] == tile.value.height
    ensures tile.Some? && bigim != null ==> newim == bigim && unchanged(baseSize)
    ensures tile.Some? ==> forall i, j :: 0 <= i < newim.height && 0 <= j < newim.width ==>
      newim.pixels[i, j] == Step(if bigim == null then Blank(newim.mode) else old(bigim.pixels[i, j]),
                                 newim.mode, tile.value, corner, box, i, j)
  {
    if tile.None? {
      return bigim;
    }
    var im := tile.value;
    var mode := PasteMode(im.mode);
    if bigim == null {
      baseSize[0] := im.width;
      baseSize[1] := im.height;
      newim := new Canvas(mode, im.width * (box.maxX - box.minX), im.height * (box.maxY - box.minY));
    } else {
      newim := bigim;
    }
    var dx := Abs(corner.0 - box.minX);
    var dy := Abs(corner.1 - box.minY);
    if mode == RGB {
      newim.Paste(im, im.width * dx, im.height * dy);
    } else {
      var empty := IsEmpty(im.extrema);
      if !empty {
        newim.Paste(im, im.width * dx, im.height * dy);
      }
    }
  }

  // ---------------------------------------------------------------------
  // The compositing loop of draw_tile
  // ---------------------------------------------------------------------

  predicate AllWellFormed(tiles: seq<Option<TileImage>>) {
    forall k :: 0 <= k < |tiles| && tiles[k].Some? ==> tiles[k].value.WellFormed()
  }

  /**
   * Why the compositing loop raises at one fetch result: `fut.result()`
   * re-raises what `get_tile` raised, and `Image.open` raises on a body
   * that is not an image.
   */
  datatype PasteFault = FetchFault(error: FetchError) | NotAnImage

  function FaultAt(f: FetchResult, decode: seq<byte> -> Option<Tile>): Option<PasteFault> {
    if f.Failed? then Some(FetchFault(f.error))
    else if f.Content? && decode(f.bytes).None? then Some(NotAnImage)
    else None
  }

  /** The tiles as `paste_tile` sees them: decoded content, or `None` when absent. */
  function Decoded(fetched: seq<FetchResult>, decode: seq<byte> -> Option<Tile>): (tiles: seq<Option<TileImage>>)
    ensures |tiles| == |fetched| && AllWellFormed(tiles)
  {
    seq(|fetched|, k requires 0 <= k < |fetched| =>
      if fetched[k].Content? then decode(fetched[k].bytes) else None)
  }

  /** The fault of the first fetch result that raises, in submission order. */
  function FirstFault(fetched: seq<FetchResult>, decode: seq<byte> -> Option<Tile>): (e: Option<PasteFault>)
    ensures e.None? <==> forall k :: 0 <= k < |fetched| ==> FaultAt(fetched[k], decode).None?
    ensures e.Some? ==> exists k :: 0 <= k < |fetched| && FaultAt(fetched[k], decode) == e
  {
    if fetched == [] then None
    else if FaultAt(fetched[0], decode).Some? then FaultAt(fetched[0], decode)
    else
      var rest := FirstFault(fetched[1..], decode);
      assert forall k :: 1 <= k < |fetched| ==> fetched[k] == fetched[1..][k - 1];
      rest
  }

  /** The first present tile among the first `n`: the one that creates the canvas. */
  function FirstPresent(tiles: seq<Option<TileImage>>, n: nat): (r: Option<nat>)
    requires n <= |tiles|
    ensures r.Some? ==> r.value < n && tiles[r.value].Some?
    ensures r.Some? ==> forall k :: 0 <= k < r.value ==> tiles[k].None?
    ensures r.None? ==> forall k :: 0 <= k < n ==> tiles[k].None?
  {
    if n == 0 then None
    else
      var p := FirstPresent(tiles, n - 1);
      if p.Some? then p else if tiles[n - 1].Some? then Some(n - 1) else None
  }

  /** A canvas pixel after the first `n` tiles have gone through `paste_tile`. */
  function PixelAfter(tiles: seq<Option<TileImage>>, box: TileBox, mode: Mode, n: nat, i: int, j: int): Pixel
    requires n <= |tiles| && n <= |Corners(box)| && AllWellFormed(tiles)
  {
    if n == 0 then Blank(mode)
    else
      var prev := PixelAfter(tiles, box, mode, n - 1, i, j);
      if tiles[n - 1].Some? then Step(prev, mode, tiles[n - 1].value, Corners(box)[n - 1], box, i, j)
      else prev
  }

  /** Absent tiles leave the canvas blank. */
  lemma {:induction false} BlankUntilFirstTile(tiles: seq<Option<TileImage>>, box: TileBox, mode: Mode, n: nat, i: int, j: int)
    requires n <= |tiles| && n <= |Corners(box)| && AllWellFormed(tiles)
    requires forall k :: 0 <= k < n ==> tiles[k].None?
    ensures PixelAfter(tiles, box, mode, n, i, j) == Blank(mode)
  {
    if n > 0 {
      BlankUntilFirstTile(tiles, box, mode, n - 1, i, j);
    }
  }

  /**
   * The compositing loop of `draw_tile`: the fetch results are consumed in
   * submission order; the first one that raises, because its fetch failed
   * or because its body is not an image, stops the loop (the partial canvas
   * is dropped); every other one goes through `paste_tile`.
   */
  method Composite(fetched: seq<FetchResult>, decode: seq<byte> -> Option<Tile>, box: TileBox)
    returns (failure: Option<PasteFault>, bigim: Canvas?, baseWidth: int, baseHeight: int)
    requires box.minX <= box.maxX && box.minY <= box.maxY
    requires |fetched| == |Corners(box)|
    ensures failure == FirstFault(fetched, decode)
    ensures failure.None? ==>
      var tiles := Decoded(fetched, decode);
      var first := FirstPresent(tiles, |tiles|);
      && (bigim == null <==> first.None?)
      && (bigim != null ==>
            var t := tiles[first.value].value;
            && bigim.Valid() && fresh(bigim.pixels)
            && bigim.mode == PasteMode(t.mode)
            && bigim.width == t.width * box.Columns()
            && bigim.height == t.height * box.Rows()
            && baseWidth == t.width && baseHeight == t.height
            && forall i, j :: 0 <= i < bigim.height && 0 <= j < bigim.width ==>
                 bigim.pixels[i, j] == PixelAfter(tiles, box, bigim.mode, |tiles|, i, j))
  {
    ghost var tiles := Decoded(fetched, decode);
    var corners := Corners(box);
    var baseSize := new int[2];
    baseSize[0], baseSize[1] := 256, 256;
    bigim := null;
    var k := 0;
    while k < |fetched|
      invariant 0 <= k <= |fetched|
      invariant forall m :: 0 <= m < k ==> FaultAt(fetched[m], decode).None?
      invariant bigim == null <==> FirstPresent(tiles, k).None?
      invariant bigim != null ==>
        var t := tiles[FirstPresent(tiles, k).value].value;
        && bigim.Valid() && fresh(bigim.pixels)
        && bigim.mode == PasteMode(t.mode)
        && bigim.width == t.width * box.Columns()
        && bigim.height == t.height * box.Rows()
        && baseSize[0] == t.width && baseSize[1] == t.height
        && forall i, j :: 0 <= i < bigim.height && 0 <= j < bigim.width ==>
             bigim.pixels[i, j] == PixelAfter(tiles, box, bigim.mode, k, i, j)
    {
      if fetched[k].Failed? {
        FirstFaultAt(fetched, decode, k);
        return Some(FetchFault(fetched[k].error)), null, 0, 0;
      }
      var tile: Option<TileImage> := None;
      if fetched[k].Content? {
        tile := decode(fetched[k].bytes);
        if tile.None? {
          FirstFaultAt(fetched, decode, k);
          return Some(NotAnImage), null, 0, 0;
        }
      }
      assert tile == tiles[k];
      if bigim == null && tile.Some? {
        forall i, j {
          BlankUntilFirstTile(tiles, box, PasteMode(tile.value.mode), k, i, j);
        }
      }
      bigim := PasteTile(bigim, baseSize, tile, corners[k], box);
      k := k + 1;
    }
    failure := None;
    baseWidth, baseHeight := baseSize[0], baseSize[1];
  }

  lemma {:induction false} FirstFaultAt(fetched: seq<FetchResult>, decode: seq<byte> -> Option<Tile>, k: nat)
    requires k < |fetched| && FaultAt(fetched[k], decode).Some?
    requires forall m :: 0 <= m < k ==> FaultAt(fetched[m], decode).None?
    ensures FirstFault(fetched, decode) == FaultAt(fetched[k], decode)
  {
    if k > 0 {
      FirstFaultAt(fetched[1..], decode, k - 1);
    }
  }

  // ---------------------------------------------------------------------
  // Where each tile ends up when all tiles have one size
  // ---------------------------------------------------------------------

  /** Every present tile is `w` pixels wide and `h` pixels high. */
  predicate Uniform(tiles: seq<Option<TileImage>>, w: nat, h: nat) {
    forall k :: 0 <= k < |tiles| && tiles[k].Some? ==> tiles[k].value.width == w && tiles[k].value.height == h
  }

  lemma MulSign(d: int, h: int)
    requires h > 0
    ensures d >= 1 ==> h * d >= h
    ensures d <= -1 ==> h * d <= -h
    ensures d == 0 ==> h * d == 0
  {
    if d >= 1 {
      assert h * d == h + h * (d - 1);
    } else if d <= -1 {
      assert h * d == -h + h * (d + 1);
      assert h * (-(d + 1)) >= 0;
    }
  }

  /** Integer division is determined by the quotient-remainder split. */
  lemma DivModUnique(q: int, r: int, n: int)
    requires n > 0 && 0 <= r < n
    ensures (q * n + r) / n == q && (q * n + r) % n == r
  {
    var m := q * n + r;
    assert m == (m / n) * n + m % n;
    assert n * (q - m / n) == m % n - r;
    MulSign(q - m / n, n);
  }

  /** Row `i` lies in the band of tile row `a` exactly when `a == i / h`. */
  lemma CellOf(i: int, h: int, a: int)
    requires h > 0 && i >= 0
    ensures (h * a <= i < h * a + h) <==> a == i / h
    ensures a == i / h ==> i - h * a == i % h
  {
    assert i == h * (i / h) + i % h;
    if h * a <= i < h * a + h {
      assert h * (a - i / h) == h * a - h * (i / h);
      MulSign(a - i / h, h);
    }
  }

  lemma DivBelow(i: int, h: int, n: int)
    requires h > 0 && 0 <= i < h * n
    ensures 0 <= i / h < n
  {
    assert i == h * (i / h) + i % h;
    assert h * (n - i / h) == h * n - h * (i / h);
    MulSign(n - i / h, h);
    MulSign(i / h, h);
  }

  /**
   * The pixel the canvas should hold at row `i`, column `j` once the first
   * `n` tiles are composited: that of the tile whose cell covers it, when
   * that tile is among the first `n`, present and pasted; blank otherwise.
   */
  function Expected(tiles: seq<Option<TileImage>>, box: TileBox, mode: Mode, w: nat, h: nat, n: nat, i: int, j: int): Pixel
    requires w > 0 && h > 0 && n <= |tiles| && AllWellFormed(tiles) && Uniform(tiles, w, h)
    requires 0 <= i && 0 <= j
  {
    var k := (j / w) * box.Rows() + i / h;
    if 0 <= k < n && tiles[k].Some? && Pasted(tiles[k].value)
    then Convert(tiles[k].value.pixels[i % h][j % w], PasteMode(tiles[k].value.mode), mode)
    else Blank(mode)
  }

  /** A tile of size `w` by `h` placed in cell (`b`, `a`) covers exactly the pixels whose cell that is. */
  lemma StepAtCell(prev: Pixel, mode: Mode, t: TileImage, w: nat, h: nat, box: TileBox, a: int, b: int, i: int, j: int)
    requires t.WellFormed() && t.width == w > 0 && t.height == h > 0
    requires 0 <= a && 0 <= b && 0 <= i && 0 <= j
    ensures Step(prev, mode, t, (box.minX + b, box.minY + a), box, i, j) ==
      if Pasted(t) && a == i / h && b == j / w
      then Convert(t.pixels[i % h][j % w], PasteMode(t.mode), mode)
      else prev
  {
    assert Offset(t, (box.minX + b, box.minY + a), box) == (w * b, h * a);
    CellOf(i, h, a);
    CellOf(j, w, b);
  }

  /** Pixel (i, j) of a canvas of `cols` by `rows` cells of `w` by `h` lies in cell `key`, column-major. */
  lemma CellKey(i: int, j: int, w: nat, h: nat, rows: nat, cols: nat)
    requires w > 0 && h > 0 && 0 <= i < h * rows && 0 <= j < w * cols
    ensures var key := (j / w) * rows + i / h;
      && 0 <= i / h < rows && 0 <= j / w < cols
      && 0 <= key < cols * rows && key / rows == j / w && key % rows == i / h
  {
    DivBelow(i, h, rows);
    DivBelow(j, w, cols);
    var key := (j / w) * rows + i / h;
    assert key < (j / w) * rows + rows == (j / w + 1) * rows;
    MulSign(cols - (j / w + 1), rows);
    assert rows * (cols - (j / w + 1)) == cols * rows - (j / w + 1) * rows;
    DivModUnique(j / w, i / h, rows);
  }

  /** Two indices of the column-major enumeration name the same cell only when they are equal. */
  lemma SameCell(m: int, key: int, rows: int)
    requires rows > 0
    ensures (m % rows == key % rows && m / rows == key / rows) <==> m == key
  {
    assert m == (m / rows) * rows + m % rows;
    assert key == (key / rows) * rows + key % rows;
  }

  /** Compositing tile `m` keeps the canvas pixel equal to `Expected`. */
  lemma PixelAfterStep(tiles: seq<Option<TileImage>>, box: TileBox, mode: Mode, w: nat, h: nat, m: nat, i: int, j: int)
    requires w > 0 && h > 0 && AllWellFormed(tiles) && Uniform(tiles, w, h)
    requires box.minX <= box.maxX && box.minY <= box.maxY
    requires |tiles| == box.Columns() * box.Rows() == |Corners(box)| && m < |tiles|
    requires 0 <= i < h * box.Rows() && 0 <= j < w * box.Columns()
    requires PixelAfter(tiles, box, mode, m, i, j) == Expected(tiles, box, mode, w, h, m, i, j)
    ensures PixelAfter(tiles, box, mode, m + 1, i, j) == Expected(tiles, box, mode, w, h, m + 1, i, j)
  {
    var rows := box.Rows();
    CellKey(i, j, w, h, rows, box.Columns());
    var key := (j / w) * rows + i / h;
    if tiles[m].Some? {
      CornerAt(box, m);
      StepAtCell(PixelAfter(tiles, box, mode, m, i, j), mode, tiles[m].value, w, h, box, m % rows, m / rows, i, j);
      SameCell(m, key, rows);
    }
  }

  lemma {:induction false} PixelAfterUniform(tiles: seq<Option<TileImage>>, box: TileBox, mode: Mode, w: nat, h: nat, n: nat, i: int, j: int)
    requires w > 0 && h > 0 && AllWellFormed(tiles) && Uniform(tiles, w, h)
    requires box.minX <= box.maxX && box.minY <= box.maxY
    requires |tiles| == box.Columns() * box.Rows() && n <= |tiles|
    requires 0 <= i < h * box.Rows() && 0 <= j < w * box.Columns()
    ensures n <= |Corners(box)|
    ensures PixelAfter(tiles, box, mode, n, i, j) == Expected(tiles, box, mode, w, h, n, i, j)
  {
    CornersLength(box);
    if n > 0 {
      PixelAfterUniform(tiles, box, mode, w, h, n - 1, i, j);
      PixelAfterStep(tiles, box, mode, w, h, n - 1, i, j);
    }
  }

  /**
   * With tiles of one size, the composited canvas holds at every pixel the
   * corresponding pixel of the tile fetched for that cell: the tile at
   * index `k` of the enumeration lands at column block `k / rows` and row
   * block `k % rows`, whatever order the fetches completed in. An absent or
   * empty tile leaves its cell blank.
   */
  lemma MosaicPixel(tiles: seq<Option<TileImage>>, box: TileBox, mode: Mode, w: nat, h: nat, i: int, j: int)
    requires w > 0 && h > 0 && AllWellFormed(tiles) && Uniform(tiles, w, h)
    requires box.minX <= box.maxX && box.minY <= box.maxY
    requires |tiles| == |Corners(box)|
    requires 0 <= i < h * box.Rows() && 0 <= j < w * box.Columns()
    ensures
      var k := (j / w) * box.Rows() + i / h;
      && 0 <= k < |tiles|
      && Corners(box)[k] == (box.minX + j / w, box.minY + i / h)
      && PixelAfter(tiles, box, mode, |tiles|, i, j) ==
           if tiles[k].Some? && Pasted(tiles[k].value)
           then Convert(tiles[k].value.pixels[i % h][j % w], PasteMode(tiles[k].value.mode), mode)
           else Blank(mode)
  {
    CornersLength(box);
    CellKey(i, j, w, h, box.Rows(), box.Columns());
    CornerAt(box, (j / w) * box.Rows() + i / h);
    PixelAfterUniform(tiles, box, mode, w, h, |tiles|, i, j);
  }

  /**
   * With tiles of one size `w` by `h`, the offset `paste_tile` computes for
   * the k-th tile puts the whole tile inside the canvas created from the
   * first tile.
   */
  lemma OffsetInside(box: TileBox, t: TileImage, k: int)
    requires box.minX <= box.maxX && box.minY <= box.maxY
    requires 0 <= k < |Corners(box)|
    ensures
      var o := Offset(t, Corners(box)[k], box);
      && 0 <= o.0 && o.0 + t.width <= t.width * box.Columns()
      && 0 <= o.1 && o.1 + t.height <= t.height * box.Rows()
  {
    CornersLength(box);
    var rows, cols := box.Rows(), box.Columns();
    CornerAt(box, k);
    var a, b := k % rows, k / rows;
    assert k == b * rows + a;
    MulCancel(b, cols, rows);
    assert Offset(t, Corners(box)[k], box) == (t.width * b, t.height * a);
    BlockInside(t.width, b, cols);
    BlockInside(t.height, a, rows);
  }

  /** Block `b` of `n` blocks of size `w` lies inside `[0, w * n)`. */
  lemma BlockInside(w: int, b: int, n: int)
    requires w >= 0 && 0 <= b < n
    ensures 0 <= w * b && w * b + w <= w * n
  {
    MulNonNegative(w, b);
    MulNonNegative(w, n - b - 1);
    assert w * n - (w * b + w) == w * (n - b - 1);
  }
}
