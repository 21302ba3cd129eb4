/**
 * `tms_to_geotiff` (urbanworm/utils.py): the argument checks, the choice of
 * the tile source and zoom, `draw_tile` (fetch every tile of the frame,
 * composite, crop, write the bands with a geotransform) and what happens to
 * the written file afterwards.
 *
 * What the code reaches outside itself is a parameter: the file system's
 * answer to `os.path.exists(output)`, the basemap table, and a `World`
 * holding the HTTP session, the PNG decoder and the two transcendental
 * projections.
 */
module Tms {
  import opened Wrappers
  import opened PyText
  import opened TileGrid
  import opened TileFetch
  import opened Mosaic
  import opened Picture

  // ---------------------------------------------------------------------
  // Arguments
  // ---------------------------------------------------------------------

  /** The `source` argument: a `str`, or any other Python value. */
  datatype Source = Text(text: string) | NotText

  /** The `bbox` argument: a `list` of numbers, or any other Python value. */
  datatype Bbox = List(values: seq<real>) | NotList

  datatype Request = Request(
    output: string,
    bbox: Bbox,
    zoom: Option<int>,
    resolution: Option<real>,
    source: Source,
    crs: string,
    toCog: bool,
    returnImage: bool,
    overwrite: bool,
    options: Option<seq<string>>)

  /** Why `draw_tile` raised. */
  datatype DrawError =
    | Pasting(fault: PasteFault)       // `fut.result()` or `Image.open` in `paste_tile` raised
    | NoTile                           // every tile absent: `bigim` is `None` in `finish_picture`
    | EmptyRaster                      // GDAL refuses a raster with a zero side

  /** What `tms_to_geotiff` raises. */
  datatype TmsError =
    | SourceNotText                    // ValueError: source must be one of ...
    | BadBbox                          // ValueError: bbox must be a list of 4 coordinates
    | NoZoomOrResolution               // ValueError: Either zoom or resolution must be provided
    | BothZoomAndResolution            // ValueError: Only one of zoom or resolution can be provided
    | ResolutionNotPositive            // `math.log2` or the division fails
    | Drawing(reason: DrawError)       // `raise Exception(e)` around `draw_tile`

  /** The checked arguments `draw_tile` runs with. */
  datatype Plan = Plan(url: string, west: real, south: real, east: real, north: real, zoom: int)

  datatype Checked = Skip | Invalid(error: TmsError) | Proceed(plan: Plan)

  /** The `xyz_tiles` table, keyed by upper-case name: the template of `name`, if it is one. */
  function XyzTemplate(name: string): Option<string> {
    if name == "OPENSTREETMAP" then Some("https://tile.openstreetmap.org/{z}/{x}/{y}.png")
    else if name == "ROADMAP" then Some("https://mt1.google.com/vt/lyrs=m&x={x}&y={y}&z={z}")
    else if name == "SATELLITE" then Some("https://mt1.google.com/vt/lyrs=s&x={x}&y={y}&z={z}")
    else if name == "TERRAIN" then Some("https://mt1.google.com/vt/lyrs=p&x={x}&y={y}&z={z}")
    else if name == "HYBRID" then Some("https://mt1.google.com/vt/lyrs=y&x={x}&y={y}&z={z}")
    else None
  }

  /**
   * The tile URL template for `source`: an `xyz_tiles` name in any case,
   * then a basemap name as written; any other string is used as it is.
   */
  function ResolveSource(source: Source, basemaps: map<string, string>): Result<string, TmsError> {
    match source
    case NotText => Err(SourceNotText)
    case Text(s) =>
      if XyzTemplate(Upper(s)).Some? then Ok(XyzTemplate(Upper(s)).value)
      else if s in basemaps then Ok(basemaps[s])
      else Ok(s)
  }

  /** The checks of `tms_to_geotiff`, in the order the code makes them. */
  function Check(req: Request, outputExists: bool, basemaps: map<string, string>): Checked {
    if !req.overwrite && outputExists then Skip
    else match ResolveSource(req.source, basemaps)
      case Err(e) => Invalid(e)
      case Ok(url) =>
        if !(req.bbox.List? && |req.bbox.values| == 4) then Invalid(BadBbox)
        else if req.zoom.None? && req.resolution.None? then Invalid(NoZoomOrResolution)
        else if req.zoom.Some? && req.resolution.Some? then Invalid(BothZoomAndResolution)
        else
          var zoom := if req.zoom.Some? then Some(req.zoom.value) else ResolutionToZoom(req.resolution.value);
          if zoom.None? then Invalid(ResolutionNotPositive)
          else
            var b := req.bbox.values;
            Proceed(Plan(url, b[0], b[1], b[2], b[3], zoom.value))
  }

  // ---------------------------------------------------------------------
  // The outside world of draw_tile
  // ---------------------------------------------------------------------

  /**
   * `network(url, z, x, y, n)` is what the n-th request for tile (x, y) of
   * zoom z from the template `url` does; `decode` is `Image.open` on the
   * downloaded bytes, `None` when they are not an image; `tileY(lat, zoom)` is the y of `deg2num`;
   * `project(lat, lon)` is `from4326_to3857`.
   */
  datatype World = World(
    client: Client,
    network: (string, int, int, int, nat) -> Attempt,
    decode: seq<byte> -> Option<Tile>,
    tileY: (real, int) -> real,
    project: (real, real) -> (real, real))

  /** The sorted fractional tile coordinates `x0 <= x1`, `y0 <= y1`. */
  datatype Frame = Frame(x0: real, y0: real, x1: real, y1: real)

  /** `deg2num` of both corners, then `sorted` on each axis. */
  function FrameOf(plan: Plan, world: World): (f: Frame)
    ensures f.x0 <= f.x1 && f.y0 <= f.y1
  {
    var xs := Sorted2(TileX(plan.west, plan.zoom), TileX(plan.east, plan.zoom));
    var ys := Sorted2(world.tileY(plan.south, plan.zoom), world.tileY(plan.north, plan.zoom));
    Frame(xs.0, ys.0, xs.1, ys.1)
  }

  function BoxOf(f: Frame): (b: TileBox)
    requires f.x0 <= f.x1 && f.y0 <= f.y1
    ensures b.minX <= b.maxX && b.minY <= b.maxY
  {
    CoveringBox(f.x0, f.y0, f.x1, f.y1)
  }

  /** The requests `get_tile` may make for one tile. */
  function AttemptsFor(world: World, plan: Plan, corner: (int, int)): (attempts: seq<Attempt>)
    ensures |attempts| == MaxAttempts
  {
    seq(MaxAttempts, n requires 0 <= n < MaxAttempts => world.network(plan.url, plan.zoom, corner.0, corner.1, n))
  }

  /** What `fut.result()` gives for each corner, in submission order. */
  function FetchedAll(world: World, plan: Plan, corners: seq<(int, int)>): (fetched: seq<FetchResult>)
    ensures |fetched| == |corners|
  {
    seq(|corners|, k requires 0 <= k < |corners| => FetchOutcome(world.client, AttemptsFor(world, plan, corners[k])))
  }

  /** What `get_tile` gave for each tile of the frame. */
  function FetchedOf(plan: Plan, world: World): (fetched: seq<FetchResult>)
    ensures |fetched| == |Corners(BoxOf(FrameOf(plan, world)))|
  {
    FetchedAll(world, plan, Corners(BoxOf(FrameOf(plan, world))))
  }

  /** The tiles `paste_tile` receives. */
  function TilesOf(plan: Plan, world: World): (tiles: seq<Option<TileImage>>)
    ensures |tiles| == |Corners(BoxOf(FrameOf(plan, world)))|
  {
    Decoded(FetchedOf(plan, world), world.decode)
  }

  /** The mode `paste_tile` gives the canvas: that of the first present tile. */
  function CanvasMode(tiles: seq<Option<TileImage>>): (mode: Mode)
    requires FirstPresent(tiles, |tiles|).Some?
    ensures mode == RGB || mode == RGBA
  {
    PasteMode(tiles[FirstPresent(tiles, |tiles|).value].value.mode)
  }

  /** The composited canvas, row by row. */
  function CompositeGrid(tiles: seq<Option<TileImage>>, box: TileBox, mode: Mode, width: nat, height: nat): (grid: seq<seq<Pixel>>)
    requires |tiles| <= |Corners(box)| && AllWellFormed(tiles)
    ensures |grid| == height && forall i :: 0 <= i < height ==> |grid[i]| == width
  {
    seq(height, i requires 0 <= i < height =>
      seq(width, j requires 0 <= j < width => PixelAfter(tiles, box, mode, |tiles|, i, j)))
  }

  // ---------------------------------------------------------------------
  // The raster draw_tile writes
  // ---------------------------------------------------------------------

  /** The creation options used when the caller passes none. */
  function DefaultOptions(): seq<string> {
    ["COMPRESS=DEFLATE", "PREDICTOR=2", "ZLEVEL=9", "TILED=YES"]
  }

  function OptionsOf(options: Option<seq<string>>): seq<string> {
    if options.Some? then options.value else DefaultOptions()
  }

  /** A byte GeoTIFF: its size, bands, creation options and geotransform. */
  datatype Raster = Raster(
    path: string,
    width: nat,
    height: nat,
    options: seq<string>,
    transform: GeoTransform,
    bands: seq<seq<seq<int>>>)

  function RasterOf(img: Image, plan: Plan, world: World, path: string, options: Option<seq<string>>): Raster
    requires img.WellFormed() && img.width > 0 && img.height > 0
  {
    var p0 := world.project(plan.south, plan.west);
    var p1 := world.project(plan.north, plan.east);
    Raster(path, img.width, img.height, OptionsOf(options),
           GeoTransformOf(p0.0, p0.1, p1.0, p1.1, img.width, img.height), BandGrids(img))
  }

  /**
   * The picture `draw_tile` makes of the frame: the canvas composited from
   * the tiles in the mode and at the size of the first present one, cropped
   * to the frame and finished.
   */
  function FramePicture(tiles: seq<Option<TileImage>>, box: TileBox, f: Frame): (img: Image)
    requires AllWellFormed(tiles) && |tiles| == |Corners(box)| && FirstPresent(tiles, |tiles|).Some?
    requires f.x0 <= f.x1 && f.y0 <= f.y1
    ensures img.WellFormed()
  {
    var t := tiles[FirstPresent(tiles, |tiles|).value].value;
    var mode := CanvasMode(tiles);
    var width, height := t.width * box.Columns(), t.height * box.Rows();
    Finished(CompositeGrid(tiles, box, mode, width, height), width, height, mode, t.width, t.height, box, f.x0, f.y0, f.x1, f.y1)
  }

  /** `draw_tile(source, south, west, north, east, zoom, output, ...)`. */
  function DrawTileSpec(plan: Plan, world: World, path: string, options: Option<seq<string>>): Result<(Image, Raster), DrawError>
  {
    var f := FrameOf(plan, world);
    var box := BoxOf(f);
    var fetched := FetchedOf(plan, world);
    var tiles := TilesOf(plan, world);
    var failure := FirstFault(fetched, world.decode);
    var first := FirstPresent(tiles, |tiles|);
    if failure.Some? then Err(Pasting(failure.value))
    else if first.None? then Err(NoTile)
    else
      var img := FramePicture(tiles, box, f);
      if img.width == 0 || img.height == 0 then Err(EmptyRaster)
      else Ok((img, RasterOf(img, plan, world, path, options)))
  }

  // ---------------------------------------------------------------------
  // What happens to the written file
  // ---------------------------------------------------------------------

  datatype PostStep =
    | NoPostStep
    | Reproject(crs: string, toCog: bool)   // `reproject(output, output, crs, to_cog=to_cog)`
    | CogInPlace                            // `image_to_cog(output, output)`

  datatype Outcome =
    | Skipped
    | Stopped(error: TmsError)
    | Done(raster: Raster, returned: Option<Image>, post: PostStep)

  function PostStepOf(req: Request): PostStep {
    if Upper(req.crs) != "EPSG:3857" then Reproject(req.crs, req.toCog)
    else if req.toCog then CogInPlace
    else NoPostStep
  }

  /** `tms_to_geotiff(...)` from start to end. */
  function TmsSpec(req: Request, outputExists: bool, basemaps: map<string, string>, world: World): Outcome
  {
    match Check(req, outputExists, basemaps)
    case Skip => Skipped
    case Invalid(e) => Stopped(e)
    case Proceed(plan) =>
      match DrawTileSpec(plan, world, req.output, req.options)
      case Err(e) => Stopped(Drawing(e))
      case Ok(drawn) =>
        if req.returnImage then Done(drawn.1, Some(drawn.0), NoPostStep)
        else Done(drawn.1, None, PostStepOf(req))
  }

  // ---------------------------------------------------------------------
  // The code
  // ---------------------------------------------------------------------

  /** The submissions of `draw_tile`, awaited in order: one `get_tile` per corner. */
  method FetchTiles(world: World, plan: Plan, corners: seq<(int, int)>) returns (fetched: seq<FetchResult>)
    ensures fetched == FetchedAll(world, plan, corners)
  {
    fetched := [];
    for k := 0 to |corners|
      invariant fetched == FetchedAll(world, plan, corners[..k])
    {
      var r, _ := GetTile(world.client, AttemptsFor(world, plan, corners[k]));
      assert corners[..k + 1] == corners[..k] + [corners[k]];
      fetched := fetched + [r];
    }
    assert corners[..|corners|] == corners;
  }

  /** `draw_tile`. */
  method DrawTile(plan: Plan, world: World, path: string, options: Option<seq<string>>)
    returns (r: Result<(Image, Raster), DrawError>)
    ensures r == DrawTileSpec(plan, world, path, options)
  {
    var f := FrameOf(plan, world);
    var box := BoxOf(f);
    var corners := Corners(box);
    var fetched := FetchTiles(world, plan, corners);
    ghost var tiles := Decoded(fetched, world.decode);
    var failure, bigim, baseWidth, baseHeight := Composite(fetched, world.decode, box);
    if failure.Some? {
      return Err(Pasting(failure.value));
    }
    if bigim == null {
      return Err(NoTile);
    }
    ghost var t := tiles[FirstPresent(tiles, |tiles|).value].value;
    assert bigim.Grid() == CompositeGrid(tiles, box, bigim.mode, bigim.width, bigim.height) by {
      var g, c := bigim.Grid(), CompositeGrid(tiles, box, bigim.mode, bigim.width, bigim.height);
      forall i | 0 <= i < bigim.height ensures g[i] == c[i] {
      }
    }
    var img := FinishPicture(bigim, baseWidth, baseHeight, box, f.x0, f.y0, f.x1, f.y1);
    if img.width == 0 || img.height == 0 {
      return Err(EmptyRaster);
    }
    var bands := BandArrays(img);
    var p0 := world.project(plan.south, plan.west);
    var p1 := world.project(plan.north, plan.east);
    var transform := GeoTransformOf(p0.0, p0.1, p1.0, p1.1, img.width, img.height);
    r := Ok((img, Raster(path, img.width, img.height, OptionsOf(options), transform, bands)));
  }

  /** `tms_to_geotiff`. */
  method TmsToGeotiff(req: Request, outputExists: bool, basemaps: map<string, string>, world: World)
    returns (outcome: Outcome)
    ensures outcome == TmsSpec(req, outputExists, basemaps, world)
  {
    var checked := Check(req, outputExists, basemaps);
    if checked.Skip? {
      return Skipped;
    }
    if checked.Invalid? {
      return Stopped(checked.error);
    }
    var drawn := DrawTile(checked.plan, world, req.output, req.options);
    if drawn.Err? {
      return Stopped(Drawing(drawn.error));
    }
    if req.returnImage {
      return Done(drawn.value.1, Some(drawn.value.0), NoPostStep);
    }
    outcome := Done(drawn.value.1, None, PostStepOf(req));
  }

  // ---------------------------------------------------------------------
  // Properties
  // ---------------------------------------------------------------------

  /** An `xyz_tiles` name is recognised in any letter case, ahead of the basemaps. */
  lemma SourceNameIgnoresCase(s: string, basemaps: map<string, string>)
    requires XyzTemplate(Upper(s)).Some?
    ensures ResolveSource(Text(s), basemaps) == Ok(XyzTemplate(Upper(s)).value)
    ensures ResolveSource(Text(s), basemaps) == ResolveSource(Text(Upper(s)), basemaps)
  {
    UpperIdempotent(s);
  }

  /** A URL that is not a basemap name is used as given: no `xyz_tiles` name starts with `HT`. */
  lemma UrlPassesThrough(s: string, basemaps: map<string, string>)
    requires StartsWith(s, "http") && s !in basemaps
    ensures ResolveSource(Text(s), basemaps) == Ok(s)
  {
    assert s[1] == 't';
    assert Upper(s)[1] == 'T';
    NotXyzName(Upper(s));
  }

  /** No `xyz_tiles` name has a `T` in second place. */
  lemma NotXyzName(u: string)
    requires |u| > 1 && u[1] == 'T'
    ensures XyzTemplate(u).None?
  {
    assert "OPENSTREETMAP"[1] == 'P' && "ROADMAP"[1] == 'O' && "SATELLITE"[1] == 'A';
    assert "TERRAIN"[1] == 'E' && "HYBRID"[1] == 'Y';
  }

  /**
   * The arguments are accepted exactly when the output may be written, the
   * source is a string, the bbox a list of four, and exactly one of a zoom
   * and a positive resolution is given; the plan then holds the resolved
   * source, the bbox as west, south, east, north, and the given zoom or the
   * one derived from the resolution. An existing output without
   * `overwrite` stops everything before any other check.
   */
  lemma CheckAccepts(req: Request, outputExists: bool, basemaps: map<string, string>)
    ensures Check(req, outputExists, basemaps) == Skip <==> !req.overwrite && outputExists
    ensures Check(req, outputExists, basemaps).Proceed? <==>
      && (req.overwrite || !outputExists)
      && req.source.Text?
      && req.bbox.List? && |req.bbox.values| == 4
      && (req.zoom.Some? <==> req.resolution.None?)
      && (req.resolution.Some? ==> req.resolution.value > 0.0)
    ensures Check(req, outputExists, basemaps).Proceed? ==>
      var plan := Check(req, outputExists, basemaps).plan;
      var b := req.bbox.values;
      && Ok(plan.url) == ResolveSource(req.source, basemaps)
      && plan.west == b[0] && plan.south == b[1] && plan.east == b[2] && plan.north == b[3]
      && plan.zoom == if req.zoom.Some? then req.zoom.value else ResolutionToZoom(req.resolution.value).value
  {
    if req.resolution.Some? {
      ResolutionToZoomSpec(req.resolution.value);
    }
  }

  /**
   * `draw_tile` raises at the first fetch result, in submission order, whose
   * fetch failed or whose body is not an image, and raises exactly when
   * there is one; without one, it fails for want of a tile exactly when no
   * tile was downloaded.
   */
  lemma DrawErrors(plan: Plan, world: World, path: string, options: Option<seq<string>>)
    ensures
      var fetched := FetchedOf(plan, world);
      var r := DrawTileSpec(plan, world, path, options);
      && (forall k :: 0 <= k < |fetched| && FaultAt(fetched[k], world.decode).Some?
                      && (forall m :: 0 <= m < k ==> FaultAt(fetched[m], world.decode).None?) ==>
            r == Err(Pasting(FaultAt(fetched[k], world.decode).value)))
      && ((r.Err? && r.error.Pasting?) <==> exists k :: 0 <= k < |fetched| && FaultAt(fetched[k], world.decode).Some?)
      && ((forall k :: 0 <= k < |fetched| ==> FaultAt(fetched[k], world.decode).None?) ==>
            (r == Err(NoTile) <==> forall k :: 0 <= k < |fetched| ==> fetched[k].Absent?))
  {
    var fetched := FetchedOf(plan, world);
    var tiles := TilesOf(plan, world);
    forall k | 0 <= k < |fetched| && FaultAt(fetched[k], world.decode).Some?
               && (forall m :: 0 <= m < k ==> FaultAt(fetched[m], world.decode).None?)
      ensures DrawTileSpec(plan, world, path, options) == Err(Pasting(FaultAt(fetched[k], world.decode).value))
    {
      FirstFaultAt(fetched, world.decode, k);
    }
    if forall k :: 0 <= k < |fetched| ==> FaultAt(fetched[k], world.decode).None? {
      if forall k :: 0 <= k < |fetched| ==> fetched[k].Absent? {
        assert forall k :: 0 <= k < |tiles| ==> tiles[k].None?;
      } else {
        var k :| 0 <= k < |fetched| && !fetched[k].Absent?;
        assert FaultAt(fetched[k], world.decode).None?;
        assert tiles[k].Some?;
      }
    }
  }

  /** The picture `draw_tile` returns is the finished composite of the frame's tiles, with no zero side, and the raster is built from it. */
  lemma DrawnImage(plan: Plan, world: World, path: string, options: Option<seq<string>>)
    requires DrawTileSpec(plan, world, path, options).Ok?
    ensures
      var f := FrameOf(plan, world);
      var tiles := TilesOf(plan, world);
      var drawn := DrawTileSpec(plan, world, path, options).value;
      && AllWellFormed(tiles)
      && FirstPresent(tiles, |tiles|).Some?
      && drawn.0 == FramePicture(tiles, BoxOf(f), f)
      && drawn.0.width > 0 && drawn.0.height > 0
      && drawn.1 == RasterOf(drawn.0, plan, world, path, options)
  {
  }

  /**
   * What is written for a picture: a raster of its size at the output path,
   * one band per image band holding that band's values row by row, the
   * default creation options unless options were given, and a north-up
   * transform that maps the raster exactly onto the projected corners.
   */
  lemma RasterOfPicture(img: Image, plan: Plan, world: World, path: string, options: Option<seq<string>>)
    requires img.WellFormed() && img.width > 0 && img.height > 0
    ensures
      var raster := RasterOf(img, plan, world, path, options);
      var p0 := world.project(plan.south, plan.west);
      var p1 := world.project(plan.north, plan.east);
      var g := raster.transform;
      && raster.path == path && raster.width == img.width && raster.height == img.height
      && raster.options == (if options.Some? then options.value else DefaultOptions())
      && |raster.bands| == (if img.mode == RGB then 3 else 4)
      && (forall b, i, j :: 0 <= b < |raster.bands| && 0 <= i < img.height && 0 <= j < img.width ==>
            raster.bands[b][i][j] == BandValue(img.rows[i][j], b))
      && g.rowRotation == 0.0 && g.columnRotation == 0.0
      && g.originX == MinR(p0.0, p1.0) && g.originY == MaxR(p0.1, p1.1)
      && g.originX + img.width as real * g.pixelWidth == MaxR(p0.0, p1.0)
      && g.originY + img.height as real * g.pixelHeight == MinR(p0.1, p1.1)
  {
    var p0 := world.project(plan.south, plan.west);
    var p1 := world.project(plan.north, plan.east);
    GeoTransformSpansBox(p0.0, p0.1, p1.0, p1.1, img.width, img.height);
  }

  /** What is written is built from the returned picture, which has no zero side. */
  lemma DrawnIsRasterOf(plan: Plan, world: World, path: string, options: Option<seq<string>>, img: Image, raster: Raster)
    requires DrawTileSpec(plan, world, path, options) == Ok((img, raster))
    ensures img.WellFormed() && img.width > 0 && img.height > 0
    ensures raster == RasterOf(img, plan, world, path, options)
  {
  }

  /**
   * The pixel the mosaic holds at canvas row `y`, column `x` when every
   * tile is `w` by `h`: that of tile `k = (x / w) * rows + y / h` of the
   * enumeration (the frame's column `minX + x / w`, row `minY + y / h`) at
   * `(y % h, x % w)`, in the canvas mode; blank when that tile is absent or
   * empty.
   */
  function MosaicAt(tiles: seq<Option<TileImage>>, box: TileBox, mode: Mode, w: nat, h: nat, y: int, x: int): Pixel
    requires w > 0 && h > 0 && AllWellFormed(tiles) && Uniform(tiles, w, h)
  {
    var k := (x / w) * box.Rows() + y / h;
    if 0 <= k < |tiles| && tiles[k].Some? && Pasted(tiles[k].value)
    then Convert(tiles[k].value.pixels[y % h][x % w], PasteMode(tiles[k].value.mode), mode)
    else Blank(mode)
  }

  /** `MosaicPixel` read off the composited canvas. */
  lemma CompositePixel(tiles: seq<Option<TileImage>>, box: TileBox, mode: Mode, w: nat, h: nat, y: int, x: int)
    requires w > 0 && h > 0 && AllWellFormed(tiles) && Uniform(tiles, w, h)
    requires box.minX <= box.maxX && box.minY <= box.maxY
    requires |tiles| == |Corners(box)|
    requires 0 <= y < h * box.Rows() && 0 <= x < w * box.Columns()
    ensures
      var k := (x / w) * box.Rows() + y / h;
      && 0 <= k < |tiles|
      && Corners(box)[k] == (box.minX + x / w, box.minY + y / h)
      && CompositeGrid(tiles, box, mode, w * box.Columns(), h * box.Rows())[y][x] == MosaicAt(tiles, box, mode, w, h, y, x)
  {
    MosaicPixel(tiles, box, mode, w, h, y, x);
  }

  /** With tiles of one size the composited canvas holds the mosaic at every pixel. */
  lemma CompositeGridMosaic(tiles: seq<Option<TileImage>>, box: TileBox, mode: Mode, w: nat, h: nat)
    requires w > 0 && h > 0 && AllWellFormed(tiles) && Uniform(tiles, w, h)
    requires box.minX <= box.maxX && box.minY <= box.maxY
    requires |tiles| == |Corners(box)|
    ensures
      var grid := CompositeGrid(tiles, box, mode, w * box.Columns(), h * box.Rows());
      forall y, x :: 0 <= y < h * box.Rows() && 0 <= x < w * box.Columns() ==>
        grid[y][x] == MosaicAt(tiles, box, mode, w, h, y, x)
  {
    forall y, x | 0 <= y < h * box.Rows() && 0 <= x < w * box.Columns()
      ensures CompositeGrid(tiles, box, mode, w * box.Columns(), h * box.Rows())[y][x] == MosaicAt(tiles, box, mode, w, h, y, x)
    {
      CompositePixel(tiles, box, mode, w, h, y, x);
    }
  }

  /**
   * The mosaic theorem carried through the crop: for a canvas holding the
   * mosaic of tiles of one size `w` by `h` (as `CompositeGridMosaic` shows
   * the composited canvas does), pixel (i, j) of the finished picture is the
   * canvas pixel at (y, x) = (y2 + i, x2 + j), both non-negative; inside the
   * canvas that is the mosaic pixel of the tile covering it, and past the
   * canvas it is blank.
   */
  lemma CroppedMosaicPixel(tiles: seq<Option<TileImage>>, box: TileBox, mode: Mode, w: nat, h: nat,
                           grid: seq<seq<Pixel>>, x0: real, y0: real, x1: real, y1: real, i: int, j: int)
    requires w > 0 && h > 0 && AllWellFormed(tiles) && Uniform(tiles, w, h)
    requires mode == RGB || mode == RGBA
    requires |grid| == h * box.Rows() && forall y :: 0 <= y < |grid| ==> |grid[y]| == w * box.Columns()
    requires forall y, x :: 0 <= y < h * box.Rows() && 0 <= x < w * box.Columns() ==>
      grid[y][x] == MosaicAt(tiles, box, mode, w, h, y, x)
    requires x0 <= x1 && y0 <= y1
    requires box.minX as real <= x0 < box.minX as real + 1.0 && x1 <= box.maxX as real
    requires box.minY as real <= y0 < box.minY as real + 1.0 && y1 <= box.maxY as real
    requires 0 <= i < RoundHalfEven(Scaled(h, y0, y1)) && 0 <= j < RoundHalfEven(Scaled(w, x0, x1))
    ensures
      var width, height := w * box.Columns(), h * box.Rows();
      var img := Finished(grid, width, height, mode, w, h, box, x0, y0, x1, y1);
      var c := CropBoxOf(w, h, box, x0, y0, x1, y1);
      var y, x := c.upper + i, c.left + j;
      && 0 <= y && 0 <= x
      && img.height == RoundHalfEven(Scaled(h, y0, y1)) && img.width == RoundHalfEven(Scaled(w, x0, x1))
      && img.rows[i][j] == if y < height && x < width then MosaicAt(tiles, box, mode, w, h, y, x) else Blank(mode)
  {
    CroppedPixel(grid, w * box.Columns(), h * box.Rows(), mode, w, h, box, x0, y0, x1, y1, i, j);
  }

  /**
   * The mosaic theorem for what `draw_tile` returns: when every tile of the
   * frame is `w` by `h`, the picture is the finished canvas of that tile
   * size, and that canvas holds the mosaic pixel everywhere; the pixel (i, j)
   * of the picture then follows from `CroppedMosaicPixel` on this canvas.
   */
  lemma DrawnCanvas(plan: Plan, world: World, path: string, options: Option<seq<string>>, w: nat, h: nat)
      returns (grid: seq<seq<Pixel>>)
    requires DrawTileSpec(plan, world, path, options).Ok?
    requires w > 0 && h > 0 && Uniform(TilesOf(plan, world), w, h)
    ensures
      var f := FrameOf(plan, world);
      var tiles, box := TilesOf(plan, world), BoxOf(f);
      && AllWellFormed(tiles) && f.x0 <= f.x1 && f.y0 <= f.y1
      && box.minX as real <= f.x0 < box.minX as real + 1.0 && f.x1 <= box.maxX as real
      && box.minY as real <= f.y0 < box.minY as real + 1.0 && f.y1 <= box.maxY as real
      && 0 <= w * box.Columns() && |grid| == h * box.Rows() && (forall y :: 0 <= y < |grid| ==> |grid[y]| == w * box.Columns())
      && (forall y, x :: 0 <= y < h * box.Rows() && 0 <= x < w * box.Columns() ==>
            grid[y][x] == MosaicAt(tiles, box, CanvasMode(tiles), w, h, y, x))
      && DrawTileSpec(plan, world, path, options).value.0 ==
           Finished(grid, w * box.Columns(), h * box.Rows(), CanvasMode(tiles), w, h, box, f.x0, f.y0, f.x1, f.y1)
  {
    DrawnImage(plan, world, path, options);
    var f := FrameOf(plan, world);
    grid := MosaicCanvas(TilesOf(plan, world), BoxOf(f), f, w, h);
    MulNonNegative(w, BoxOf(f).Columns());
  }

  /** With tiles of one size `w` by `h`, the picture of a frame is the finished canvas of that tile size. */
  lemma FramePictureIs(tiles: seq<Option<TileImage>>, box: TileBox, f: Frame, w: nat, h: nat)
    requires AllWellFormed(tiles) && |tiles| == |Corners(box)| && FirstPresent(tiles, |tiles|).Some?
    requires f.x0 <= f.x1 && f.y0 <= f.y1
    requires Uniform(tiles, w, h)
    ensures FramePicture(tiles, box, f) ==
      Finished(CompositeGrid(tiles, box, CanvasMode(tiles), w * box.Columns(), h * box.Rows()),
               w * box.Columns(), h * box.Rows(), CanvasMode(tiles), w, h, box, f.x0, f.y0, f.x1, f.y1)
  {
    var t := tiles[FirstPresent(tiles, |tiles|).value].value;
    assert t.width == w && t.height == h;
  }

  /** The canvas a frame's picture is finished from, holding the mosaic of its tiles of one size. */
  lemma MosaicCanvas(tiles: seq<Option<TileImage>>, box: TileBox, f: Frame, w: nat, h: nat) returns (grid: seq<seq<Pixel>>)
    requires AllWellFormed(tiles) && |tiles| == |Corners(box)| && FirstPresent(tiles, |tiles|).Some?
    requires f.x0 <= f.x1 && f.y0 <= f.y1 && box.minX <= box.maxX && box.minY <= box.maxY
    requires w > 0 && h > 0 && Uniform(tiles, w, h)
    ensures |grid| == h * box.Rows() && forall y :: 0 <= y < |grid| ==> |grid[y]| == w * box.Columns()
    ensures forall y, x :: 0 <= y < h * box.Rows() && 0 <= x < w * box.Columns() ==>
      grid[y][x] == MosaicAt(tiles, box, CanvasMode(tiles), w, h, y, x)
    ensures FramePicture(tiles, box, f) ==
      Finished(grid, w * box.Columns(), h * box.Rows(), CanvasMode(tiles), w, h, box, f.x0, f.y0, f.x1, f.y1)
  {
    grid := CompositeGrid(tiles, box, CanvasMode(tiles), w * box.Columns(), h * box.Rows());
    FramePictureIs(tiles, box, f, w, h);
    CompositeGridMosaic(tiles, box, CanvasMode(tiles), w, h);
  }

  /** The file is post-processed only when no image is returned: reprojected unless the CRS is Web Mercator in any case, else turned into a COG if asked. */
  lemma OutcomeOfDrawing(req: Request, outputExists: bool, basemaps: map<string, string>, world: World)
    ensures
      var checked := Check(req, outputExists, basemaps);
      var outcome := TmsSpec(req, outputExists, basemaps, world);
      && (outcome.Done? <==> checked.Proceed? && DrawTileSpec(checked.plan, world, req.output, req.options).Ok?)
      && (outcome.Done? ==>
            var drawn := DrawTileSpec(checked.plan, world, req.output, req.options).value;
            && outcome.raster == drawn.1
            && (outcome.returned.Some? <==> req.returnImage)
            && (outcome.returned.Some? ==> outcome.returned.value == drawn.0)
            && (outcome.post.Reproject? <==> !req.returnImage && Upper(req.crs) != "EPSG:3857")
            && (outcome.post == CogInPlace <==> !req.returnImage && Upper(req.crs) == "EPSG:3857" && req.toCog))
      && (checked.Proceed? && DrawTileSpec(checked.plan, world, req.output, req.options).Err? ==>
            outcome == Stopped(Drawing(DrawTileSpec(checked.plan, world, req.output, req.options).error)))
  {
  }
}
