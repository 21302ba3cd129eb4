# urbanworm tile mosaic and dataset bookkeeping, in Dafny

This project models two parts of the `urbanworm` package.

**`tms_to_geotiff`** (urbanworm/utils.py) downloads map tiles from a tile
server and writes them as one GeoTIFF. The model covers each step:

- checking the arguments, in the order the code checks them: existing output, source, bbox, zoom or resolution;
- resolving the tile source: a built-in name in any letter case, then a basemap name, then the string as given;
- turning a resolution into a zoom level by truncating `log2`;
- the frame of tiles covering the bbox, enumerated x-outer and y-inner as `itertools.product` does;
- `get_tile`: up to three attempts when the request raises; a 404 or an empty body means the tile is absent; other HTTP errors are raised at once;
- `paste_tile` on a canvas held in place (a class over a 2-D array) together with the `base_size` buffer, including `is_empty` and the RGB/RGBA conversion;
- the compositing loop that consumes fetches in submission order;
- `finish_picture`: a crop with Python's half-to-even `round`, which may reach past the canvas, after which PIL pads with black; an RGBA picture with no transparent pixel is flattened to RGB;
- the per-band data that is written, and the GDAL geotransform;
- the final step: return the picture, reproject, or convert to COG.

The main theorem (`Tms.CroppedMosaicPixel`) applies when all tiles have one size. It says which downloaded tile each pixel of the finished picture comes from, and when that pixel is blank. It is stated for any canvas that holds the mosaic; `Tms.CompositeGridMosaic` shows that the composited canvas does, and `Tms.DrawnCanvas` shows that the picture `draw_tile` returns is that canvas finished, with a frame that meets the theorem's conditions.

**The small helpers of utils.py:**

- `meters_to_degrees`;
- `closest`, which picks the nearest street-view images;
- the footprint filter of `getOSMbuildings`;
- `temp_file_path`;
- the default destination of `image_to_cog`.

**The `UrbanDataSet` class** (urbanworm/UrbanDataSet.py):

- the model-name check;
- the units input check;
- the `top_k`/`top_p` clamps of `chat`;
- the dispatch of `LLM_chat` on the number of images;
- the accumulation loop of `loopImgChat`;
- `bbox2Buildings`;
- the image-column pruning of `to_gdf`.

Everything outside the program becomes a parameter:

- the network: for each tile, the sequence of outcomes its successive requests would have;
- tile decoding;
- `deg2num`'s y coordinate and the EPSG:4326 to EPSG:3857 projection, which use `log`/`tan`;
- the xyzservices basemap registry;
- the Overpass response and shapely's polygon area;
- `ollama.chat`;
- `loadSHP`;
- the temporary directory and UUID.

Files, one module each:

| file | module | models |
|---|---|---|
| wrappers.dfy | Wrappers | `Option`, `Result` |
| pytext.dfy | PyText | ASCII `str.upper`/`str.lower`, `startswith`, `in`, `rfind`, `posixpath.splitext` |
| tile_grid.dfy | TileGrid | `deg2num` x, `resolution_to_zoom_level`, the covering frame, corner enumeration, `round` |
| tile_fetch.dfy | TileFetch | `get_tile` |
| mosaic.dfy | Mosaic | `is_empty`, the canvas, `paste_tile`, the compositing loop |
| picture.dfy | Picture | `finish_picture`, band data, the geotransform |
| tms.dfy | Tms | argument checks, `draw_tile`, `tms_to_geotiff` |
| geo_utils.dfy | GeoUtils | `meters_to_degrees`, `closest`, the OSM filter, `temp_file_path`, `image_to_cog`'s destination |
| dataset.dfy | Dataset | `UrbanDataSet` |

## Model

| member | source | states |
|---|---|---|
| PyText.Upper | urbanworm/utils.py:238 | `source.upper()` keeps the length, leaves no lower-case ASCII letter, and equals the input ignoring case |
| PyText.Lower | urbanworm/UrbanDataSet.py:74 | `input.lower()` keeps the length, leaves no upper-case ASCII letter, and equals the input ignoring case |
| PyText.UpperIdempotent | urbanworm/utils.py:238-239 | upper-casing twice is upper-casing once, so an upper-cased table key is found again |
| PyText.LowerOfUpper | urbanworm/UrbanDataSet.py:74 | lower-casing forgets an earlier upper-casing |
| PyText.RFind | urbanworm/utils.py:617 | the index found holds the character and no later index does; -1 when absent |
| PyText.SplitExt | urbanworm/utils.py:617 | `os.path.splitext`: the two parts concatenate to the path; the extension is empty or starts with a dot and holds no '/' and no other dot; it is non-empty exactly when the last dot lies after the last '/' and something other than a dot comes between them, and then the root is everything before that dot |
| TileGrid.TileXMonotone | urbanworm/utils.py:304-309 | moving east never decreases `deg2num`'s x tile coordinate |
| TileGrid.TileXInGrid | urbanworm/utils.py:304-309 | a longitude in [-180, 180] maps into [0, 2**zoom] |
| TileGrid.TileX | urbanworm/utils.py:306-307 | definition: `(lon + 180) / 360 * 2**zoom`; `TileXMonotone` and `TileXInGrid` are proved about it |
| TileGrid.ResolutionToZoom | urbanworm/utils.py:249-259 | definition of `resolution_to_zoom_level`, `None` where Python raises; `ResolutionToZoomSpec` and `ResolutionToZoomMonotone` are proved about it |
| TileGrid.Log2Floor | urbanworm/utils.py:257-259 | the result n satisfies 2**n <= q < 2**(n+1) |
| TileGrid.ResolutionToZoomSpec | urbanworm/utils.py:249-259 | `int(log2(156543.03392804097 / r))`: fails exactly for r <= 0; for a ratio >= 1 it is the n with 2**n <= ratio < 2**(n+1); below 1 it truncates toward zero to -n with 2**n <= 1/ratio < 2**(n+1) |
| TileGrid.ResolutionToZoomMonotone | urbanworm/utils.py:249-259 | a coarser resolution never gives a deeper zoom |
| TileGrid.Ceil | urbanworm/utils.py:390-391 | `math.ceil`: the least integer not below the value |
| TileGrid.Sorted2 | urbanworm/utils.py:386-387 | `sorted([a, b])` is ordered and is a permutation of its inputs |
| TileGrid.CoveringBox | urbanworm/utils.py:390-401 | the floor/ceil frame contains the fractional coordinates, and its first and last column and row each contain part of them |
| TileGrid.Range | urbanworm/utils.py:390-391 | `range(lo, hi)` has `max(hi - lo, 0)` entries, `lo + i` at index i |
| TileGrid.ProductLength | urbanworm/utils.py:388-393 | `itertools.product` has `|xs| * |ys|` pairs |
| TileGrid.Product | urbanworm/utils.py:389-392 | definition of `itertools.product`; `ProductLength`, `ProductAt` and `ProductMember` are proved about it |
| TileGrid.ProductAt | urbanworm/utils.py:388-393 | the pair at index `i * |ys| + j` is `(xs[i], ys[j])` (x outer, y inner) |
| TileGrid.ProductMember | urbanworm/utils.py:388-393 | a pair is in the product iff each component is in its range |
| TileGrid.CornersMembers | urbanworm/utils.py:388-394 | the corners are exactly the tiles of the frame |
| TileGrid.CornerAt | urbanworm/utils.py:388-394 | corner k is column `minX + k / rows`, row `minY + k % rows` |
| TileGrid.CornersLength | urbanworm/utils.py:394 | `totalnum` is columns times rows |
| TileGrid.Corners | urbanworm/utils.py:388-393 | definition of `corners`; `CornersMembers`, `CornerAt` and `CornersLength` are proved about it |
| TileGrid.RoundHalfEven | urbanworm/utils.py:354-357 | definition of Python's `round` on a real; `RoundIsNearest`, `RoundUnique` and `RoundNonNegative` are proved about it |
| TileGrid.RoundIsNearest | urbanworm/utils.py:354-357 | Python's `round` gives an integer nearest to the value, and the even one on a tie |
| TileGrid.RoundUnique | urbanworm/utils.py:354-357 | nearest-and-even-on-tie determines the rounded value |
| TileGrid.RoundNonNegative | urbanworm/utils.py:354-357 | rounding a non-negative value gives a non-negative integer |
| TileFetch.FirstResponse | urbanworm/utils.py:365-373 | the index of the first attempt that did not raise, with every earlier attempt raised; 3 when all three raised |
| TileFetch.GetTile | urbanworm/utils.py:364-379 | the retry loop's result and the number of requests equal the specification, between 1 and 3 |
| TileFetch.ExhaustedIff | urbanworm/utils.py:365-373 | the exception is re-raised iff the first three attempts all raised |
| TileFetch.AbsentIff | urbanworm/utils.py:374-377 | the tile is absent iff the first response is a 404 or has an empty body, even with an error status |
| TileFetch.HttpErrorNotRetried | urbanworm/utils.py:374-378 | an error status with a body raises at once; no more requests are made |
| TileFetch.RetryIsTransparent | urbanworm/utils.py:365-379 | exceptions before a good response do not change the content returned |
| TileFetch.FirstResponseIs | urbanworm/utils.py:365-373 | the first response is at k when every earlier attempt raised and attempt k responded |
| TileFetch.Classify | urbanworm/utils.py:374-379 | definition of the tail of `get_tile`: 404 or empty body is absent, an error status raises, otherwise the content |
| TileFetch.FetchOutcome | urbanworm/utils.py:364-379 | definition of what `get_tile` returns or raises; `GetTile` is proved equal to it, and `ExhaustedIff`, `AbsentIff`, `HttpErrorNotRetried` and `RetryIsTransparent` are proved about it |
| TileFetch.AttemptsMade | urbanworm/utils.py:365-373 | definition of the number of requests; `GetTile` is proved to make exactly that many |
| Mosaic.IsEmpty | urbanworm/utils.py:311-321 | `is_empty` with its early returns equals the extrema test: a fully transparent alpha band, or the first three bands all (0, 0), or a single band (0, 0) |
| Mosaic.EmptyExtrema | urbanworm/utils.py:311-321 | definition: the extrema test `is_empty` makes; `IsEmpty` is proved equal to it |
| Mosaic.Canvas.constructor | urbanworm/utils.py:332-334 | `Image.new` gives a fresh canvas of the mode and size, all blank |
| Mosaic.Canvas.Paste | urbanworm/utils.py:341-347 | pasting overwrites exactly the pixels the tile covers, converted to the canvas mode, and leaves the rest |
| Mosaic.Canvas.Grid | urbanworm/utils.py:358 | the buffer read row by row |
| Mosaic.Canvas.Crop | urbanworm/utils.py:358 | `crop` returns the specified window of the canvas |
| Mosaic.CropGrid | urbanworm/utils.py:358 | the cropped window has the box's size |
| Mosaic.PasteTile | urbanworm/utils.py:323-349 | no tile: canvas and `base_size` untouched; the first tile creates a canvas of its mode, `size * (bbox[2]-bbox[0])` by `size * (bbox[3]-bbox[1])`, and records its size in `base_size`; each tile is pasted at `(size[0]*dx, size[1]*dy)` unless it is an empty RGBA tile |
| Mosaic.Decoded | urbanworm/utils.py:326 | one entry per fetch, and every decoded tile is well formed (its rows match its size) |
| Mosaic.FirstFault | urbanworm/utils.py:404-405 | the fault raised is that of some fetch (a failed request or content that is not an image), and there is none iff every fetch is absent or an image |
| Mosaic.FirstPresent | urbanworm/utils.py:329-334 | the tile that creates the canvas is the first present one |
| Mosaic.BlankUntilFirstTile | urbanworm/utils.py:323-325 | absent tiles leave the canvas blank |
| Mosaic.Composite | urbanworm/utils.py:401-405 | the loop raises the first fault in submission order, a failed `fut.result()` or an `Image.open` of content that is not an image; otherwise it produces the canvas specified tile by tile, with `base_size` from the first present tile |
| Mosaic.FirstFaultAt | urbanworm/utils.py:404-405 | when fetch k is the first to fail or to hold something that is not an image, its fault is the one raised |
| Mosaic.PixelAfterUniform | urbanworm/utils.py:404-405 | with tiles of one size, the canvas after n tiles matches the per-cell description |
| Mosaic.StepAtCell | urbanworm/utils.py:338-347 | a tile of size w by h in cell (b, a) covers exactly the pixels (i, j) with `i / h == a` and `j / w == b`, giving them its pixel at `(i % h, j % w)` when it is pasted, and leaves every other pixel |
| Mosaic.CellKey | urbanworm/utils.py:338-340 | every canvas pixel lies in a cell of the frame, and the column-major index of that cell is in range |
| Mosaic.PixelAfterStep | urbanworm/utils.py:404-405 | pasting one more tile keeps the canvas equal to the per-cell description |
| Mosaic.Step | urbanworm/utils.py:336-347 | definition: one `paste_tile` on one canvas pixel; `StepAtCell` is proved about it |
| Mosaic.PixelAfter | urbanworm/utils.py:404-405 | definition: a canvas pixel after the first n tiles; `Composite` is proved to build it and `PixelAfterUniform` relates it to `Expected` |
| Mosaic.Expected | urbanworm/utils.py:336-347 | definition: the pixel of the tile whose cell covers the position, if pasted, else blank; `PixelAfterUniform` and `MosaicPixel` are proved about it |
| Mosaic.FaultAt | urbanworm/utils.py:326 | definition: a fetch faults when it raised, or when its content does not decode (`Image.open` raises) |
| Mosaic.MosaicPixel | urbanworm/utils.py:338-347 | with tiles of one size, each canvas pixel is the matching pixel of the tile of its cell (column block `j / w`, row block `i / h`), or blank when that tile is absent or empty |
| Mosaic.OffsetInside | urbanworm/utils.py:338-340 | with tiles of one size, every tile is pasted wholly inside the canvas |
| Picture.CropBoxOf | urbanworm/utils.py:351-358 | the crop box `(x2, y2, x2 + imgw, y2 + imgh)` is well ordered |
| Picture.RoundSumBound | urbanworm/utils.py:354-357 | the two roundings add at most one pixel to the span they cover |
| Picture.CropWithinCanvas | urbanworm/utils.py:351-358 | the crop starts inside the first tile and ends at most one pixel past the canvas |
| Picture.ToRGB | urbanworm/utils.py:360 | `convert("RGB")` keeps a well-formed image |
| Picture.Finished | urbanworm/utils.py:351-362 | the finished picture is well formed |
| Picture.FinishedSpec | urbanworm/utils.py:351-362 | the picture is `round(w*(x1-x0))` by `round(h*(y1-y0))`; pixel (i, j) is the canvas pixel at (y2+i, x2+j), or blank past the canvas; it stays RGBA iff the canvas is RGBA and some pixel is not fully opaque |
| Picture.CroppedPixel | urbanworm/utils.py:351-358 | for any canvas, pixel (i, j) of the finished picture reads the canvas at a non-negative position (y2 + i, x2 + j), or is blank past the canvas |
| Picture.FinishedSize | urbanworm/utils.py:351-358 | the finished picture is `round(w*(x1-x0))` by `round(h*(y1-y0))` for any canvas of the canvas size |
| Picture.AlphaOpaque | urbanworm/utils.py:359 | the loop decides whether every alpha value is 255 |
| Picture.FinishPicture | urbanworm/utils.py:351-362 | the method returns the finished crop of the canvas |
| Picture.Reshape | urbanworm/utils.py:441 | `reshape((height, width))` has `height` rows |
| Picture.GetDataLength | urbanworm/utils.py:440 | `getdata(band)` has `width * height` values |
| Picture.GetDataRow | urbanworm/utils.py:440 | row i occupies the i-th run of `width` values of the band data |
| Picture.ReshapeGetData | urbanworm/utils.py:439-443 | reshaping a band's data gives back row i of the picture in that band |
| Picture.BandArrays | urbanworm/utils.py:439-443 | one array per band (3 for RGB, 4 for RGBA), each `height` rows, each row that band of the picture's row |
| Picture.BandGrids | urbanworm/utils.py:414 | one grid per band of the mode |
| Picture.GeoTransformSpansBox | urbanworm/utils.py:433-437 | the transform is north-up and unrotated; its origin is the west-north corner, and width pixels east and height pixels south reach the east-south corner exactly |
| Tms.FrameOf | urbanworm/utils.py:384-387 | the fractional tile coordinates are sorted on each axis |
| Tms.BoxOf | urbanworm/utils.py:401 | the `bbox` tuple is a well-ordered frame |
| Tms.AttemptsFor | urbanworm/utils.py:364-373 | a tile may be requested three times |
| Tms.FetchedAll | urbanworm/utils.py:395-405 | one fetch result per corner |
| Tms.FetchedOf | urbanworm/utils.py:395-405 | one fetch result per tile of the frame |
| Tms.TilesOf | urbanworm/utils.py:405 | one decoded tile or `None` per tile of the frame |
| Tms.CanvasMode | urbanworm/utils.py:327-334 | the canvas mode is RGB or RGBA |
| Tms.CompositeGrid | urbanworm/utils.py:402-405 | the composited canvas has the canvas size |
| Tms.FramePicture | urbanworm/utils.py:402-412 | the picture made of the frame is well formed |
| Tms.FetchTiles | urbanworm/utils.py:395-405 | the results are awaited in submission order, one `get_tile` per corner |
| Tms.DrawTile | urbanworm/utils.py:381-448 | `draw_tile` returns the picture and writes the raster `DrawTileSpec` gives, or raises its error: the first failed fetch or undecodable tile, no tile at all, or an empty raster |
| Tms.TmsToGeotiff | urbanworm/utils.py:221-461 | the whole call's outcome equals `TmsSpec`, undecodable tiles included |
| Tms.SourceNameIgnoresCase | urbanworm/utils.py:237-239 | a built-in source name is found in any letter case, ahead of the basemaps |
| Tms.UrlPassesThrough | urbanworm/utils.py:237-243 | a URL that is not a basemap name is used as given |
| Tms.NotXyzName | urbanworm/utils.py:227-233 | no `xyz_tiles` name has a `T` in second place, so no string starting with `ht` can name one in any case |
| Tms.XyzTemplate | urbanworm/utils.py:227-233 | definition: the `xyz_tiles` table; `SourceNameIgnoresCase` and `NotXyzName` are proved about it |
| Tms.ResolveSource | urbanworm/utils.py:237-247 | definition of the source resolution; `SourceNameIgnoresCase` and `UrlPassesThrough` are proved about it |
| Tms.Check | urbanworm/utils.py:221-274 | definition of the argument checks in order; `CheckAccepts` is proved about it |
| Tms.CheckAccepts | urbanworm/utils.py:221-274 | an existing output without `overwrite` skips the call before any other check; the call proceeds iff the source is a string, the bbox a list of four, and exactly one of zoom and a positive resolution is given; the plan holds the resolved source, the bbox and the zoom |
| Tms.DrawErrors | urbanworm/utils.py:404-413 | the fault of the first fetch that failed or holds something that is not an image is raised; drawing fails that way iff some fetch faults; otherwise it fails for want of a tile iff every tile is absent |
| Tms.DrawTileSpec | urbanworm/utils.py:381-448 | definition of `draw_tile`'s result; `DrawErrors`, `DrawnImage`, `DrawnCanvas` and `DrawnIsRasterOf` are proved about it |
| Tms.DrawnImage | urbanworm/utils.py:384-413 | the picture is `FramePicture` of the frame's tiles, which are all well formed with at least one present; it has no zero side, and the raster is built from it |
| Tms.RasterOfPicture | urbanworm/utils.py:414-443 | the raster has the picture's size, path and band count, the default options unless given, each band's values, and a transform spanning the projected corners |
| Tms.DrawnIsRasterOf | urbanworm/utils.py:413-443 | what is written is built from the returned picture |
| Tms.CompositePixel | urbanworm/utils.py:338-347 | with tiles of one size w by h, canvas pixel (y, x) belongs to tile index `(x / w) * rows + y / h`, whose corner is `(minX + x / w, minY + y / h)`; the pixel is that tile's pixel at `(y % h, x % w)`, or blank when the tile is absent or empty |
| Tms.CompositeGridMosaic | urbanworm/utils.py:401-405 | with tiles of one size, every pixel of the composited canvas is its mosaic pixel as above |
| Tms.CroppedMosaicPixel | urbanworm/utils.py:338-362 | on a canvas holding the mosaic of tiles of one size, pixel (i, j) of the finished picture is the mosaic pixel at (y2 + i, x2 + j): the matching pixel of the tile of that cell, blank for an absent or empty tile, and blank past the canvas; the picture is `round(w*(x1-x0))` by `round(h*(y1-y0))` |
| Tms.FramePictureIs | urbanworm/utils.py:402-412 | with tiles of one size, the picture of a frame is the finished canvas of that tile size |
| Tms.MosaicCanvas | urbanworm/utils.py:401-412 | with tiles of one size, the picture of a frame is finished from a canvas of that size holding the mosaic pixel everywhere |
| Tms.DrawnCanvas | urbanworm/utils.py:381-412 | with tiles of one size w by h, the picture `draw_tile` returns is the finished canvas of size `w * columns` by `h * rows` holding the mosaic pixel everywhere, and the frame meets every condition of `CroppedMosaicPixel`, which then gives each pixel of the picture |
| Tms.OutcomeOfDrawing | urbanworm/utils.py:450-461 | with `return_image` the picture is returned and nothing else happens; otherwise the file is reprojected unless the CRS is EPSG:3857 in any case, else converted to COG if asked; drawing errors are re-raised |
| Tms.PostStepOf | urbanworm/utils.py:456-459 | definition: reproject unless the CRS is EPSG:3857 in any case, else COG if asked; `OutcomeOfDrawing` is proved about it |
| Tms.TmsSpec | urbanworm/utils.py:221-461 | definition of the whole call; `TmsToGeotiff` is proved equal to it and `OutcomeOfDrawing` is proved about it |
| GeoUtils.MetersToDegrees | urbanworm/utils.py:27-31 | fails exactly where the metres per degree are zero |
| GeoUtils.MetersToDegreesOnGlobe | urbanworm/utils.py:27-31 | for a latitude in [-90, 90] the conversion is defined, keeps the sign, and multiplying back gives the metres |
| GeoUtils.MetersToDegreesGrowsPoleward | urbanworm/utils.py:27-31 | nearer a pole the same distance spans at least as many degrees |
| GeoUtils.MetersPerDegree | urbanworm/utils.py:30 | definition: `111320 * (1 - 0.000022 * abs(latitude))`; its zero and sign are stated by `MetersToDegrees` and `MetersToDegreesOnGlobe` |
| GeoUtils.Distance | urbanworm/utils.py:105 | definition: one entry of `dis_array`, the squared planar distance to the centroid; `Distances` is the whole array, and `ClosestSingle`/`ClosestMulti` state what is chosen by it |
| GeoUtils.FirstNearest | urbanworm/utils.py:109-110 | definition: image k is at the least distance and every earlier image is farther, i.e. k is `np.where(d == np.min(d))[0][0]` |
| GeoUtils.Closest | urbanworm/utils.py:102-111 | definition of `closest`: the rows of the three nearest ids with `multi` and more than three images, else those of the first nearest id, and `NoImages` for an empty response, which raises when the coordinate columns are built (utils.py:100); proved about by `ClosestSingle` and `ClosestMulti` |
| GeoUtils.ArgMin | urbanworm/utils.py:109-110 | the first index of the smallest value, among the indices not excluded |
| GeoUtils.SmallestThree | urbanworm/utils.py:106-107 | three distinct indices in ascending order of value, none farther than any index left out |
| GeoUtils.RowsWithId | urbanworm/utils.py:108-111 | a row is kept iff its id is among the chosen ones |
| GeoUtils.ClosestSingle | urbanworm/utils.py:105-111 | without `multi` (or with at most three images) the rows returned are exactly the response rows with the id of the first image at the least squared distance (`ind[0]`); there is at least one, and all share that id |
| GeoUtils.ClosestMulti | urbanworm/utils.py:105-108 | with `multi` and more than three images, the rows are those whose id is one of three distinct images, none farther than an image left out |
| GeoUtils.KeptFootprints | urbanworm/utils.py:147-157 | at most one footprint per element |
| GeoUtils.Keeps | urbanworm/utils.py:149-156 | definition: the element has a geometry of more than two nodes whose area times `111320 ** 2` is at least `min_area` and, when given, at most `max_area`; `KeptMembers` and `KeptShrinks` are proved about it |
| GeoUtils.FilterBuildings | urbanworm/utils.py:147-160 | the loop keeps the specified footprints in order, and gives `None` iff none is kept |
| GeoUtils.KeptMembers | urbanworm/utils.py:147-157 | a footprint is kept iff some element with that geometry has more than two nodes and an area within the bounds |
| GeoUtils.KeptShrinks | urbanworm/utils.py:154-157 | a higher `min_area` never keeps more footprints |
| GeoUtils.DottedExtension | urbanworm/utils.py:670-671 | the extension starts with a dot |
| GeoUtils.DottedExtensionSpec | urbanworm/utils.py:670-671 | a dot is added only when missing, so normalising twice is normalising once |
| GeoUtils.TempFilePath | urbanworm/utils.py:670-673 | the temporary path ends with the dotted extension |
| GeoUtils.DefaultCogPathLocal | urbanworm/utils.py:615-619 | for a local source the destination keeps the source's stem, ends in `_cog.tif`, and is never the source itself |
| GeoUtils.DefaultCogPath | urbanworm/utils.py:615-619 | definition: the local source's root plus `_cog.tif`, or a temporary path for a URL; `DefaultCogPathLocal` is proved about it |
| Dataset.CheckModel | urbanworm/UrbanDataSet.py:91-99 | an unsupported model is reported with its name |
| Dataset.CheckModelAccepts | urbanworm/UrbanDataSet.py:91-99 | exactly the eight listed names pass; another tag of a listed family or another case fails |
| Dataset.CheckUnits | urbanworm/UrbanDataSet.py:71-81 | a GeoDataFrame passes as is; a string passes iff its lower-cased form contains ".shp" or ".geojson", and is then loaded; anything else is a type error |
| Dataset.UnitsPathIgnoresCase | urbanworm/UrbanDataSet.py:74 | a path and its upper-cased form are judged alike |
| Dataset.ShapefileAccepted | urbanworm/UrbanDataSet.py:74-75 | a path ending in ".SHP" is accepted and loaded |
| Dataset.ClampTopK | urbanworm/UrbanDataSet.py:539-542 | `top_k` ends in (0, 100]: above 100 becomes 100, non-positive becomes 1, the rest is unchanged |
| Dataset.ClampTopP | urbanworm/UrbanDataSet.py:544-547 | `top_p` ends in [0, 1]: above 1 becomes 1, non-positive becomes 0, the rest is unchanged |
| Dataset.ClampTopKNotMonotone | urbanworm/UrbanDataSet.py:539-542 | the `top_k` clamp is not monotone: 0 becomes 1, above a kept 0.5 |
| Dataset.LlmChat | urbanworm/UrbanDataSet.py:509-520 | raises iff the prompt or the image list is missing; one image gives that one chat result; three images give three results in image order, all with one prefixed system message; any other count gives `None` |
| Dataset.Digits | urbanworm/UrbanDataSet.py:154 | `str(n)` is a non-empty string of decimal digits |
| Dataset.DigitsRoundTrip | urbanworm/UrbanDataSet.py:154 | reading the digits back gives the count |
| Dataset.FoundMessageReportsCount | urbanworm/UrbanDataSet.py:154 | the "found" message starts with the count in decimal, followed by the fixed suffix |
| Dataset.LoopImgChatLog | urbanworm/UrbanDataSet.py:209-226 | it succeeds iff the model is supported, images exist, and (for a non-empty list) a prompt and enough encodings exist; then there is one response per image in image order, `img` equals the image list, and `imgBase64` exists iff `saveImg` and at least one image, holding every encoding |
| Dataset.LoopImgChatSpec | urbanworm/UrbanDataSet.py:209-226 | definition of `loopImgChat`'s result; `LoopImgChatLog` is proved about it and `UrbanDataSet.LoopImgChat` equal to it |
| Dataset.Bbox2BuildingsOutcome | urbanworm/UrbanDataSet.py:137-154 | an unknown source, or bing without epsg, raises; footprints are stored iff the message reports finding some, and the count reported is the number stored; from OSM they are the filter's footprints |
| Dataset.Bbox2BuildingsSpec | urbanworm/UrbanDataSet.py:137-154 | definition of `bbox2Buildings`'s message and footprints; `Bbox2BuildingsOutcome` is proved about it |
| Dataset.ImageColumnsPruned | urbanworm/UrbanDataSet.py:469-477 | an image column is attached iff its list is non-empty, holding that list; with both empty, none is attached |
| Dataset.ImageColumnsOf | urbanworm/UrbanDataSet.py:469-477 | definition of the image columns attached; `ImageColumnsPruned` is proved about it |
| Dataset.UrbanDataSet.constructor | urbanworm/UrbanDataSet.py:44-51 | the image list is kept, encoded when it holds paths; no units or results yet |
| Dataset.UrbanDataSet.LoopImgChat | urbanworm/UrbanDataSet.py:209-226 | the result equals the specification, and `results` is set only on success |
| Dataset.UrbanDataSet.Bbox2Buildings | urbanworm/UrbanDataSet.py:137-154 | the message equals the specification; `units` changes only when buildings were found |
| Dataset.UrbanDataSet.ToGdf | urbanworm/UrbanDataSet.py:465-483 | before any results, or after `loopImgChat`, nothing is built; after `loopUnitChat`, `geo_df` gets the pruned image columns and is returned iff `output` |

## Left out

- Network I/O: `SESSION.get`, the Overpass POST, Mapillary, `getSV`. Each request is an outcome given as input.
- The `ThreadPoolExecutor(5)`: results are consumed in submission order, so the model fetches sequentially.
- URL formatting (`source.format(z=..., x=..., y=...)`): the network parameter is indexed by URL template, zoom and tile. A template with any other placeholder, such as a user URL with `{s}`, makes `format` raise `KeyError` (utils.py:399), so the call always fails before fetching, while the model may reach `Done`.
- `deg2num`'s y coordinate and `from4326_to3857`, which use `log`, `tan` and `cos`: given as functions. The x coordinate is rational and modelled exactly.
- Floating-point rounding: reals are exact. `resolution_to_zoom_level` and the crop rounding can differ from IEEE doubles at exact boundaries.
- PIL decoding itself, and conversion of tile modes other than RGB/RGBA: decoding is a parameter that gives a well-formed tile in its paste mode, with its extrema, or `None` when the bytes are not an image. The extrema are given with the tile, not recomputed from its pixels.
- GDAL: driver creation, `SetProjection`, flushing, `reproject`, and `image_to_cog`'s `cog_translate`. The raster is a value, and the post step is named without being performed.
- `bigim.close()`, `im.close()` and the `quiet` progress prints.
- The PROJ environment recovery (utils.py:280-293), `get_basemaps`/`get_xyz_dict` (the basemap map is an input), `projection`, `dis2degree`, `degree2dis`, `calculate_bearing`.
- `check_file_path`, `os.path.exists` and `FileNotFoundError` in `image_to_cog`: file-system dependent. The absolute source path is an input.
- `str.upper`/`str.lower` act on ASCII letters only; non-ASCII case mapping is not modelled.
- `Tms.DrawTile`: a frame with no present tile raises (PIL has no canvas), and a zero-sized picture makes GDAL refuse to create the raster. Both are error results (`NoTile`, `EmptyRaster`).
- `Picture.CropWithinCanvas` states only a bound: the crop may end one pixel past the canvas when both roundings round up, and PIL pads that pixel with black.
- `GeoUtils.Closest`: `np.argsort` does not fix the order among equal distances. The model takes the first index on ties, one of the outcomes numpy may give.
- `GeoUtils.DefaultCogPath`: only the default-destination branch of `image_to_cog` is modelled.
- `Dataset.UrbanDataSet.Bbox2Buildings`: `random_sample` (random rows from pandas) is not modelled. `getGlobalMLBuilding` is outside this model, and its result is an input.
- `Dataset.UrbanDataSet.LoopImgChat`: `preload_model`, the progress bar and the `output_df` conversion through `to_df` (pandas) are left out.
- `Dataset.UrbanDataSet.constructor`: an empty `images` list raises `IndexError` at `images[0]` (UrbanDataSet.py:47); this case is excluded by a requires, not modelled as an error. The `image`, `units`, `format`, `mapillary_key` and `random_sample` arguments are not modelled. `CheckUnits` models the units check it makes.
- `Dataset.LlmChat`: `top_k` or `top_p` passed as `None` would raise a `TypeError` in `chat`. Callers pass numbers, so they are reals here.
- `Dataset.UrbanDataSet.ToGdf`: `response2gdf` and the frame concatenation are not modelled. The unit responses are kept as they are.
- `loopUnitChat`: its street-view branch calls `getSV` with keyword arguments `getSV` does not accept, and its image clipping uses files.
- Other `UrbanDataSet` methods: `oneImgChat`, `dataAnalyst`, the summaries, plotting and export. They are LLM, pandas or plotting plumbing.
- The parsing of the model's JSON answer into a `Response`: it is part of the chat oracle.
