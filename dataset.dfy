/**
 * The validation and bookkeeping of `UrbanDataSet`
 * (urbanworm/UrbanDataSet.py): the model-name check, the units input
 * check, the sampling-parameter clamps of `chat`, the dispatch of
 * `LLM_chat`, the accumulation loop of `loopImgChat`, `bbox2Buildings` and
 * the image-column pruning of `to_gdf`.
 *
 * `ollama.chat` is an oracle: a function from the model, system message,
 * prompt, image and clamped sampling parameters to the parsed response.
 */
module Dataset {
  import opened Wrappers
  import opened PyText
  import GeoUtils

  /** One answered question of a model response. */
  datatype QnA = QnA(question: string, answer: string, explanation: string)

  /** `Response.responses`. */
  type Response = seq<QnA>

  type Footprint = seq<(real, real)>

  /** A GeoDataFrame of building footprints. */
  type Frame = seq<Footprint>

  datatype DatasetError =
    | UnsupportedModel(model: string)
    | WrongUnitsType          // `raise "..."` with a str: Python raises a TypeError
    | MissingPromptOrImage
    | NoImages                // `len(None)` when the dataset holds no image list
    | MissingBase64Images     // `self.base64Imgs` unset or shorter than `self.imgs`
    | UnsupportedSource(source: string)
    | MissingEpsg             // `raise "..."` with a str, as above

  // ---------------------------------------------------------------------
  // __checkModel
  // ---------------------------------------------------------------------

  const SupportedModels: seq<string> := [
    "granite3.2-vision", "llama3.2-vision", "gemma3", "gemma3:1b",
    "gemma3:12b", "gemma3:27b", "minicpm-v", "mistral-small3.1"
  ]

  function CheckModel(model: string): (r: Result<(), DatasetError>)
    ensures r.Err? ==> r.error == UnsupportedModel(model)
  {
    if model in SupportedModels then Ok(()) else Err(UnsupportedModel(model))
  }

  /**
   * Exactly the eight names are accepted; the test is on the exact
   * string, so another tag of a listed family or a different case is
   * refused.
   */
  lemma CheckModelAccepts(model: string)
    ensures CheckModel(model).Ok? <==>
      model == "granite3.2-vision" || model == "llama3.2-vision" || model == "gemma3" ||
      model == "gemma3:1b" || model == "gemma3:12b" || model == "gemma3:27b" ||
      model == "minicpm-v" || model == "mistral-small3.1"
    ensures CheckModel("gemma3:4b").Err? && CheckModel("Gemma3").Err?
  {
    assert "gemma3:4b"[7] == '4';
    assert "Gemma3"[0] == 'G';
  }

  // ---------------------------------------------------------------------
  // __checkUnitsInputType
  // ---------------------------------------------------------------------

  /** What can be passed as `units`. */
  datatype UnitsInput = PathText(path: string) | GeoFrame(frame: Frame) | OtherValue

  /** `__checkUnitsInputType`; `load` stands for `loadSHP`, which reads the file. */
  function CheckUnits(input: UnitsInput, load: string -> Frame): (r: Result<Frame, DatasetError>)
    ensures r.Err? <==> (input.OtherValue? ||
      (input.PathText? && !Contains(Lower(input.path), ".shp") && !Contains(Lower(input.path), ".geojson")))
    ensures r.Err? ==> r.error == WrongUnitsType
    ensures input.GeoFrame? ==> r == Ok(input.frame)
    ensures input.PathText? && r.Ok? ==> r.value == load(input.path)
  {
    match input
    case PathText(p) =>
      if Contains(Lower(p), ".shp") || Contains(Lower(p), ".geojson") then Ok(load(p))
      else Err(WrongUnitsType)
    case GeoFrame(f) => Ok(f)
    case OtherValue => Err(WrongUnitsType)
  }

  /** The file-name test ignores case: a path and its upper-cased form are judged alike. */
  lemma UnitsPathIgnoresCase(p: string, load: string -> Frame)
    ensures CheckUnits(PathText(Upper(p)), load).Ok? == CheckUnits(PathText(p), load).Ok?
  {
    LowerOfUpper(p);
  }

  /** A shapefile name is accepted whatever the case of its extension. */
  lemma ShapefileAccepted(stem: string, load: string -> Frame)
    ensures CheckUnits(PathText(stem + ".SHP"), load) == Ok(load(stem + ".SHP"))
  {
    var p := stem + ".SHP";
    var l := Lower(p);
    assert l[|stem|..|stem| + 4] == ".shp" by {
      assert p[|stem|] == '.' && p[|stem| + 1] == 'S' && p[|stem| + 2] == 'H' && p[|stem| + 3] == 'P';
    }
    assert OccursAt(l, ".shp", |stem|);
  }

  // ---------------------------------------------------------------------
  // chat: the sampling-parameter clamps
  // ---------------------------------------------------------------------

  /** `top_k`: above 100 becomes 100, non-positive becomes 1, the rest is kept. */
  function ClampTopK(topK: real): (r: real)
    ensures 0.0 < r <= 100.0
    ensures 0.0 < topK <= 100.0 ==> r == topK
    ensures topK > 100.0 ==> r == 100.0
    ensures topK <= 0.0 ==> r == 1.0
  {
    if topK > 100.0 then 100.0 else if topK <= 0.0 then 1.0 else topK
  }

  /** `top_p`: above 1 becomes 1, non-positive becomes 0, the rest is kept. */
  function ClampTopP(topP: real): (r: real)
    ensures 0.0 <= r <= 1.0
    ensures 0.0 < topP <= 1.0 ==> r == topP
    ensures topP > 1.0 ==> r == 1.0
    ensures topP <= 0.0 ==> r == 0.0
  {
    if topP > 1.0 then 1.0 else if topP <= 0.0 then 0.0 else topP
  }

  /**
   * The `top_k` clamp is not monotone: a non-positive value is raised to
   * 1, above a fractional value that is kept.
   */
  lemma ClampTopKNotMonotone()
    ensures ClampTopK(0.0) > ClampTopK(0.5)
  {
  }

  // ---------------------------------------------------------------------
  // chat and LLM_chat
  // ---------------------------------------------------------------------

  /** `ollama.chat` followed by parsing its JSON answer into a `Response`. */
  type ChatOracle = (string, Option<string>, string, string, real, real, real) -> Response

  /** `chat`: one call to the model with the clamped sampling parameters. */
  function Chat(ollama: ChatOracle, model: string, system: Option<string>, prompt: string, img: string,
                temp: real, topK: real, topP: real): Response
  {
    ollama(model, system, prompt, img, temp, ClampTopK(topK), ClampTopP(topP))
  }

  /** What `LLM_chat` returns. */
  datatype Reply =
    | Single(response: Response)          // one image: the `Response` of that call
    | PerImage(responses: seq<Response>)  // three images: one response list per image
    | NoReply                             // any other count falls off the end: `None`

  const ViewPrefix: string :=
    "You are analyzing aerial or street view images. For street view, you should just focus on the building and yard in the middle. "

  /** `f"{system}"`: Python formats a missing value as "None". */
  function Formatted(system: Option<string>): string {
    match system
    case None => "None"
    case Some(s) => s
  }

  /** `LLM_chat`: the loop over three images asks the model once per image, in order. */
  method LlmChat(ollama: ChatOracle, model: string, system: Option<string>, prompt: Option<string>,
                 img: Option<seq<string>>, temp: real, topK: real, topP: real)
    returns (r: Result<Reply, DatasetError>)
    ensures r.Err? <==> prompt.None? || img.None?
    ensures r.Err? ==> r.error == MissingPromptOrImage
    ensures r.Ok? && |img.value| == 1 ==>
      r.value == Single(Chat(ollama, model, system, prompt.value, img.value[0], temp, topK, topP))
    ensures r.Ok? && |img.value| == 3 ==>
      && r.value.PerImage? && |r.value.responses| == 3
      && forall i :: 0 <= i < 3 ==>
           r.value.responses[i] ==
           Chat(ollama, model, Some(ViewPrefix + Formatted(system)), prompt.value, img.value[i], temp, topK, topP)
    ensures r.Ok? && |img.value| != 1 && |img.value| != 3 ==> r == Ok(NoReply)
  {
    if prompt.None? || img.None? {
      return Err(MissingPromptOrImage);
    }
    var images := img.value;
    if |images| == 1 {
      return Ok(Single(Chat(ollama, model, system, prompt.value, images[0], temp, topK, topP)));
    } else if |images| == 3 {
      var res: seq<Response> := [];
      var prefixed := Some(ViewPrefix + Formatted(system));
      for i := 0 to |images|
        invariant |res| == i
        invariant forall k :: 0 <= k < i ==>
          res[k] == Chat(ollama, model, prefixed, prompt.value, images[k], temp, topK, topP)
      {
        var reply := Chat(ollama, model, prefixed, prompt.value, images[i], temp, topK, topP);
        res := res + [reply];
      }
      return Ok(PerImage(res));
    }
    return Ok(NoReply);
  }

  // ---------------------------------------------------------------------
  // Messages of bbox2Buildings
  // ---------------------------------------------------------------------

  /** `str(n)` for a count. */
  function Digits(n: nat): (s: string)
    ensures |s| > 0
    ensures forall i :: 0 <= i < |s| ==> '0' <= s[i] <= '9'
  {
    if n < 10 then [('0' as int + n) as char]
    else Digits(n / 10) + [('0' as int + n % 10) as char]
  }

  /** `int(s)` for a string of decimal digits. */
  function DigitsValue(s: string): nat
    requires forall i :: 0 <= i < |s| ==> '0' <= s[i] <= '9'
  {
    if s == [] then 0
    else DigitsValue(s[..|s| - 1]) * 10 + (s[|s| - 1] as int - '0' as int)
  }

  /** Reading the count back from its decimal text gives the count. */
  lemma {:induction false} DigitsRoundTrip(n: nat)
    ensures DigitsValue(Digits(n)) == n
  {
    if n >= 10 {
      var s := Digits(n);
      assert s[..|s| - 1] == Digits(n / 10);
      DigitsRoundTrip(n / 10);
    }
  }

  datatype Message = NoneFound(source: string) | Found(count: nat)

  const FoundSuffix: string := " buildings found in the bounding box."

  /** The text `bbox2Buildings` returns. */
  function MessageText(m: Message): string {
    match m
    case NoneFound(source) =>
      if source == "osm" then
        "No buildings found in the bounding box. Please check https://overpass-turbo.eu/ for areas with buildings."
      else
        "No buildings found in the bounding box. Please check https://github.com/microsoft/GlobalMLBuildingFootprints for areas with buildings."
    case Found(n) => Digits(n) + FoundSuffix
  }

  /** The count can be read back from the start of the "found" message. */
  lemma FoundMessageReportsCount(n: nat)
    ensures var t := MessageText(Found(n));
      var k := |t| - |FoundSuffix|;
      && k > 0
      && t[k..] == FoundSuffix
      && (forall i :: 0 <= i < k ==> '0' <= t[i] <= '9')
      && DigitsValue(t[..k]) == n
  {
    var t := MessageText(Found(n));
    assert t[..|Digits(n)|] == Digits(n);
    DigitsRoundTrip(n);
  }

  // ---------------------------------------------------------------------
  // The dataset object
  // ---------------------------------------------------------------------

  /** The dictionary `loopImgChat` builds. */
  datatype ImgChatLog = ImgChatLog(responses: seq<Response>, img: seq<string>, imgBase64: Option<seq<string>>)

  /** `self.results['base64_imgs']` of `loopUnitChat`. */
  datatype ImageColumns = ImageColumns(topView: seq<string>, streetView: seq<string>)

  /** The responses of `loopUnitChat`, whose conversion to a table is not modelled. */
  datatype UnitLog = UnitLog(rows: seq<Response>)

  /** `self.results`. */
  datatype Results =
    | FromLoopImgChat(log: ImgChatLog)
    | FromLoopUnitChat(units: UnitLog, base64: ImageColumns)

  /** `self.geo_df`: the unit responses with the image columns attached. */
  datatype GeoTable = GeoTable(responses: UnitLog, imageColumns: seq<(string, seq<string>)>)

  /** What `to_gdf` does: print a complaint, or build `geo_df` and maybe return it. */
  datatype GdfOutcome = NotRunYet | NotFromLoopUnitChat | Built(returned: Option<GeoTable>)

  /** What `loopImgChat` returns or raises, given the dataset's image lists. */
  function LoopImgChatSpec(imgs: Option<seq<string>>, base64Imgs: Option<seq<string>>, ollama: ChatOracle,
                           model: string, system: Option<string>, prompt: Option<string>,
                           temp: real, topK: real, topP: real, saveImg: bool): Result<ImgChatLog, DatasetError>
  {
    if CheckModel(model).Err? then Err(UnsupportedModel(model))
    else if imgs.None? then Err(NoImages)
    else
      var images := imgs.value;
      if images == [] then Ok(ImgChatLog([], [], None))
      else if base64Imgs.None? || base64Imgs.value == [] then Err(MissingBase64Images)
      else if prompt.None? then Err(MissingPromptOrImage)
      else if |base64Imgs.value| < |images| then Err(MissingBase64Images)
      else
        var b64 := base64Imgs.value;
        Ok(ImgChatLog(
          seq(|images|, i requires 0 <= i < |images| => Chat(ollama, model, system, prompt.value, b64[i], temp, topK, topP)),
          images,
          if saveImg then Some(b64[..|images|]) else None))
  }

  /**
   * After `loopImgChat` there is one response per image, in image order,
   * each the model's answer for that image's encoding; `img` repeats the
   * image list; `imgBase64` exists exactly when images were saved and
   * there was at least one image, and then holds every encoding.
   */
  lemma LoopImgChatLog(imgs: Option<seq<string>>, base64Imgs: Option<seq<string>>, ollama: ChatOracle,
                       model: string, system: Option<string>, prompt: Option<string>,
                       temp: real, topK: real, topP: real, saveImg: bool)
    ensures var r := LoopImgChatSpec(imgs, base64Imgs, ollama, model, system, prompt, temp, topK, topP, saveImg);
      && (r.Ok? <==>
            CheckModel(model).Ok? && imgs.Some? &&
            (imgs.value == [] || (base64Imgs.Some? && |base64Imgs.value| >= |imgs.value| && prompt.Some?)))
      && (r.Ok? ==>
            && |r.value.responses| == |imgs.value|
            && r.value.img == imgs.value
            && (forall i :: 0 <= i < |imgs.value| ==>
                  r.value.responses[i] == Chat(ollama, model, system, prompt.value, base64Imgs.value[i], temp, topK, topP))
            && (r.value.imgBase64.Some? <==> saveImg && imgs.value != [])
            && (r.value.imgBase64.Some? ==>
                  |r.value.imgBase64.value| == |imgs.value| &&
                  forall i :: 0 <= i < |imgs.value| ==> r.value.imgBase64.value[i] == base64Imgs.value[i]))
  {
  }

  /** What `bbox2Buildings` returns, and the footprints it stores, if any. */
  function Bbox2BuildingsSpec(source: string, epsg: Option<int>, minArea: real, maxArea: Option<real>,
                              elements: seq<GeoUtils.Element>, area: seq<(real, real)> -> real,
                              globalML: Option<Frame>): (Result<Message, DatasetError>, Option<Frame>)
  {
    if source != "osm" && source != "bing" then (Err(UnsupportedSource(source)), None)
    else if source == "bing" && epsg.None? then (Err(MissingEpsg), None)
    else
      var buildings :=
        if source == "osm" then
          var kept := GeoUtils.KeptFootprints(elements, area, minArea, maxArea);
          if kept == [] then None else Some(kept)
        else globalML;
      if buildings.None? || buildings.value == [] then (Ok(NoneFound(source)), None)
      else (Ok(Found(|buildings.value|)), buildings)
  }

  /**
   * `bbox2Buildings` stores footprints only when it reports finding some,
   * and then reports exactly how many it stored; from OpenStreetMap those
   * are the footprints the area filter keeps.
   */
  lemma Bbox2BuildingsOutcome(source: string, epsg: Option<int>, minArea: real, maxArea: Option<real>,
                              elements: seq<GeoUtils.Element>, area: seq<(real, real)> -> real,
                              globalML: Option<Frame>)
    ensures var (r, stored) := Bbox2BuildingsSpec(source, epsg, minArea, maxArea, elements, area, globalML);
      && (r.Err? <==> (source != "osm" && source != "bing") || (source == "bing" && epsg.None?))
      && (stored.Some? <==> r.Ok? && r.value.Found?)
      && (stored.Some? ==> r.value.count == |stored.value| > 0)
      && (stored.Some? && source == "osm" ==> stored.value == GeoUtils.KeptFootprints(elements, area, minArea, maxArea))
      && (stored.Some? && source == "bing" ==> globalML == stored)
      && (r.Ok? && r.value.NoneFound? ==> r.value.source == source)
  {
  }

  /** `to_gdf`'s image columns: each list of encodings that is not empty, under its name. */
  function ImageColumnsOf(c: ImageColumns): seq<(string, seq<string>)> {
    if c.topView == [] && c.streetView == [] then []
    else
      (if c.topView != [] then [("top_view_base64", c.topView)] else []) +
      (if c.streetView != [] then [("street_view_base64", c.streetView)] else [])
  }

  /**
   * A column is attached exactly when its list is not empty, holding that
   * list; with both lists empty nothing is attached.
   */
  lemma ImageColumnsPruned(c: ImageColumns)
    ensures var cols := ImageColumnsOf(c);
      && (cols == [] <==> c.topView == [] && c.streetView == [])
      && ((exists k :: 0 <= k < |cols| && cols[k].0 == "top_view_base64") <==> c.topView != [])
      && ((exists k :: 0 <= k < |cols| && cols[k].0 == "street_view_base64") <==> c.streetView != [])
      && (forall k :: 0 <= k < |cols| ==>
            && cols[k].1 != []
            && (cols[k].0 == "top_view_base64" ==> cols[k].1 == c.topView)
            && (cols[k].0 == "street_view_base64" ==> cols[k].1 == c.streetView))
  {
    var cols := ImageColumnsOf(c);
    assert "top_view_base64" != "street_view_base64" by {
      assert "top_view_base64"[0] != "street_view_base64"[0];
    }
    if c.topView != [] {
      assert cols[0].0 == "top_view_base64";
    }
    if c.streetView != [] {
      assert cols[|cols| - 1].0 == "street_view_base64";
    }
  }

  class UrbanDataSet {
    var imgs: Option<seq<string>>
    var base64Imgs: Option<seq<string>>
    var units: Option<Frame>
    var results: Option<Results>
    var geoDf: Option<GeoTable>

    /**
     * `__init__` with an image list: `imagePaths` is whether the first entry
     * is a path, and `encode` stands for `encode_image_to_base64`.
     */
    constructor(images: Option<seq<string>>, imagePaths: bool, encode: string -> string)
      requires images.Some? ==> |images.value| > 0   // `images[0]` is read
      ensures imgs == images
      ensures base64Imgs ==
        if images.Some? && imagePaths
        then Some(seq(|images.value|, i requires 0 <= i < |images.value| => encode(images.value[i])))
        else None
      ensures units.None? && results.None? && geoDf.None?
    {
      imgs := images;
      if images.Some? && imagePaths {
        base64Imgs := Some(seq(|images.value|, i requires 0 <= i < |images.value| => encode(images.value[i])));
      } else {
        base64Imgs := None;
      }
      units, results, geoDf := None, None, None;
    }

    /** `loopImgChat` (without the data-frame output): ask the model about every image. */
    method LoopImgChat(ollama: ChatOracle, model: string, system: Option<string>, prompt: Option<string>,
                       temp: real, topK: real, topP: real, saveImg: bool)
      returns (r: Result<ImgChatLog, DatasetError>)
      modifies this
      ensures r == LoopImgChatSpec(imgs, base64Imgs, ollama, model, system, prompt, temp, topK, topP, saveImg)
      ensures results == if r.Ok? then Some(FromLoopImgChat(r.value)) else old(results)
      ensures imgs == old(imgs) && base64Imgs == old(base64Imgs)
      ensures units == old(units) && geoDf == old(geoDf)
    {
      if CheckModel(model).Err? {
        return Err(UnsupportedModel(model));
      }
      if imgs.None? {
        return Err(NoImages);
      }
      var images := imgs.value;
      var b64 := base64Imgs;
      var responses: seq<Response> := [];
      var img: seq<string> := [];
      var saved: Option<seq<string>> := None;
      for i := 0 to |images|
        invariant unchanged(this)
        invariant |responses| == i && img == images[..i]
        invariant i > 0 ==> b64.Some? && |b64.value| >= i && b64.value != [] && prompt.Some?
        invariant forall k :: 0 <= k < i ==>
          responses[k] == Chat(ollama, model, system, prompt.value, b64.value[k], temp, topK, topP)
        invariant saved == if saveImg && i > 0 then Some(b64.value[..i]) else None
      {
        if b64.None? || i >= |b64.value| {
          return Err(MissingBase64Images);
        }
        var encoded := b64.value[i];
        var reply := LlmChat(ollama, model, system, prompt, Some([encoded]), temp, topK, topP);
        if reply.Err? {
          return Err(reply.error);
        }
        if saveImg {
          if i == 0 {
            saved := Some([]);
          }
          saved := Some(saved.value + [encoded]);
          assert saved.value == b64.value[..i + 1];
        }
        responses := responses + [reply.value.response];
        img := img + [images[i]];
      }
      assert img == images;
      var log := ImgChatLog(responses, img, saved);
      if images != [] {
        var expected := LoopImgChatSpec(imgs, base64Imgs, ollama, model, system, prompt, temp, topK, topP, saveImg);
        assert expected.Ok? && expected.value.responses == responses;
      }
      results := Some(FromLoopImgChat(log));
      return Ok(log);
    }

    /**
     * `bbox2Buildings` (without `random_sample`): `elements` is the Overpass
     * response and `area` shapely's polygon area, used for OpenStreetMap;
     * `globalML` is what `getGlobalMLBuilding` returns for Bing.
     */
    method Bbox2Buildings(source: string, epsg: Option<int>, minArea: real, maxArea: Option<real>,
                          elements: seq<GeoUtils.Element>, area: seq<(real, real)> -> real,
                          globalML: Option<Frame>)
      returns (r: Result<Message, DatasetError>)
      modifies this
      ensures var (expected, stored) := Bbox2BuildingsSpec(source, epsg, minArea, maxArea, elements, area, globalML);
        r == expected && units == (if stored.Some? then stored else old(units))
      ensures imgs == old(imgs) && base64Imgs == old(base64Imgs)
      ensures results == old(results) && geoDf == old(geoDf)
    {
      if source != "osm" && source != "bing" {
        return Err(UnsupportedSource(source));
      }
      var buildings: Option<Frame>;
      if source == "osm" {
        buildings := GeoUtils.FilterBuildings(elements, area, minArea, maxArea);
      } else {
        if epsg.None? {
          return Err(MissingEpsg);
        }
        buildings := globalML;
      }
      if buildings.None? || |buildings.value| == 0 {
        return Ok(NoneFound(source));
      }
      units := buildings;
      return Ok(Found(|buildings.value|));
    }

    /** `to_gdf(output)`. */
    method ToGdf(output: bool) returns (r: GdfOutcome)
      modifies this
      ensures old(results).None? ==> r == NotRunYet && geoDf == old(geoDf)
      ensures old(results).Some? && old(results).value.FromLoopImgChat? ==> r == NotFromLoopUnitChat && geoDf == old(geoDf)
      ensures old(results).Some? && old(results).value.FromLoopUnitChat? ==>
        && geoDf == Some(GeoTable(old(results).value.units, ImageColumnsOf(old(results).value.base64)))
        && r == Built(if output then geoDf else None)
      ensures imgs == old(imgs) && base64Imgs == old(base64Imgs)
      ensures units == old(units) && results == old(results)
    {
      if results.None? {
        return NotRunYet;
      }
      match results.value
      case FromLoopImgChat(_) =>
        return NotFromLoopUnitChat;
      case FromLoopUnitChat(log, base64) =>
        geoDf := Some(GeoTable(log, ImageColumnsOf(base64)));
        if output {
          return Built(geoDf);
        }
        return Built(None);
    }
  }
}
