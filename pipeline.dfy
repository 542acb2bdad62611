/**
 * The entities the algorithm handles and the reference definitions of what it
 * emits: per feature (isolate, clip, recognize, stamp), per raster (match the
 * index's ids against the feature source) and per list of map layers.
 *
 * The host's collaborators are values: the spatial index is a function from a
 * raster extent to the ids it intersects, the 8-bit translation a function
 * telling whether it succeeded, and clip-then-OCR a function of the clipped
 * image (the translated page cut by the workspace's geometries).
 */
module Pipeline {

  import Text

  datatype Point = Point(x: real, y: real)

  datatype Geometry = MultiPolygon(polygons: seq<seq<Point>>)

  datatype AttrValue = Null | Integer(i: int) | Real(r: real) | Str(s: string)

  /** A polygon feature: its id, its geometry and its attribute table row. */
  datatype Feature = Feature(id: int, geometry: Geometry, attrs: map<string, AttrValue>)

  datatype Extent = Extent(xMin: real, yMin: real, xMax: real, yMax: real)

  /** A layer of the map canvas; `kind` is the host's layer type. */
  datatype MapLayer = MapLayer(name: string, kind: int, extent: Extent, source: string)

  /** The host's layer type of a raster layer. */
  const RASTER_LAYER_KIND := 1

  /** The OCR language handed to Tesseract. */
  const LANGUAGE := "pol"

  /** Contents of the 8-bit page file: nothing yet, or the first band of a raster. */
  datatype Page = NoPage | Translated(raster: MapLayer)

  /** The clip output: the page cut by the workspace's geometries as cutline.
      The clip is taken to succeed on every page, NoPage included; the source
      instead reuses a stale clip file, or raises, when the warp fails. */
  datatype ClippedImage = ClippedImage(page: Page, cutline: seq<Geometry>)

  /** Bounding-box query of the spatial index built over the feature source. */
  type SpatialIndex = Extent -> seq<int>

  /** The foreign collaborators: GDAL's 8-bit translation and clip-then-OCR. */
  datatype Engine = Engine(translate: MapLayer -> bool, recognize: (ClippedImage, string, string) -> string)

  /** The per-run options read by the per-feature step. */
  datatype Settings = Settings(destField: string, removeComma: bool, config: string)

  /** Everything a raster's processing reads and does not change. */
  datatype Context = Context(source: seq<Feature>, index: SpatialIndex, settings: Settings, engine: Engine)

  /**
   * The state a run changes: the page file, the one-feature workspace layer,
   * the output sink and the `actual` counter.
   */
  datatype RunState = RunState(page: Page, workspace: seq<Feature>, sink: seq<Feature>, actual: nat)

  function Geometries(features: seq<Feature>): (gs: seq<Geometry>)
    ensures |gs| == |features|
    ensures forall i :: 0 <= i < |features| ==> gs[i] == features[i].geometry
  {
    seq(|features|, i requires 0 <= i < |features| => features[i].geometry)
  }

  /** The provider's `deleteFeatures([fid])` on the workspace layer. */
  function DeleteFeatures(features: seq<Feature>, fid: int): (r: seq<Feature>)
    ensures forall f :: f in r <==> f in features && f.id != fid
    ensures |r| <= |features|
  {
    if features == [] then []
    else if features[0].id == fid then DeleteFeatures(features[1..], fid)
    else [features[0]] + DeleteFeatures(features[1..], fid)
  }

  /** A list whose every feature is in rest is empty when rest is. */
  lemma ContainedInEmpty(features: seq<Feature>, rest: seq<Feature>)
    requires forall f :: f in features ==> f in rest
    ensures rest == [] ==> features == []
  {
    if features != [] {
      assert features[0] in rest;
    }
  }

  /** `feat[dest_field] = text`: the feature with only the destination field replaced. */
  function Stamp(f: Feature, field: string, text: string): (r: Feature)
    ensures r.id == f.id && r.geometry == f.geometry
    ensures field in r.attrs && r.attrs[field] == Str(text)
    ensures r.attrs.Keys == f.attrs.Keys + {field}
    ensures forall k :: k in f.attrs && k != field ==> r.attrs[k] == f.attrs[k]
  {
    f.(attrs := f.attrs[field := Str(text)])
  }

  /** The text written for feature f when the workspace holds exactly f. */
  function RecognizedText(page: Page, f: Feature, s: Settings, e: Engine): string
  {
    Text.PostProcess(s.removeComma, e.recognize(ClippedImage(page, [f.geometry]), LANGUAGE, s.config))
  }

  /** The record the sink receives for feature f. */
  function Emitted(page: Page, f: Feature, s: Settings, e: Engine): (r: Feature)
    ensures r.id == f.id && r.geometry == f.geometry
    ensures s.destField in r.attrs && r.attrs[s.destField] == Str(RecognizedText(page, f, s, e))
    ensures forall k :: k in f.attrs && k != s.destField ==> k in r.attrs && r.attrs[k] == f.attrs[k]
  {
    Stamp(f, s.destField, RecognizedText(page, f, s, e))
  }

  /** Position of the first feature with the given id, or |features| when there is none. */
  function FirstIndex(features: seq<Feature>, id: int): (k: nat)
    ensures k <= |features|
    ensures forall j :: 0 <= j < k ==> features[j].id != id
    ensures k < |features| ==> features[k].id == id
  {
    if features == [] || features[0].id == id then 0 else 1 + FirstIndex(features[1..], id)
  }

  /** The feature processed for one id: the first in source order with that id, if any. */
  function MatchOf(features: seq<Feature>, id: int): (m: seq<Feature>)
    ensures |m| <= 1
    ensures m == [] <==> forall f :: f in features ==> f.id != id
    ensures m != [] ==> m[0] == features[FirstIndex(features, id)]
  {
    var k := FirstIndex(features, id);
    if k < |features| then [features[k]] else []
  }

  /** The features processed, in order, for a list of ids. */
  function Matches(features: seq<Feature>, ids: seq<int>): (ms: seq<Feature>)
    ensures |ms| <= |ids|
  {
    if ids == [] then [] else MatchOf(features, ids[0]) + Matches(features, ids[1..])
  }

  /** Only source features are processed, each for an id the index returned, first in source order for that id. */
  lemma {:induction false} MatchesFromSource(features: seq<Feature>, ids: seq<int>, f: Feature)
    requires f in Matches(features, ids)
    ensures f in features && f.id in ids
    ensures features[FirstIndex(features, f.id)] == f
  {
    if f !in MatchOf(features, ids[0]) {
      MatchesFromSource(features, ids[1..], f);
    }
  }

  /** The records emitted for the matched features, all clipped from one page. */
  function EmitAll(ms: seq<Feature>, page: Page, s: Settings, e: Engine): (out: seq<Feature>)
    ensures |out| == |ms|
  {
    if ms == [] then [] else [Emitted(page, ms[0], s, e)] + EmitAll(ms[1..], page, s, e)
  }

  /** The i-th record emitted is the i-th matched feature, stamped with its recognized text. */
  lemma {:induction false} EmitAllAt(ms: seq<Feature>, page: Page, s: Settings, e: Engine, i: nat)
    requires i < |ms|
    ensures EmitAll(ms, page, s, e)[i] == Emitted(page, ms[i], s, e)
  {
    if i > 0 {
      EmitAllAt(ms[1..], page, s, e, i - 1);
    }
  }

  lemma EmitAllCons(m: seq<Feature>, rest: seq<Feature>, page: Page, s: Settings, e: Engine)
    requires |m| <= 1
    ensures EmitAll(m + rest, page, s, e) == EmitAll(m, page, s, e) + EmitAll(rest, page, s, e)
  {
    if m == [] {
      assert m + rest == rest;
    } else {
      assert (m + rest)[1..] == rest;
      assert m[1..] == [];
    }
  }

  /** The workspace after processing ms in turn: the last of them, or unchanged. */
  function WorkspaceAfter(workspace: seq<Feature>, ms: seq<Feature>): seq<Feature>
  {
    if ms == [] then workspace else [ms[|ms| - 1]]
  }

  /** One turn of the id loop: process the first feature with this id, if any. */
  function IdTurn(st: RunState, id: int, ctx: Context): (r: RunState)
    ensures r.page == st.page
  {
    var k := FirstIndex(ctx.source, id);
    if k < |ctx.source| then
      var f := ctx.source[k];
      st.(workspace := [f], sink := st.sink + [Emitted(st.page, f, ctx.settings, ctx.engine)], actual := st.actual + 1)
    else st
  }

  /** The id loop over the ids still to come. */
  function IdTurns(st: RunState, ids: seq<int>, ctx: Context): RunState
    decreases |ids|
  {
    if ids == [] then st else IdTurns(IdTurn(st, ids[0], ctx), ids[1..], ctx)
  }

  /** The effect of processing the features ms in turn, as one state change. */
  function ProcessAll(st: RunState, ms: seq<Feature>, ctx: Context): RunState
  {
    st.(workspace := WorkspaceAfter(st.workspace, ms),
        sink := st.sink + EmitAll(ms, st.page, ctx.settings, ctx.engine),
        actual := st.actual + |ms|)
  }

  /** One turn processes the match of its id, if any. */
  lemma IdTurnProcessesMatch(st: RunState, id: int, ctx: Context)
    ensures IdTurn(st, id, ctx) == ProcessAll(st, MatchOf(ctx.source, id), ctx)
  {
  }

  lemma WorkspaceAfterCons(workspace: seq<Feature>, m: seq<Feature>, rest: seq<Feature>)
    ensures WorkspaceAfter(WorkspaceAfter(workspace, m), rest) == WorkspaceAfter(workspace, m + rest)
  {
  }

  /** Processing m and then rest is processing m + rest, when m has at most one feature. */
  lemma ProcessAllCons(st: RunState, m: seq<Feature>, rest: seq<Feature>, ctx: Context)
    requires |m| <= 1
    ensures ProcessAll(ProcessAll(st, m, ctx), rest, ctx) == ProcessAll(st, m + rest, ctx)
  {
    var e1 := EmitAll(m, st.page, ctx.settings, ctx.engine);
    var e2 := EmitAll(rest, st.page, ctx.settings, ctx.engine);
    EmitAllCons(m, rest, st.page, ctx.settings, ctx.engine);
    assert (st.sink + e1) + e2 == st.sink + (e1 + e2);
    WorkspaceAfterCons(st.workspace, m, rest);
  }

  /**
   * The id loop processes exactly the matched features: the workspace ends
   * holding the last of them, the sink gains one stamped record per match in
   * order, and the counter grows by the number of matches.
   */
  lemma {:induction false} IdTurnsProcessMatches(st: RunState, ids: seq<int>, ctx: Context)
    ensures IdTurns(st, ids, ctx) == ProcessAll(st, Matches(ctx.source, ids), ctx)
    decreases |ids|
  {
    if ids != [] {
      var m := MatchOf(ctx.source, ids[0]);
      var rest := Matches(ctx.source, ids[1..]);
      IdTurnProcessesMatch(st, ids[0], ctx);
      IdTurnsProcessMatches(IdTurn(st, ids[0], ctx), ids[1..], ctx);
      ProcessAllCons(st, m, rest, ctx);
    } else {
      assert EmitAll([], st.page, ctx.settings, ctx.engine) == [];
      assert st.sink + [] == st.sink;
    }
  }

  /** The page the features of a raster are clipped from. */
  function PageFor(page: Page, raster: MapLayer, e: Engine): (p: Page)
    ensures e.translate(raster) ==> p == Translated(raster)
    ensures !e.translate(raster) ==> p == page
  {
    if e.translate(raster) then Translated(raster) else page
  }

  /** One raster: translate it when the index meets any feature, then run the id loop. */
  function RasterStep(st: RunState, raster: MapLayer, ctx: Context): RunState
  {
    var ids := ctx.index(raster.extent);
    if ids == [] then st
    else IdTurns(st.(page := PageFor(st.page, raster, ctx.engine)), ids, ctx)
  }

  /**
   * A raster whose extent meets any feature processes exactly the matched
   * features, on the page chosen by the translation: a failed translation
   * only leaves the page as it was and still lets every match be processed.
   */
  lemma RasterStepProcessesMatches(st: RunState, raster: MapLayer, ctx: Context)
    requires ctx.index(raster.extent) != []
    ensures RasterStep(st, raster, ctx)
            == ProcessAll(st.(page := PageFor(st.page, raster, ctx.engine)),
                          Matches(ctx.source, ctx.index(raster.extent)), ctx)
  {
    IdTurnsProcessMatches(st.(page := PageFor(st.page, raster, ctx.engine)), ctx.index(raster.extent), ctx);
  }

  /**
   * A raster appends one record per id that matched, at most one per id the
   * index returned, the counter follows the sink, and a workspace holding at
   * most one feature still does.
   */
  lemma RasterStepWithinIds(st: RunState, raster: MapLayer, ctx: Context)
    ensures var r := RasterStep(st, raster, ctx);
            && |st.sink| <= |r.sink| <= |st.sink| + |ctx.index(raster.extent)|
            && r.sink[..|st.sink|] == st.sink
            && r.actual - |r.sink| == st.actual - |st.sink|
            && (|st.workspace| <= 1 ==> |r.workspace| <= 1)
  {
    var ids := ctx.index(raster.extent);
    if ids != [] {
      IdTurnsProcessMatches(st.(page := PageFor(st.page, raster, ctx.engine)), ids, ctx);
    }
  }

  /**
   * Each record a raster appends is a source feature the index returned for
   * that raster, the first in source order with its id, stamped with the text
   * recognized on the raster's page.
   */
  lemma RasterRecord(st: RunState, raster: MapLayer, ctx: Context, i: nat)
    requires |st.sink| <= i < |RasterStep(st, raster, ctx).sink|
    ensures var page := PageFor(st.page, raster, ctx.engine);
            exists f :: f in ctx.source && f.id in ctx.index(raster.extent)
                        && ctx.source[FirstIndex(ctx.source, f.id)] == f
                        && RasterStep(st, raster, ctx).sink[i] == Emitted(page, f, ctx.settings, ctx.engine)
  {
    var ids := ctx.index(raster.extent);
    var page := PageFor(st.page, raster, ctx.engine);
    var ms := Matches(ctx.source, ids);
    IdTurnsProcessMatches(st.(page := page), ids, ctx);
    var out := RasterStep(st, raster, ctx).sink;
    assert out == st.sink + EmitAll(ms, page, ctx.settings, ctx.engine);
    var f := ms[i - |st.sink|];
    EmitAllAt(ms, page, ctx.settings, ctx.engine, i - |st.sink|);
    assert out[i] == Emitted(page, f, ctx.settings, ctx.engine);
    MatchesFromSource(ctx.source, ids, f);
  }

  predicate IsRaster(layer: MapLayer) {
    layer.kind == RASTER_LAYER_KIND
  }

  /** The list `n` of ids over the raster layers: the concatenation of their index queries. */
  function RasterIds(index: SpatialIndex, layers: seq<MapLayer>): seq<int>
  {
    if layers == [] then []
    else (if IsRaster(layers[0]) then index(layers[0].extent) else []) + RasterIds(index, layers[1..])
  }

  /** The layers in order, processing the raster ones and skipping the rest. */
  function LayersStep(st: RunState, layers: seq<MapLayer>, ctx: Context): RunState
    decreases |layers|
  {
    if layers == [] then st
    else LayersStep(if IsRaster(layers[0]) then RasterStep(st, layers[0], ctx) else st, layers[1..], ctx)
  }

  lemma {:induction false} LayersWithinWorkload(st: RunState, layers: seq<MapLayer>, ctx: Context)
    ensures var r := LayersStep(st, layers, ctx);
            && |st.sink| <= |r.sink| <= |st.sink| + |RasterIds(ctx.index, layers)|
            && r.sink[..|st.sink|] == st.sink
            && r.actual - |r.sink| == st.actual - |st.sink|
            && (|st.workspace| <= 1 ==> |r.workspace| <= 1)
    decreases |layers|
  {
    if layers != [] {
      var next := if IsRaster(layers[0]) then RasterStep(st, layers[0], ctx) else st;
      if IsRaster(layers[0]) {
        RasterStepWithinIds(st, layers[0], ctx);
      }
      LayersWithinWorkload(next, layers[1..], ctx);
    }
  }

  /** Taking one more layer extends `n` by that layer's ids when it is a raster. */
  lemma {:induction false} RasterIdsSnoc(index: SpatialIndex, layers: seq<MapLayer>, layer: MapLayer)
    ensures RasterIds(index, layers + [layer])
            == RasterIds(index, layers) + (if IsRaster(layer) then index(layer.extent) else [])
  {
    if layers != [] {
      assert (layers + [layer])[1..] == layers[1..] + [layer];
      RasterIdsSnoc(index, layers[1..], layer);
    } else {
      assert [layer][1..] == [];
    }
  }

  /** Taking one more layer runs it after the others, on the state they left. */
  lemma {:induction false} LayersStepSnoc(st: RunState, layers: seq<MapLayer>, layer: MapLayer, ctx: Context)
    ensures var before := LayersStep(st, layers, ctx);
            LayersStep(st, layers + [layer], ctx)
              == if IsRaster(layer) then RasterStep(before, layer, ctx) else before
    decreases |layers|
  {
    if layers != [] {
      assert (layers + [layer])[1..] == layers[1..] + [layer];
      var next := if IsRaster(layers[0]) then RasterStep(st, layers[0], ctx) else st;
      LayersStepSnoc(next, layers[1..], layer, ctx);
    } else {
      assert [layer][1..] == [];
    }
  }

  lemma {:induction false} RasterIdsPrefix(index: SpatialIndex, layers: seq<MapLayer>, k: nat)
    requires k <= |layers|
    ensures |RasterIds(index, layers[..k])| <= |RasterIds(index, layers)|
  {
    if k > 0 {
      RasterIdsPrefix(index, layers[1..], k - 1);
      assert layers[..k][1..] == layers[1..][..k - 1];
    }
  }
}
