/**
 * The processing algorithm object. Its fields are those the source sets on
 * `self` during a run, plus the two temporary artifacts its steps overwrite:
 * the 8-bit page file and the one-feature workspace layer. Each method is
 * proved against the reference definitions of Pipeline and Controller.
 */
module Algorithm {

  import opened Wrappers
  import Text
  import opened Pipeline
  import opened Controller

  class OcrAlgorithm {
    var source: seq<Feature>
    var index: SpatialIndex
    var destField: string
    var removeComma: bool
    var config: string
    var sink: seq<Feature>
    var total: int
    var actual: nat
    /** Features of the temporary one-feature shapefile layer. */
    var workspace: seq<Feature>
    /** Contents of the temporary 8-bit page file. */
    var page: Page

    constructor ()
      ensures source == [] && sink == [] && workspace == [] && page == NoPage
      ensures total == 0 && actual == 0
    {
      source, sink, workspace, page := [], [], [], NoPage;
      index := (e: Extent) => [];
      destField, removeComma, config := "", true, "";
      total, actual := 0, 0;
    }

    ghost function Settings(): Pipeline.Settings
      reads this`destField, this`removeComma, this`config
    {
      Pipeline.Settings(destField, removeComma, config)
    }

    ghost function Ctx(engine: Engine): Context
      reads this`source, this`index, this`destField, this`removeComma, this`config
    {
      Context(source, index, Settings(), engine)
    }

    /** The part of the object a run changes, as Pipeline's reference definitions see it. */
    ghost function State(): RunState
      reads this`page, this`workspace, this`sink, this`actual
    {
      RunState(page, workspace, sink, actual)
    }

    /** Empties the workspace layer feature by feature, then adds feat to it. */
    method IsolateFeature(feat: Feature)
      modifies this`workspace
      ensures workspace == [feat]
    {
      var held := workspace;
      var i := 0;
      while i < |held|
        invariant 0 <= i <= |held|
        invariant forall f :: f in workspace ==> f in held[i..]
      {
        assert held[i..] == [held[i]] + held[i + 1..];
        workspace := DeleteFeatures(workspace, held[i].id);
        i := i + 1;
      }
      assert held[i..] == [];
      ContainedInEmpty(workspace, held[i..]);
      workspace := workspace + [feat];
    }

    /**
     * Processes one feature: isolates it, clips the page by the workspace,
     * recognizes and cleans the text, stamps it, emits the record and
     * advances the counter. Returns the progress percentage reported.
     */
    method OnThisFeature(feat: Feature, engine: Engine) returns (progress: real)
      requires total != 0
      modifies this`workspace, this`sink, this`actual
      ensures workspace == [feat]
      ensures sink == old(sink) + [Emitted(page, feat, Settings(), engine)]
      ensures actual == old(actual) + 1
      ensures 0 <= old(actual) < total ==> 0.0 < progress <= 100.0
    {
      IsolateFeature(feat);
      assert Geometries(workspace) == [feat.geometry];
      var image := ClippedImage(page, Geometries(workspace));
      var text := engine.recognize(image, LANGUAGE, config);
      if removeComma {
        text := Text.StripTrailingComma(text);
      }
      assert text == RecognizedText(page, feat, Settings(), engine);
      var stamped := Stamp(feat, destField, text);
      sink := sink + [stamped];
      actual := actual + 1;
      progress := (actual as real) / (total as real) * 100.0;
    }

    /**
     * One turn of the id loop: scans the source in order and processes the
     * first feature whose id equals id, if there is one.
     */
    method OnThisId(id: int, engine: Engine)
      requires total != 0
      modifies this`workspace, this`sink, this`actual
      ensures State() == IdTurn(old(State()), id, Ctx(engine))
    {
      var j := 0;
      while j < |source|
        invariant 0 <= j <= |source|
        invariant forall k :: 0 <= k < j ==> source[k].id != id
        invariant workspace == old(workspace) && sink == old(sink) && actual == old(actual)
      {
        if source[j].id == id {
          assert FirstIndex(source, id) == j;
          var _ := OnThisFeature(source[j], engine);
          return;
        }
        j := j + 1;
      }
      assert FirstIndex(source, id) == |source|;
    }

    /** The id loop of a raster: one turn of OnThisId per id the index returned. */
    method OnTheseIds(ids: seq<int>, engine: Engine)
      requires ids != [] ==> total != 0
      modifies this`workspace, this`sink, this`actual
      ensures State() == IdTurns(old(State()), ids, Ctx(engine))
    {
      var i := 0;
      while i < |ids|
        invariant 0 <= i <= |ids|
        invariant IdTurns(old(State()), ids, Ctx(engine)) == IdTurns(State(), ids[i..], Ctx(engine))
      {
        assert ids[i..][1..] == ids[i + 1..];
        OnThisId(ids[i], engine);
        i := i + 1;
      }
    }

    /**
     * Processes one raster: when the index meets any feature, translates the
     * raster to the 8-bit page and runs the id loop over the index's ids.
     */
    method OnThisRaster(raster: MapLayer, engine: Engine)
      requires index(raster.extent) != [] ==> total != 0
      modifies this`workspace, this`sink, this`actual, this`page
      ensures State() == RasterStep(old(State()), raster, Ctx(engine))
    {
      var ids := index(raster.extent);
      if ids != [] {
        var translated := engine.translate(raster);
        if translated {
          page := Translated(raster);
        }
        // on failure the page file is left as it was; the features are still processed
        OnTheseIds(ids, engine);
      }
    }

    /** The loop that builds `n`: the ids of every raster layer, concatenated. */
    method CollectRasterIds(layers: seq<MapLayer>) returns (n: seq<int>)
      ensures n == RasterIds(index, layers)
    {
      n := [];
      var i := 0;
      while i < |layers|
        invariant 0 <= i <= |layers|
        invariant n == RasterIds(index, layers[..i])
      {
        assert layers[..i + 1] == layers[..i] + [layers[i]];
        RasterIdsSnoc(index, layers[..i], layers[i]);
        if IsRaster(layers[i]) {
          n := n + index(layers[i].extent);
        }
        i := i + 1;
      }
      assert layers[..i] == layers;
    }

    /** The list `n` whose length is announced as `total`. */
    method WorkloadIds(p: Parameters, host: Host) returns (n: seq<int>)
      requires index == host.index
      ensures !p.allRasters && p.raster.Some? ==> n == index(p.raster.value.extent)
      ensures p.allRasters || p.raster.None? ==> n == RasterIds(index, host.canvas)
      ensures |n| == Workload(p, host)
    {
      if !p.allRasters && p.raster.Some? {
        n := index(p.raster.value.extent);
      } else {
        n := CollectRasterIds(host.canvas);
      }
    }

    /** The all-rasters loop: polls cancellation, then processes each raster layer. */
    method OnAllRasters(host: Host)
      requires total == |RasterIds(index, host.canvas)|
      modifies this`workspace, this`sink, this`actual, this`page
      ensures State() == LayersStep(old(State()), Visited(host), Ctx(host.engine))
    {
      var i := 0;
      while i < |host.canvas|
        invariant 0 <= i <= |host.canvas|
        invariant forall j :: 0 <= j < i ==> !host.isCanceled(j)
        invariant State() == LayersStep(old(State()), host.canvas[..i], Ctx(host.engine))
      {
        if host.isCanceled(i) {
          break;
        }
        assert host.canvas[..i + 1] == host.canvas[..i] + [host.canvas[i]];
        LayersStepSnoc(old(State()), host.canvas[..i], host.canvas[i], Ctx(host.engine));
        if IsRaster(host.canvas[i]) {
          RasterIdsSnoc(index, host.canvas[..i], host.canvas[i]);
          RasterIdsPrefix(index, host.canvas, i + 1);
          OnThisRaster(host.canvas[i], host.engine);
        }
        i := i + 1;
      }
      assert i == CancelPoint(|host.canvas|, host.isCanceled);
    }

    /**
     * The algorithm's entry point: checks its parameters, then builds the
     * configuration string, counts the workload, and processes one raster or
     * every raster layer of the canvas until cancelled. Returns 'Recognized'.
     */
    method ProcessAlgorithm(p: Parameters, host: Host) returns (r: Result<string, AlgorithmError>)
      modifies this
      ensures var spec := Run(old(State()), p, host);
              spec.Failure? ==> r == Failure(spec.error)
      ensures var spec := Run(old(State()), p, host);
              spec.Success? ==>
                && r == Success(spec.value.recognized)
                && State() == spec.value.state
                && total == spec.value.total
                && config == Text.ConfigString(p.psm, p.oem) && index == host.index
      ensures destField == p.field && removeComma == p.removeComma
      ensures source == if p.input.Some? then p.input.value else old(source)
      ensures r.Failure? ==> page == old(page) && workspace == old(workspace)
      ensures r.Failure? ==> actual == old(actual) && total == old(total)
      ensures r.Failure? ==> config == old(config) && index == old(index)
      ensures r.Failure? ==> sink == if p.input.None? then old(sink) else []
    {
      destField := p.field;
      removeComma := p.removeComma;
      if p.input.None? {
        return Failure(InvalidSource(INPUT));
      }
      source := p.input.value;
      sink := [];
      if p.raster.None? && !p.allRasters {
        return Failure(InvalidSource(RASTER_INPUT));
      }
      var recognized := Recognize(p, host);
      r := Success(recognized);
    }

    /** The run after the checks, from an empty sink. */
    method Recognize(p: Parameters, host: Host) returns (recognized: string)
      requires p.input.Some? && (p.raster.Some? || p.allRasters)
      requires source == p.input.value && destField == p.field && removeComma == p.removeComma
      requires sink == []
      modifies this`config, this`workspace, this`index, this`total, this`actual, this`sink, this`page
      ensures State() == Recognition(old(page), p, host)
      ensures config == Text.ConfigString(p.psm, p.oem) && index == host.index
      ensures total == Workload(p, host)
      ensures recognized == Text.Decimal(actual)
    {
      config := Text.ConfigString(p.psm, p.oem);
      workspace := [];
      index := host.index;
      var n := WorkloadIds(p, host);
      total := |n|;
      actual := 0;

      ghost var ctx := Context(p.input.value, host.index, RunSettings(p), host.engine);
      assert State() == RunState(old(page), [], [], 0);
      if !p.allRasters {
        OnThisRaster(p.raster.value, host.engine);
        assert State() == RasterStep(RunState(old(page), [], [], 0), p.raster.value, ctx);
      } else {
        OnAllRasters(host);
        assert State() == LayersStep(RunState(old(page), [], [], 0), Visited(host), ctx);
      }
      recognized := Text.Decimal(actual);
    }
  }
}
