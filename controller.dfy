/**
 * The run controller: parameter checks, the workload count, the choice between
 * one explicit raster and every raster layer of the map canvas, cancellation,
 * and the summary the run returns. `Run` is the reference definition that the
 * imperative `OcrAlgorithm.ProcessAlgorithm` is proved against.
 */
module Controller {

  import opened Wrappers
  import Text
  import opened Pipeline

  const INPUT := "INPUT"
  const RASTER_INPUT := "RASTER INPUT"

  /** The algorithm's parameters as the host resolves them (a missing layer is None). */
  datatype Parameters = Parameters(
    input: Option<seq<Feature>>,
    raster: Option<MapLayer>,
    allRasters: bool,
    field: string,
    psm: Text.PageSegMode,
    oem: Text.EngineMode,
    removeComma: bool)

  /**
   * The host as the run sees it: the map canvas layers in order, the spatial index
   * built over the input features, the foreign collaborators, and the answer of
   * the n-th cancellation poll.
   */
  datatype Host = Host(canvas: seq<MapLayer>, index: SpatialIndex, engine: Engine, isCanceled: nat -> bool)

  /** The exceptions a run can end with: the host's invalid-source error, or a method called on None. */
  datatype AlgorithmError = InvalidSource(parameter: string) | NoneAttribute(name: string)

  /** A completed run: the state it leaves, `total`, and the 'Recognized' value. */
  datatype Outcome = Outcome(state: RunState, total: nat, recognized: string)

  /**
   * The parameter checks in the order they take effect in the source: the source
   * is dereferenced to create the sink before its None check, so a missing source
   * ends the run with an attribute error on None.
   */
  function ValidateAsWritten(p: Parameters): (r: Result<(), AlgorithmError>)
    ensures p.input.None? ==> r == Failure(NoneAttribute("fields"))
    ensures p.input.Some? ==> (r.Failure? <==> p.raster.None? && !p.allRasters)
  {
    if p.input.None? then Failure(NoneAttribute("fields"))
    else if p.raster.None? && !p.allRasters then Failure(InvalidSource(RASTER_INPUT))
    else Success(())
  }

  /** The invalid-input error the source's check is written to raise is never raised. */
  lemma InputCheckNeverFires(p: Parameters)
    requires p.input.None?
    ensures ValidateAsWritten(p).Failure?
    ensures ValidateAsWritten(p) != Failure(InvalidSource(INPUT))
  {
  }

  /** The intended checks: a missing source, then a missing raster outside all-rasters mode. */
  function Validate(p: Parameters): (r: Result<(), AlgorithmError>)
    ensures p.input.None? ==> r == Failure(InvalidSource(INPUT))
    ensures p.input.Some? && p.raster.None? && !p.allRasters ==> r == Failure(InvalidSource(RASTER_INPUT))
    ensures r.Success? <==> p.input.Some? && (p.raster.Some? || p.allRasters)
  {
    if p.input.None? then Failure(InvalidSource(INPUT))
    else if p.raster.None? && !p.allRasters then Failure(InvalidSource(RASTER_INPUT))
    else Success(())
  }

  /** The two checks fail on the same parameters; only the error raised for a missing source differs. */
  lemma ValidateAgreesOnFailure(p: Parameters)
    ensures Validate(p).Failure? <==> ValidateAsWritten(p).Failure?
    ensures p.input.Some? ==> Validate(p) == ValidateAsWritten(p)
  {
  }

  /** The first poll position at or after i that reports cancellation, or count. */
  function CancelFrom(i: nat, count: nat, isCanceled: nat -> bool): (k: nat)
    requires i <= count
    ensures i <= k <= count
    ensures forall j :: i <= j < k ==> !isCanceled(j)
    ensures k < count ==> isCanceled(k)
    decreases count - i
  {
    if i == count || isCanceled(i) then i else CancelFrom(i + 1, count, isCanceled)
  }

  /** How many canvas layers are visited before the loop sees a cancellation. */
  function CancelPoint(count: nat, isCanceled: nat -> bool): (k: nat)
    ensures k <= count
    ensures forall j :: 0 <= j < k ==> !isCanceled(j)
    ensures k < count ==> isCanceled(k)
  {
    CancelFrom(0, count, isCanceled)
  }

  /** `total`: the length of `n`, the ids of one raster or of every raster layer. */
  function Workload(p: Parameters, host: Host): nat
  {
    if !p.allRasters && p.raster.Some? then |host.index(p.raster.value.extent)|
    else |RasterIds(host.index, host.canvas)|
  }

  function RunSettings(p: Parameters): (s: Settings)
    ensures s.destField == p.field && s.removeComma == p.removeComma
    ensures s.config == Text.ConfigString(p.psm, p.oem)
  {
    Settings(p.field, p.removeComma, Text.ConfigString(p.psm, p.oem))
  }

  /** The layers the all-rasters loop visits: those before the first cancellation. */
  function Visited(host: Host): (layers: seq<MapLayer>)
    ensures layers <= host.canvas
    ensures forall j :: 0 <= j < |layers| ==> !host.isCanceled(j)
    ensures |layers| < |host.canvas| ==> host.isCanceled(|layers|)
  {
    host.canvas[..CancelPoint(|host.canvas|, host.isCanceled)]
  }

  /**
   * The work of a run that passed the checks. It starts a new sink, an empty
   * workspace layer and a zero counter; the page file of an earlier run stays
   * until a translation overwrites it.
   */
  function Recognition(page: Page, p: Parameters, host: Host): RunState
    requires p.input.Some? && (p.raster.Some? || p.allRasters)
  {
    var ctx := Context(p.input.value, host.index, RunSettings(p), host.engine);
    var start := RunState(page, [], [], 0);
    if !p.allRasters then RasterStep(start, p.raster.value, ctx)
    else LayersStep(start, Visited(host), ctx)
  }

  /** What one run does, starting from the given state. */
  function Run(st: RunState, p: Parameters, host: Host): (r: Result<Outcome, AlgorithmError>)
    ensures r.Failure? <==> p.input.None? || (p.raster.None? && !p.allRasters)
    ensures r.Failure? ==> r.error == Validate(p).error
    ensures r.Success? ==> r.value.total == Workload(p, host)
    ensures r.Success? ==> r.value.recognized == Text.Decimal(r.value.state.actual)
  {
    match Validate(p)
    case Failure(e) => Failure(e)
    case Success(_) =>
      var done := Recognition(st.page, p, host);
      Success(Outcome(done, Workload(p, host), Text.Decimal(done.actual)))
  }

  /**
   * `actual` counts the records the sink received, and never exceeds the
   * `total` the run announced (so the reported progress stays within 100);
   * the workspace layer ends holding at most one feature.
   */
  lemma RunWithinWorkload(st: RunState, p: Parameters, host: Host)
    requires Run(st, p, host).Success?
    ensures var o := Run(st, p, host).value;
            o.state.actual == |o.state.sink| <= o.total
    ensures |Run(st, p, host).value.state.workspace| <= 1
  {
    var ctx := Context(p.input.value, host.index, RunSettings(p), host.engine);
    var start := RunState(st.page, [], [], 0);
    if !p.allRasters {
      RasterStepWithinIds(start, p.raster.value, ctx);
    } else {
      var k := CancelPoint(|host.canvas|, host.isCanceled);
      LayersWithinWorkload(start, host.canvas[..k], ctx);
      RasterIdsPrefix(host.index, host.canvas, k);
    }
  }

  /** The 'Recognized' value reads back as the number of records in the sink. */
  lemma RecognizedIsCount(st: RunState, p: Parameters, host: Host)
    requires Run(st, p, host).Success?
    ensures Text.ParseDecimal(Run(st, p, host).value.recognized) == |Run(st, p, host).value.state.sink|
  {
    RunWithinWorkload(st, p, host);
    Text.DecimalRoundTrip(Run(st, p, host).value.state.actual);
  }

  /** A cancellation seen at the first poll of the all-rasters loop stops the run before any raster. */
  lemma CancelledAtFirstPoll(st: RunState, p: Parameters, host: Host)
    requires p.input.Some? && p.allRasters
    requires |host.canvas| > 0 && host.isCanceled(0)
    ensures Run(st, p, host).Success?
    ensures Run(st, p, host).value.state == RunState(st.page, [], [], 0)
    ensures Run(st, p, host).value.recognized == "0"
  {
  }

  /**
   * One raster over three features with ids 1, 2, 3 whose extent meets 1 and 2:
   * `total` is 2 and the sink receives features 1 and 2, stamped, in that order;
   * the workspace is left holding feature 2.
   */
  lemma ThreeFeaturesOneRaster(st: RunState, p: Parameters, host: Host, f1: Feature, f2: Feature, f3: Feature)
    requires p.input == Some([f1, f2, f3]) && f1.id == 1 && f2.id == 2 && f3.id == 3
    requires p.raster.Some? && !p.allRasters
    requires host.index(p.raster.value.extent) == [1, 2]
    ensures Run(st, p, host).Success?
    ensures Run(st, p, host).value.total == 2
    ensures var page := PageFor(st.page, p.raster.value, host.engine);
            Run(st, p, host).value.state
              == RunState(page, [f2],
                          [Emitted(page, f1, RunSettings(p), host.engine), Emitted(page, f2, RunSettings(p), host.engine)],
                          2)
    ensures Run(st, p, host).value.recognized == "2"
  {
    var fs := [f1, f2, f3];
    assert FirstIndex(fs, 1) == 0;
    assert FirstIndex(fs[1..], 2) == 0;
    assert FirstIndex(fs, 2) == 1;
    assert [1, 2][1..] == [2];
    assert [2][1..] == [];
    assert Text.Decimal(2) == "2";
  }

  /** A raster whose extent meets only the single feature of the source, translated successfully. */
  lemma SingleFeatureRaster(st: RunState, r: MapLayer, ctx: Context, f: Feature)
    requires ctx.source == [f] && ctx.index(r.extent) == [f.id] && ctx.engine.translate(r)
    ensures RasterStep(st, r, ctx)
              == RunState(Translated(r), [f], st.sink + [Emitted(Translated(r), f, ctx.settings, ctx.engine)], st.actual + 1)
  {
    var st' := st.(page := Translated(r));
    assert FirstIndex([f], f.id) == 0;
    assert [f.id][1..] == [];
    assert RasterStep(st, r, ctx) == IdTurns(IdTurn(st', f.id, ctx), [], ctx);
  }

  /** A raster whose translation fails still has its feature processed, clipped from the page as it was. */
  lemma FailedTranslationStillEmits(st: RunState, r: MapLayer, ctx: Context, f: Feature)
    requires ctx.source == [f] && ctx.index(r.extent) == [f.id] && !ctx.engine.translate(r)
    ensures RasterStep(st, r, ctx).sink == st.sink + [Emitted(st.page, f, ctx.settings, ctx.engine)]
    ensures RasterStep(st, r, ctx).page == st.page
  {
    assert FirstIndex([f], f.id) == 0;
    assert [f.id][1..] == [];
    assert PageFor(st.page, r, ctx.engine) == st.page;
    assert RasterStep(st, r, ctx) == IdTurns(IdTurn(st, f.id, ctx), [], ctx);
  }

  /**
   * In all-rasters mode a feature met by two raster layers is emitted twice,
   * each record clipped from its own raster's page when both translations succeed.
   */
  lemma EmittedOncePerRaster(st: RunState, p: Parameters, host: Host, f: Feature, r1: MapLayer, r2: MapLayer)
    requires p.input == Some([f]) && p.allRasters
    requires host.canvas == [r1, r2] && IsRaster(r1) && IsRaster(r2)
    requires !host.isCanceled(0) && !host.isCanceled(1)
    requires host.index(r1.extent) == [f.id] && host.index(r2.extent) == [f.id]
    requires host.engine.translate(r1) && host.engine.translate(r2)
    ensures Run(st, p, host).Success?
    ensures Run(st, p, host).value.state.sink
              == [Emitted(Translated(r1), f, RunSettings(p), host.engine),
                  Emitted(Translated(r2), f, RunSettings(p), host.engine)]
  {
    assert CancelPoint(|host.canvas|, host.isCanceled) == 2;
    assert Visited(host) == [r1, r2];
    var ctx := Context([f], host.index, RunSettings(p), host.engine);
    var start := RunState(st.page, [], [], 0);
    SingleFeatureRaster(start, r1, ctx, f);
    var s1 := RasterStep(start, r1, ctx);
    SingleFeatureRaster(s1, r2, ctx, f);
    var s2 := RasterStep(s1, r2, ctx);
    assert [r1, r2][1..] == [r2];
    assert [r2][1..] == [];
    assert LayersStep(s1, [r2], ctx) == LayersStep(s2, [], ctx) == s2;
    assert LayersStep(start, [r1, r2], ctx) == s2;
  }
}
