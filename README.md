# PW_OCR — a verified model of the OCR run

PW_OCR is a QGIS processing algorithm. It recognizes text from raster images
inside input polygon features and saves it as an attribute value of the output
layer. For every polygon feature that a raster covers, it does the following:

- clips the raster to the polygon;
- runs Tesseract on the clipped image;
- optionally removes one trailing comma from the text;
- writes the text into a chosen attribute field;
- emits the feature to the output sink.

The algorithm processes one chosen raster or every raster layer of the map canvas. In the
all-rasters mode it polls for cancellation before each layer. It returns the
number of recognized features as the string `'Recognized'`.

This project models that run in Dafny and proves what it computes:

- `wrappers.dfy` defines `Option` and `Result`.
- `text.dfy` (module `Text`) holds the two pure string helpers:
  - the trailing-comma clean-up (`text[-1:]` / `text[:-1]`);
  - the Tesseract configuration string `--psm <n> --oem <m>`.

  Both come with Python's `str` of a natural number and parsers that read them back.
- `pipeline.dfy` (module `Pipeline`) defines the following:
  - the entities: features, layers, the page file, and the spatial index as a
    function from a raster extent to feature ids;
  - the state a run changes (`RunState`): the page file, the one-feature
    workspace layer, the sink and the `actual` counter;
  - the reference definitions of one feature, one id (`IdTurn`), the id loop
    (`IdTurns`), one raster (`RasterStep`) and a list of canvas layers
    (`LayersStep`);
  - the independent description of the id loop by matches (`Matches`,
    `EmitAll`) and the lemma that the two agree.
- `controller.dfy` (module `Controller`) holds the run as a whole:
  - the parameter checks;
  - the workload `total`;
  - cancellation;
  - the reference definition `Run`;
  - the run-level lemmas and worked scenarios.
- `algorithm.dfy` (module `Algorithm`) holds the class `OcrAlgorithm`. It has the
  fields the source sets on `self`, plus the page file and the workspace layer.
  Its methods are imperative, like the source:
  - the delete loop over the workspace;
  - the nested id / feature scan with its `break`;
  - the loop that builds `n`;
  - the cancellable layer loop.

  Each method is proved against the reference definitions above.

The foreign collaborators are parameters:

- the spatial index (`Extent -> seq<int>`);
- GDAL's 8-bit translation, as a function telling whether it succeeded;
- clip-then-OCR, as a function of the clipped image (the page cut by the
  workspace's geometries), the language and the configuration string;
- the cancellation flag, as a function of the position of the poll.

Points worth knowing about what the code does:

- Removing a trailing comma is not idempotent. `"a,,"` becomes `"a,"` and then
  `"a"` (`Text.SecondStripChangesOnlyDoubleComma`).
- An empty recognized text is handled safely, because `text[-1:]` is `""`.
- Within a raster, features are processed in the order of the index's id list.
  Source order only decides which feature is taken for an id.
- A failed translation is only logged, and the raster's features are still
  processed. The model assumes the page file then still holds the previous
  page (`Pipeline.PageFor`; see "## Left out").

## Model

| member | source | states |
|---|---|---|
| Text.Decimal | pw_ocr.py:256 | `str(n)` of a natural number is a non-empty string of digits, without a leading zero unless it is `"0"`, and it is `"0"` exactly for 0 |
| Text.DecimalRoundTrip | pw_ocr.py:293 | reading the digits of `str(n)` back gives n |
| Text.DecimalInjective | pw_ocr.py:293 | different counts give different `'Recognized'` strings |
| Text.LastChar | pw_ocr.py:326 | `text[-1:]` is the one-character string of the last character, or `""` for the empty text |
| Text.DropLast | pw_ocr.py:326 | `text[:-1]` plus the last character is the text; the empty text stays empty |
| Text.StripTrailingComma | pw_ocr.py:326 | the result is the text or the text minus one final `,`, and it differs from the text exactly when the text ends in `,` (so `""` is safe) |
| Text.PostProcess | pw_ocr.py:324-326 | with the option off the recognized text is kept unchanged; with it on, the comma strip is applied |
| Text.SecondStripChangesOnlyDoubleComma | pw_ocr.py:326 | stripping twice equals stripping once exactly when the text does not end in `,,` |
| Text.StripOnDoubleComma | pw_ocr.py:326 | `"a,,"` becomes `"a,"` then `"a"`; `""` stays `""`; `"abc,"` becomes `"abc"` |
| Text.ConfigString | pw_ocr.py:256 | the configuration string starts with `--psm ` and has the length of the two numbers plus the fixed text |
| Text.ConfigRoundTrip | pw_ocr.py:256 | parsing the configuration string gives back exactly the segmentation mode and the engine mode |
| Pipeline.Geometries | pw_ocr.py:322 | the clip cutline is the geometries of the workspace layer's features, in order |
| Pipeline.DeleteFeatures | pw_ocr.py:318-319 | deleting by id removes exactly the features with that id and keeps every other one |
| Pipeline.Stamp | pw_ocr.py:328 | `feat[dest_field] = text` sets that field to the text; id, geometry and every other attribute are unchanged |
| Pipeline.Emitted | pw_ocr.py:322-330 | the emitted record is the feature, with the same id and geometry and every other attribute unchanged, and its field holds the cleaned text recognized on the clip to the feature's own cutline (the warp is assumed to succeed; see "## Left out") |
| Pipeline.FirstIndex | pw_ocr.py:309-313 | the scan stops at the first feature in source order whose id matches, or runs to the end when none does |
| Pipeline.MatchOf | pw_ocr.py:308-313 | at most one feature is processed per id, none exactly when no source feature has that id, and it is the first in source order |
| Pipeline.Matches | pw_ocr.py:308-313 | the id loop processes at most one feature per id |
| Pipeline.MatchesFromSource | pw_ocr.py:308-313 | every processed feature is a source feature, its id was returned by the index, and it is the first feature in source order with that id |
| Pipeline.EmitAll | pw_ocr.py:330 | one record is emitted per processed feature |
| Pipeline.EmitAllAt | pw_ocr.py:330 | the i-th record emitted is the i-th processed feature, stamped |
| Pipeline.IdTurn | pw_ocr.py:308-313 | one turn of the id loop leaves the page file alone |
| Pipeline.IdTurnsProcessMatches | pw_ocr.py:308-313 | the id loop equals processing the matched features in order: the workspace ends holding the last of them, the sink gains their stamped records in order, and `actual` grows by their number |
| Pipeline.PageFor | pw_ocr.py:299-307 | a successful translation makes the page this raster; after a failed one the page is taken to be the previous one |
| Pipeline.RasterStepProcessesMatches | pw_ocr.py:297-313 | a raster whose extent meets any feature processes exactly the matched features on the page `PageFor` chose, whether or not the translation succeeded |
| Pipeline.RasterStepWithinIds | pw_ocr.py:295-313 | a raster only appends to the sink, at most one record per id the index returns; `actual` keeps counting the sink; the workspace keeps at most one feature |
| Pipeline.RasterRecord | pw_ocr.py:295-313 | every record a raster appends is a source feature the index returned for it, the first with its id, stamped with the text read on that raster's page |
| Pipeline.LayersWithinWorkload | pw_ocr.py:287-291 | over canvas layers the sink grows by at most the concatenated id lists of the raster layers; non-raster layers are skipped; `actual` keeps counting the sink |
| Pipeline.RasterIdsSnoc | pw_ocr.py:277-279 | one more canvas layer extends `n` by its ids exactly when it is a raster layer |
| Pipeline.LayersStepSnoc | pw_ocr.py:287-291 | one more canvas layer is processed after the others, on the state they left, only when it is a raster layer |
| Pipeline.RasterIdsPrefix | pw_ocr.py:277-279 | the layers visited before a cancellation contribute no more ids than the whole canvas |
| Controller.ValidateAsWritten | pw_ocr.py:221-227 | as written, a missing source fails on the attribute access that creates the sink, before the source check; otherwise only a missing raster outside all-rasters mode fails |
| Controller.InputCheckNeverFires | pw_ocr.py:246-247 | the invalid-source error for a missing source is never raised as written |
| Controller.Validate | pw_ocr.py:246-250 | the checks as intended: a missing source, then a missing raster when all-rasters is off; the run proceeds exactly otherwise |
| Controller.ValidateAgreesOnFailure | pw_ocr.py:246-250 | both versions reject the same parameters and differ only in the error for a missing source |
| Controller.CancelFrom | pw_ocr.py:288-289 | the first poll from a position that reports cancellation, with none reporting it before |
| Controller.CancelPoint | pw_ocr.py:288-289 | the layer loop stops at the first layer whose poll reports cancellation; every earlier poll reported none |
| Controller.RunSettings | pw_ocr.py:199-256 | the stamped field is the chosen field, the comma option is the chosen option, and the configuration is the `--psm`/`--oem` string of the chosen modes |
| Controller.Visited | pw_ocr.py:288-289 | the visited layers are the prefix of the canvas before the first poll that reports cancellation: no earlier poll reported it, and the poll at the first unvisited layer did |
| Controller.Run | pw_ocr.py:246-293 | a run fails exactly on a missing source or a missing raster outside all-rasters mode, with the intended error; otherwise `total` is the workload and `'Recognized'` is `str(actual)` |
| Controller.RunWithinWorkload | pw_ocr.py:273-293 | after a run `actual == len(sink) <= total`, and the workspace holds at most one feature |
| Controller.RecognizedIsCount | pw_ocr.py:293 | the returned `'Recognized'` string reads back as the number of records in the sink |
| Controller.CancelledAtFirstPoll | pw_ocr.py:288-289 | a cancellation at the first poll stops the all-rasters run before any raster: empty sink, `'Recognized'` is `"0"` |
| Controller.ThreeFeaturesOneRaster | pw_ocr.py:273-313 | with ids 1, 2, 3 and a raster meeting 1 and 2: `total` is 2, features 1 and 2 are emitted in that order, the workspace holds 2, the result is `"2"` |
| Controller.SingleFeatureRaster | pw_ocr.py:295-313 | a translated raster meeting a single feature moves the page, isolates the feature and emits it once |
| Controller.FailedTranslationStillEmits | pw_ocr.py:304-313 | a raster whose translation fails still emits its feature, clipped from the page as it was, and the page is not changed |
| Controller.EmittedOncePerRaster | pw_ocr.py:285-291 | in all-rasters mode a feature met by two raster layers is emitted twice, once from each raster's page |
| Algorithm.OcrAlgorithm.IsolateFeature | pw_ocr.py:317-320 | after deleting every workspace feature and adding feat, the workspace holds exactly feat |
| Algorithm.OcrAlgorithm.OnThisFeature | pw_ocr.py:315-333 | the workspace holds exactly the feature; the sink gains exactly its stamped record; `actual` grows by exactly 1; the progress is in (0, 100] while `actual < total` |
| Algorithm.OcrAlgorithm.OnThisId | pw_ocr.py:308-313 | the scan with `break` performs exactly `IdTurn`: the first source feature with the id is processed, or nothing happens |
| Algorithm.OcrAlgorithm.OnTheseIds | pw_ocr.py:308-313 | the loop over the index's ids performs exactly `IdTurns` |
| Algorithm.OcrAlgorithm.OnThisRaster | pw_ocr.py:295-313 | the state after one raster is `RasterStep` of the state before it: nothing happens without intersecting ids; a failed translation is not an error |
| Algorithm.OcrAlgorithm.CollectRasterIds | pw_ocr.py:276-279 | the loop builds `n` as the concatenation of the id lists of the raster layers, in canvas order and with duplicates |
| Algorithm.OcrAlgorithm.WorkloadIds | pw_ocr.py:273-280 | `n` is the chosen raster's id list in single-raster mode and the canvas concatenation otherwise; its length is the workload |
| Algorithm.OcrAlgorithm.OnAllRasters | pw_ocr.py:285-291 | the state after the layer loop is `LayersStep` over the layers before the first cancellation |
| Algorithm.OcrAlgorithm.Recognize | pw_ocr.py:254-293 | after the checks: `config` is the `--psm`/`--oem` string, `index` is the host's index, the workspace is emptied, `total` is the workload and `actual` starts from 0, then the raster(s) are processed; the state is `Recognition` and the result is `str(actual)` |
| Algorithm.OcrAlgorithm.ProcessAlgorithm | pw_ocr.py:181-293 | the entry point does exactly what `Run` says, and on success also sets `config` and `index`. `destField` and `removeComma` are set from the parameters before any check; `source` is set and a new empty sink created before the raster check, so a failing raster check leaves that empty sink. On any failure the page, the workspace, `actual`, `total`, `config` and `index` are unchanged; with no source the sink and `source` are unchanged too |

## Findings

| source | as written | input that shows it | evidently intended | confidence | as-written member | corrected member |
|---|---|---|---|---|---|---|
| pw_ocr.py:246-247 | `if self.feature_source is None: raise` comes after line 225 has already called `self.feature_source.fields()` | the INPUT parameter resolves to no source | reject a missing source with the host's invalid-source error for INPUT | not executed; low (the host may refuse a missing required source before the algorithm runs) | Controller.ValidateAsWritten, Controller.InputCheckNeverFires | Controller.Validate |

## Left out

- Parameter declarations, help text and the host's metadata (`initAlgorithm`, `name`, `group` and so on): host UI boilerplate.
- Temporary path, shapefile creation and encoding lookup: these are file-system and host I/O. The layer-by-name fallback for the source layer is left out for the same reason. The workspace layer is modelled as the feature list it holds.
- Building the spatial index: the index is a given function from an extent to ids. It returns the same ids each time a raster is queried, so the count and the loop agree.
- GDAL's translation options (8-bit, first band, GTiff) and the warp that clips: the page is modelled as "this raster", and clip-then-OCR is one function of the page and the cutline.
- Tesseract and image loading: these are external. The language `pol` and the configuration string are passed to the recognition function.
- Progress and feedback messages: logging is left out, and so are the progress set after counting and the progress text. `Algorithm.OcrAlgorithm.OnThisFeature` returns the progress it computes as a real.
- Pipeline.PageFor: after a failed `gdal.Translate` the page file is assumed to still hold the previous page. GDAL may already have truncated or partly written the file, and the model does not capture that page content.
- Pipeline.Emitted: the warp and the image load are assumed to succeed, so the text always comes from the clip of the current page to this feature's own cutline. The source ignores the result of `gdal.Warp` (pw_ocr.py:347) and then opens whatever `output.tif` is on disk (pw_ocr.py:323). A failed warp, such as an invalid cutline polygon or a missing page file, leaves the previous feature's clip in place, so an earlier feature's text is written onto this feature. When no clip exists at all, `Image.open` raises and the run ends. Neither outcome is modelled. `NoPage` stands for a page the source could not clip, and the model still emits a record from it.
- Controller.Workload and Algorithm.OcrAlgorithm.OnAllRasters: the canvas layer list is read once (`host.canvas`) for both the count of `n` and the layer loop, which the source reads separately. `actual <= total` (Controller.RunWithinWorkload) and `total != 0` at the progress division depend on the two reads returning the same layers. A canvas that changes between them is not modelled.
- Cancellation: it is a function of the poll position. Concurrency with the host's cancel button is not modelled.
- Algorithm.OcrAlgorithm.OnThisFeature: its contract requires `total != 0`, which every caller meets. A feature is only processed when an id matched, so the count includes that id.
- Pipeline.Stamp: it sets the destination field by name. The field is taken from the input layer's fields, so a missing field (an error in the host) is not modelled.
- Failures of the host's sink or of OCR: the model has no error path for them.
