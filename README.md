# d3-grid-map in Dafny

A model of the core of d3-grid-map, a canvas widget that draws global
gridded data sets (a dense grid of lon/lat cells) and GeoJSON layers over a
d3 projection. The model covers:

- the packed binary format: one unsigned 32-bit word per cell, with the
  cell id in the low 20 bits and the value in the top byte;
- the three importers of `Data`:
  - packed words to GeoJSON features, with a cache by cell id;
  - packed words to a dense RGBA grid with a sparse `rawData`;
  - an RGBA byte array to GeoJSON features;
- the `Grid` value: the cell-id ↔ lon/lat arithmetic, the corner ring of
  a cell, and its per-grid cache;
- a map `Layer`: its option defaults, its visibility, what `draw` does,
  and its own grid copy;
- the `GridMap` widget:
  - projecting screen pixels onto grid indices;
  - the two-pass `drawGrid` of src/index.js, and the fused single-pass
    `drawGrid` of the bundle;
  - the hover lookup;
  - the layer stack: its stable sort by zIndex, and removal by index and
    by identity;
  - which layers draw while animating;
  - zooming through the sorted zoom levels;
- the legend's `rotate` colour helper.

JavaScript semantics are written out:

- `~~x` is ToInt32 of the truncation. `%` truncates toward zero.
- A `Uint8ClampedArray` store clamps. A store out of range is ignored. A
  store of `undefined` stores 0.
- A read out of range gives `undefined`, which is `None` here.
- Coordinates are exact reals.

The canvas, the projection's inverse and the colour scale are parameters.

Modules:

- `JsNumbers` (js_numbers.dfy): the JavaScript number and typed-array
  semantics.
- `GridCells` (grid.dfy): src/grid.js.
- `DataImport` (data_import.dfy): the `Data` object of d3-grid-map.js.
- `Layers` (layer.dfy): src/layer.js, with the one-argument constructor of
  the bundle.
- `GridMapWidget` (grid_map.dfy): src/index.js.
- `FusedRender` (fused_render.dfy): the bundle's single-pass `drawGrid`.
- `Legend` (legend.dfy): `complementaryColor`'s `rotate`.

## Model

| member | source | states |
|---|---|---|
| JsNumbers.Trunc | src/index.js:234 | truncation toward zero: the floor for non-negative x, and the floor rounded up toward 0 for negative x |
| JsNumbers.ToInt32 | src/index.js:234 | `~~`'s wrap into [-2^31, 2^31), congruent modulo 2^32, identity inside the range |
| JsNumbers.DoubleTilde | src/index.js:234 | `~~x`, the truncation of x wrapped to 32 bits; it has no contract of its own, its meaning is the contracts of `Trunc` and `ToInt32` |
| JsNumbers.JsRem | d3-grid-map.js:770 | JavaScript `%`: a non-negative dividend gives a result in [0, b); a negative one gives the negated remainder of its magnitude |
| JsNumbers.Clamp | d3-grid-map.js:73-76 | a Uint8ClampedArray store keeps bytes, sends negatives to 0 and large values to 255 |
| JsNumbers.Read | src/index.js:248 | a typed-array read is defined exactly inside the buffer and then returns that byte |
| JsNumbers.ReadAt | src/index.js:246-248 | an undefined index reads undefined; a defined one reads byte q*4 + offset |
| JsNumbers.Stored | src/index.js:252-255 | storing undefined stores 0; a defined byte is stored as is |
| JsNumbers.Assigned | d3-grid-map.js:73-76 | one typed-array store: same length, only index k changes, to the clamped value, and an out-of-range k changes nothing |
| JsNumbers.Store | src/layer.js:49-52 | the in-place store on an array leaves exactly `Assigned` of the old contents |
| GridCells.CellIdToLonLatCorner | src/grid.js:28-31 | the corner's latitude is 90 - row*180/rows and its longitude is -180 + col/cols*rows; cell 1 sits at (-180, 90) |
| GridCells.CellIdToLonLat | src/grid.js:20-32 | the corner of a cell id; no contract of its own, `CellIdToLonLatCorner` gives its formulas and `RoundTripWhenRowsIs360` its inverse |
| GridCells.ColumnSpacing | src/grid.js:29 | neighbouring cells of one row are rows/cols degrees of longitude apart, not 360/cols |
| GridCells.CoordinatesToCellIdInRange | src/grid.js:38-41 | for λ in [-180, 180) and φ in (-90, 90], the cell id lies in 1..rows*cols |
| GridCells.RowAndColumn | src/grid.js:38-39 | the row and column of a point are the floors of its scaled latitude and longitude, inside the grid |
| GridCells.CoordinatesToCellId | src/grid.js:34-43 | row * cols + col + 1; no contract of its own, `RowAndColumn` and `CoordinatesToCellIdInRange` give its row, column and range |
| GridCells.RowOf | src/grid.js:38 | the row of a latitude; no contract of its own, `RowAndColumn` proves it is the floor of (90 - φ)/180 * rows |
| GridCells.ColumnOf | src/grid.js:39 | the column of a longitude; no contract of its own, `RowAndColumn` proves it is the floor of (λ + 180)/360 * cols |
| GridCells.RoundTripWhenRowsIs360 | src/grid.js:20-43 | with 360 rows, `coordinatesToCellId(cellIdToLonLat(id)) == id` for every cell |
| GridCells.RoundTripFailsFor180Rows | src/grid.js:29 | with 180 rows and 360 columns, cell 2's corner maps back to cell 1 |
| GridCells.SplitCellId | src/grid.js:28-30 | every cell id splits into a row below rows and a column below cols |
| GridCells.CellRingShape | src/grid.js:61-71 | the ring is closed, starts at the corner and runs through the corner shifted by 360/cols east and 180/rows south |
| GridCells.CellRing | src/grid.js:61-71 | the five-point ring of a cell; no contract of its own, `CellRingShape` states its shape |
| GridCells.Grid.constructor | src/grid.js:1-9 | rows is gridSize[1], cols is gridSize[0], data and rawData are kept, and the cache starts empty |
| GridCells.Grid.GetCell | src/grid.js:11-18 | undefined without rawData; otherwise defined exactly for recorded cell ids, with the recorded value |
| GridCells.Grid.CellIdToCoordinates | src/grid.js:45-74 | returns the cell's ring, served from the cache when present, and records it in the cache |
| DataImport.CellOf | d3-grid-map.js:24 | the cell id of a word lies in [0, 0xFFFFF] |
| DataImport.ValueOf | d3-grid-map.js:27 | the value of a word lies in [0, 255] |
| DataImport.UnpackPack | d3-grid-map.js:24-27 | decoding (value << 24) \| cellId gives back the cell id and the value, with no reserved bits |
| DataImport.PackUnpack | d3-grid-map.js:24-27 | re-packing a decoded word gives the word without bits 20-23 |
| DataImport.ReservedBitsIgnored | d3-grid-map.js:24-27 | changing bits 20-23 changes neither the cell id nor the value |
| DataImport.LastIndexOf | d3-grid-map.js:42 | the last word naming a cell: it names the cell, no later word does, and there is none exactly when no word names it |
| DataImport.ArrayBufferToGeoJSON | d3-grid-map.js:5-45 | one feature per word in word order, with id i and the decoded properties; the cache holds exactly the cells named, each with the feature of the last word naming it |
| DataImport.PaintAt | d3-grid-map.js:66-79 | one word sets the four bytes of its cell to the channels of its value's colour, alpha 255, and leaves every other byte |
| DataImport.Paint | d3-grid-map.js:73-79 | the four stores of one word; no contract of its own, `PaintAt` gives every byte of its result |
| DataImport.PaintWord | d3-grid-map.js:66-79 | the in-place stores of one word leave exactly `Paint` of the old buffer |
| DataImport.PaintedBytesAt | d3-grid-map.js:59-80 | every byte of the dense buffer is its cell's colour channel from the last word naming the cell (alpha 255), or 0 when no word names it |
| DataImport.RawDataAt | d3-grid-map.js:63-78 | rawData is defined exactly for the named cells, with the value of the last word naming each |
| DataImport.ArrayBufferToGrid | d3-grid-map.js:47-84 | a fresh grid of gridSize with the painted buffer of w*h*4 bytes and rawData of every word |
| DataImport.DecodedCell | d3-grid-map.js:78-83 | `getCell` on the decoded grid returns the value of the last word naming the cell |
| DataImport.LastCellDropped | d3-grid-map.js:66-76 | a word naming cell w*h writes past the buffer and changes no byte |
| DataImport.UInt8ArrayToGeoJSON | d3-grid-map.js:86-127 | each feature is a non-blank quadruplet at a byte offset i, with cell id i/4 + 1 and its rgba; ids ascend; every non-blank quadruplet has a feature |
| Layers.ApplyDefaults | src/layer.js:3-12 | falsy colours take the defaults; zIndex defaults only when undefined; renderOnAnimate defaults to true only when not an own property; gridSize is kept |
| Layers.ApplyDefaultsIdempotent | d3-grid-map.js:733-745 | running the constructor's defaulting over its own result changes nothing |
| Layers.LayerRenderedAt | src/layer.js:39-53 | the layer image holds, for each pixel with a truthy entry q, grid bytes q*4..q*4+3; every other byte is unchanged |
| Layers.RenderPixel | src/layer.js:46-52 | the four stores of one indexMap entry; no contract of its own, `LayerRenderedAt` gives every byte of the rendering built from it |
| Layers.Layer.constructor | d3-grid-map.js:733-745 | the options are the defaulted ones; the layer starts visible with no grid and no json |
| Layers.Layer.SetVisible | src/layer.js:91-94 | the visibility flag becomes the argument |
| Layers.Layer.Hide | src/layer.js:95 | the layer becomes hidden |
| Layers.Layer.Show | src/layer.js:96 | the layer becomes visible |
| Layers.Layer.Draw | src/layer.js:98-111 | always clears first; a hidden layer or one without data draws nothing more; otherwise it draws the grid in preference to the json |
| Layers.RenderEntry | src/layer.js:41-52 | the visit of one indexMap entry leaves exactly `RenderPixel` of the old image |
| Layers.Layer.RenderGridToCanvas | src/layer.js:34-56 | the image becomes `LayerRendered` of the old image |
| GridMapWidget.ScreenCoordinatesToGridIndex | src/index.js:208-237 | undefined exactly when the inverse is falsy or leaves [-180, 180] x [-90, 90] |
| GridMapWidget.ScreenIndexIsCellId | src/index.js:234 | inside [-180, 180) x (-90, 90], the screen index is `coordinatesToCellId` of the point, floor((90-φ)/180*rows)*cols + floor((180+λ)/360*cols) + 1, in 1..rows*cols |
| GridMapWidget.ScreenIndexCanExceedGrid | src/index.js:228-234 | at φ = -90 or λ = 180 the index passes rows*cols (6 and 5 on a 2 x 2 grid) |
| GridMapWidget.ScreenIndexValue | src/index.js:234 | the `~~` screen index of a point; no contract of its own, `ScreenIndexIsCellId` and `ScreenIndexCanExceedGrid` state where it is and is not the cell id |
| GridMapWidget.IndexMapAt | src/index.js:262-269 | entry x + width*y of the indexMap is the screen index of pixel (x, y) |
| GridMapWidget.BuildIndexMap | src/index.js:262-269 | the nested loop builds exactly the indexMap of the canvas |
| GridMapWidget.SplitRenderedAt | src/index.js:244-256 | on each pixel whose grid alpha does not read 0, red, green and blue are copied, with undefined written as 0; alpha is never written; skipped pixels and bytes past the map are unchanged |
| GridMapWidget.SplitPixel | src/index.js:252-255 | the three stores of one indexMap entry; no contract of its own, `SplitRenderedAt` gives every byte of the rendering built from it |
| GridMapWidget.RenderGridToCanvas | src/index.js:239-259 | the image becomes `SplitRendered` of the old image |
| GridMapWidget.DrawGrid | src/index.js:261-271 | the image becomes the split rendering of the canvas's indexMap |
| GridMapWidget.WithZAppend | src/index.js:392 | the layers with zIndex z of a concatenation are those of each part, in order |
| GridMapWidget.UpperBound | src/index.js:392 | the slot after the last layer with zIndex at most z: every layer from the slot on has a greater zIndex |
| GridMapWidget.InsertByZPermutesAndSorts | src/index.js:391-392 | inserting adds exactly one layer and keeps a sorted stack sorted |
| GridMapWidget.StableSortByZ | src/index.js:392 | the sort is a permutation and is sorted by zIndex |
| GridMapWidget.InsertByZKeepsTies | src/index.js:391-392 | inserting keeps the order of each zIndex's layers, with the new layer last among its equals |
| GridMapWidget.StableSortKeepsTies | src/index.js:392 | the sort is stable: layers with the same zIndex keep their relative order |
| GridMapWidget.SortSortedIsIdentity | src/index.js:392 | sorting a sorted stack changes nothing |
| GridMapWidget.PushThenSortInserts | src/index.js:391-392 | push then sort on a sorted stack puts the new layer after every layer with zIndex at most its own |
| GridMapWidget.InsertKeepsValid | src/index.js:391-392 | adding a layer that is not yet on the stack keeps the stack sorted and free of repeats |
| GridMapWidget.SpliceStart | src/index.js:405 | `splice(n, 1)` starts at n, at len + n for negative n (floored at 0), and at len past the end |
| GridMapWidget.RemoveAt | src/index.js:404-405 | a splice past the end changes nothing; in range it removes exactly element n; it never adds layers |
| GridMapWidget.SpliceKeepsValid | src/index.js:405-409 | removing one layer keeps the stack sorted and free of repeats |
| GridMapWidget.WithoutCount | src/index.js:407-411 | filtering out x removes every copy of x and keeps every other layer as often as before |
| GridMapWidget.RemoveScanRemovesOnly | src/index.js:407-411 | on a stack holding the layer at most once, the scan removes exactly that layer |
| GridMapWidget.RemoveScanSkipsAdjacentCopy | src/index.js:407-411 | a layer pushed twice in a row survives one removal, because the scan steps past the slot it just filled |
| GridMapWidget.RemoveScan | src/index.js:407-411 | the literal scan of `removeLayer`; no contract of its own, `RemoveScanRemovesOnly` and `RemoveScanSkipsAdjacentCopy` state what it removes |
| GridMapWidget.FirstGrid | src/index.js:91-103 | null exactly when no layer has a grid; otherwise the grid of the first layer that has one |
| GridMapWidget.AnimatedLayers | src/index.js:283-286 | keeps exactly the layers whose renderOnAnimate is true: every kept layer is flagged and every flagged layer is kept |
| GridMapWidget.AnimatedLayersCount | src/index.js:283-286 | each flagged layer is kept as many times as it is stacked; an unflagged one not at all |
| GridMapWidget.AnimatedLayersAppend | src/index.js:283-286 | the kept layers keep stack order: the filter distributes over concatenation |
| GridMapWidget.AnimatingDrawsFlaggedLayers | src/index.js:282-298 | while animating, the draw is exactly the full draw of the layers flagged renderOnAnimate, in order |
| GridMapWidget.RenderOpsBound | src/index.js:282-298 | at most one drawing operation per layer |
| GridMapWidget.LayerRenderOp | src/index.js:285-295 | one layer's draw, grid before json; no contract of its own, `RenderOpsBound` and `AnimatingDrawsFlaggedLayers` state what the stack issues |
| GridMapWidget.RenderOps | src/index.js:282-298 | the draws of the stack in order; no contract of its own, `RenderOpsBound` and `AnimatingDrawsFlaggedLayers` state its size and its animating case |
| GridMapWidget.SortAscendingPermutesAndSorts | src/index.js:422-424 | the numeric sort of the zoom levels is an ascending permutation |
| GridMapWidget.InsertAscendingPermutesAndSorts | src/index.js:422-424 | inserting one level adds exactly that level and keeps ascending levels ascending |
| GridMapWidget.ZoomInLevelMeaning | src/index.js:426-432 | none exactly when no level's scale exceeds the current one; otherwise a level whose scale does, and on sorted levels the smallest such |
| GridMapWidget.ZoomOutLevelMeaning | src/index.js:440-446 | none exactly when no level's scale is below the current one; otherwise a level whose scale is, and on sorted levels the largest such |
| GridMapWidget.ZoomInLevel | src/index.js:426-432 | the scan of `zoomIn`; no contract of its own, `ZoomInLevelMeaning` states its result |
| GridMapWidget.ZoomOutLevel | src/index.js:440-446 | the scan of `zoomOut`; no contract of its own, `ZoomOutLevelMeaning` states its result |
| GridMapWidget.GridMap.constructor | src/index.js:67-69 | no layers; the zoom levels are the given ones, or [1, 2, 4, 8] when undefined |
| GridMapWidget.GridMap.GetGrid | src/index.js:91-103 | returns `FirstGrid` of the stack |
| GridMapWidget.GridMap.DrawLayers | src/index.js:282-298 | issues exactly `RenderOps` of the stack |
| GridMapWidget.MakeLayer | src/index.js:372-388 | a fresh layer with defaulted options holding the decoded grid, the wrapped bytes or the json, as the data's type says |
| GridMapWidget.GridMap.AddLayer | src/index.js:361-396 | fails exactly for grid data without a usable gridSize; otherwise a fresh layer with defaulted options, holding a decoded grid, a grid over the RGBA bytes, or the json (TopoJSON marked simplified), sorted into the stack |
| GridMapWidget.GridMap.PushAndSort | src/index.js:391-392 | the stack becomes the stable sort of the old stack plus the layer, which equals inserting it, and stays valid |
| GridMapWidget.GridMap.RemoveLayerAt | src/index.js:404-405 | the stack becomes `RemoveAt` of the old stack and stays valid |
| GridMapWidget.GridMap.RemoveLayer | src/index.js:406-412 | the stack becomes the literal scan's result, which on a valid stack is the old stack without the layer |
| GridMapWidget.GridMap.ZoomTo | src/index.js:415-419 | the projection scale becomes the new scale |
| GridMapWidget.GridMap.ZoomIn | src/index.js:421-433 | the levels end up sorted; the scale moves to `ZoomInLevel`*150, or stays when there is none |
| GridMapWidget.GridMap.ZoomOut | src/index.js:435-447 | the levels end up sorted; the scale moves to `ZoomOutLevel`*150, or stays when there is none |
| GridMapWidget.HoverCellId | src/index.js:117-120 | a cell exactly with a grid and a truthy inverse with non-zero coordinates strictly inside the box; the cell is `coordinatesToCellId` of the point |
| GridMapWidget.HoverNotice | src/index.js:119-126 | `onCellHover` gets (cell, cellId) exactly when the cell was looked up and its value is defined and non-zero |
| GridMapWidget.HoverCellInGrid | src/index.js:119-120 | a hovered cell lies in 1..rows*cols |
| FusedRender.FusedRenderedAt | d3-grid-map.js:517-545 | each pixel with a screen index whose alpha does not read 0 gets all four grid bytes, with undefined written as 0; every other byte is unchanged |
| FusedRender.FusedPixel | d3-grid-map.js:537-544 | the copy-or-skip of one pixel; no contract of its own, `FusedRenderedAt` gives every byte of the rendering built from it |
| FusedRender.VisitPixel | d3-grid-map.js:519-544 | one pixel of the fused loop leaves exactly `FusedPixel` of the old image |
| FusedRender.VisitNextPixel | d3-grid-map.js:519-544 | visiting pixel p after the first p pixels leaves the fused rendering of the first p + 1 |
| FusedRender.DrawRowFused | d3-grid-map.js:518-545 | the inner loop over row y extends the fused rendering of the first y rows to the first y + 1 |
| FusedRender.DrawRowsFused | d3-grid-map.js:517-546 | the outer loop leaves the fused rendering of every pixel, in row-major order |
| FusedRender.DrawGridFused | d3-grid-map.js:512-548 | the image becomes the fused rendering of the canvas's screen indices |
| FusedRender.SplitVersusFused | d3-grid-map.js:537-544 | with a screen index, red, green and blue agree with src/index.js; without one, src/index.js writes 0 where the bundle keeps the byte; only the bundle writes alpha |
| FusedRender.SameColoursWhenInverseTotal | d3-grid-map.js:517-545 | when every pixel has a screen index, both renderers paint the same red, green and blue |
| Legend.Rotate | d3-grid-map.js:769-771 | for a channel of at least -127 the result lies in [0, 254]; channels up to 127 move up by 127, and larger ones down by 128 |
| Legend.RotateContrasts | d3-grid-map.js:766-773 | every byte channel moves at least 127 away |
| Legend.RotateInjective | d3-grid-map.js:769-771 | distinct channels in [0, 254] rotate to distinct channels |
| Legend.RotateCollidesAtFull | d3-grid-map.js:769-771 | channels 0 and 255 both rotate to 127 |
| Legend.ComplementContrasts | d3-grid-map.js:766-773 | the complement of a byte colour has channels in [0, 254], each at least 127 from the original |
| Legend.ComplementaryColor | d3-grid-map.js:766-774 | every channel rotated; no contract of its own, `ComplementContrasts` states its range and contrast |

## Left out

- Canvas, DOM and d3 drawing are not modelled. This covers path drawing, graticule, HUD (hud.js), legend drawing and highlighting, resize, event wiring, debounce and timers. `draw`/`_draw` calls after `addLayer` and `zoomTo` are not modelled either. Drawing operations are returned as values instead.
- The projection and the colour scale are function parameters. A colour scale's channels are taken to be integers: the rounding a Uint8ClampedArray applies to fractional channels is not modelled.
- Floating point is exact reals, and NaN and infinities are not modelled. zIndex values and zoom levels are numbers, so a non-number zIndex or level is not modelled.
- `zoomTo`'s simplification area (20000 / s / s) is not modelled, because it only feeds the simplifying path.
- TopoJSON conversion (`topojson.feature`/`presimplify`) is a foreign call. It is modelled only as turning the data into non-topology JSON and marking the layer simplified.
- The byte order of the ArrayBuffer behind `Uint32Array` is not modelled. Words are given as unsigned 32-bit integers.
- The bundle's duplicated Grid and GridMap code (d3-grid-map.js:133-208 and the widget) is modelled once, from src.
- src/layer.js takes `(gridMap, options)` while src/index.js:373 calls `new Layer(options)`. The model follows the one-argument constructor of d3-grid-map.js:733-745. The `visible` flag and `draw` come from src/layer.js.
- The `drawGrid` of src/layer.js:58-68 calls `grid.screenCoordinatesToGridIndex`, which Grid does not have, so it is not modelled. Its `renderGridToCanvas` is.
- `addLayer` of src/index.js throws for grid data when options or `options.gridSize` is undefined. The model returns null and leaves the stack unchanged.
- GridMapWidget.GridMap.AddLayer: treats a gridSize with a non-positive dimension like a missing one. An empty or negative-size buffer is not modelled.
- The Layer constructor mutates the caller's options object, so shared options objects alias. This is not modelled: a layer's options are a value.
- Implicit globals (`rows`, `cols` in `cellIdToCoordinates`) are not modelled.
- DataImport.ArrayBufferToGeoJSON and DataImport.UInt8ArrayToGeoJSON: d3-grid-map.js:28 and d3-grid-map.js:110 call `this.cellIdToCoordinates` on the `Data` object, which has no such member. As written, both converters throw a TypeError at their first feature unless `this` is a Grid. The model takes the ring builder as a parameter and describes them as if that call succeeded.
- GridMapWidget.LayerRenderOp and GridMapWidget.GridMap.DrawLayers: src/index.js:291 and d3-grid-map.js:568 call `self.drawTopoJSONLayer`, which is defined nowhere, so drawing a layer whose json is TopoJSON would throw. The model issues `DrawTopoJsonOf` there instead. `addLayer` converts TopoJSON before storing it (src/index.js:381-386), so a layer it builds never holds TopoJSON and never reaches that branch (`HoldsData` of `MakeLayer`).
- GridMapWidget.RemoveAt: the index is an integer. The truncation JavaScript's `splice` applies to a fractional start, and NaN read as 0, are not modelled.
- `onMouseMove`'s HUD update and the `cell / 255` normalisation are not modelled. The legend's `xy`, `draw` and `highlight` are not modelled.
- The GridMap stack invariant, sorted and free of repeats, holds for stacks built by `addLayer`. The model does not cover a caller that splices the array directly.
- `Legend.Rotate` is stated for integer channels, as `d3.rgb` gives them.

Behaviour the model keeps as written:

- `cellIdToLonLat` scales the longitude by rows instead of by 360, so the corner round trip holds only for 360 rows.
- The cell id is masked to 20 bits, although the format comment speaks of 3 bytes.
- A word naming cell w*h writes past the dense buffer and is dropped.
- src/index.js's `renderGridToCanvas` writes red twice and never alpha.
- It writes 0 for an undefined index.
- `removeLayer(obj)` steps past a copy that slid into the removed slot.
- The screen index overshoots the grid at φ = -90 and λ = 180.
