# ngx-canvas-grid: a Dafny model of the render loop, the dirty tracking and the hit test

ngx-canvas-grid is an Angular component that draws a grid of cells on a stack
of canvas layers. This project models two revisions of its core:

- the current revision, under `projects/jakubdob/ngx-canvas-grid/src/lib/`, in the
  modules `GridLayers` (the `LayerController` and its `Builder`) and
  `CanvasGrid` (the component);
- the older revision, under `src/lib/`, in the modules `LegacyLayers` and
  `LegacyCanvasGrid`.

Both revisions share four modules:

- `Geometry`: the row and column gap tables with their inclusive prefix sums,
  the canvas extent, the flat table of cells, the three kinds of element
  (cell, gap, gap pair) and `equalElements`;
- `HitTest`: `findTargetCoordinate`, the binary search along one axis, and the
  case split of `getTargetFromEvent`;
- `LayerDrawing`: the canvas calls a frame makes;
- `InsertionSet`: JavaScript `Set<number>`.

How the model represents the program:

- A JavaScript `Set` iterates in insertion order, and render draws dirty cells
  in that order. So a set of cell indices is a `seq<nat>` without duplicates:
  `add` appends an absent element and `delete` keeps the order of the rest.
  A `Map` is a Dafny `map`.
- A layer is a value (`LayerState`). The controller owns the sequence of
  layers as a field that its methods and the component's methods reassign, as
  the source mutates the shared layer records in place.
- Canvas calls are not made. Each `clearRect`, each call of a layer's draw
  callback and each `requestAnimationFrame` is appended to a trace of
  `DrawCall`s. Emitted events are appended to a trace of `GridEvent`s.
- Each component method is proved against a pure function of the old state:
  - `FrameLayer`, `FrameCalls` and `FrameTrace` for render;
  - `ResolveDeferred` for `updateDeferredLayerIndices`;
  - `PointerDown`, `PointerMove` and `PointerUp` for the current pointer
    handlers;
  - `MouseDown`, `MouseMove` and `MouseUp` for the older mouse handlers;
  - `TargetAt` for the hit test.

  The lemmas about those functions state what the source promises.
- Pointer coordinates are canvas pixels. The element under a pixel is
  `TargetAt` of the grid the current inputs describe.

Where the specification text and the code disagree, the model follows the code:

- A pointer starts dragging when both of its coordinates differ from the press
  position, not when the element under it changes. `HorizontalDragIsSilent`
  shows the consequence. A press on a cell, a move along the row onto another
  cell, and a release there emit only the move: no drag, no drop and no click.
- The frame-rate throttle decides only whether a frame does work. The time
  bookkeeping is left out (see below). In the code, `deltaTime` and
  `elapsedTime` are updated on every frame, including skipped frames.
- `deleteCellDrawnPerFrame(cellIndex, layerIndex)` deletes the index from any
  layer. Unlike the other per-cell operations, it has no whole-canvas guard.

Paths below are relative to the repository root.

## Model

| member | source | states |
|---|---|---|
| InsertionSet.Add | projects/jakubdob/ngx-canvas-grid/src/lib/ngx-canvas-grid-builder.ts:40 | `Set.add`: the elements become the old ones plus `x`. An absent `x` goes last; a present one changes nothing. The old order is a prefix of the result. No duplicate appears. |
| InsertionSet.Delete | projects/jakubdob/ngx-canvas-grid/src/lib/ngx-canvas-grid-builder.ts:92-95 | `Set.delete`: the elements become the old ones minus `x`. No duplicate appears. An absent `x` changes nothing. |
| InsertionSet.AddAll | projects/jakubdob/ngx-canvas-grid/src/lib/ngx-canvas-grid.component.ts:452-458 | Adding a sequence left to right gives the union. The old set stays a prefix. No duplicate appears. |
| InsertionSet.DeleteAll | projects/jakubdob/ngx-canvas-grid/src/lib/ngx-canvas-grid.component.ts:460-462 | Deleting a sequence left to right gives the difference. No duplicate appears. |
| InsertionSet.AddThenDeleteAbsent | projects/jakubdob/ngx-canvas-grid/src/lib/ngx-canvas-grid.component.ts:456-462 | An element that is in the deletions is absent afterwards, whatever was added before. |
| InsertionSet.DeleteUndoesAdd | src/lib/ngx-canvas-grid-builder.ts:36-48 | Adding an absent element and deleting it gives back the same sequence, order included. |
| InsertionSet.NoDupCount | src/lib/ngx-canvas-grid.component.ts:442-454 | In a set, every element occurs exactly once. |
| InsertionSet.AddEach | projects/jakubdob/ngx-canvas-grid/src/lib/ngx-canvas-grid.component.ts:498-503 | The `forEach(add)` loop computes `AddAll`. |
| InsertionSet.DeleteEach | projects/jakubdob/ngx-canvas-grid/src/lib/ngx-canvas-grid.component.ts:460-462 | The `forEach(delete)` loop computes `DeleteAll`. |
| Geometry.GapTable | projects/jakubdob/ngx-canvas-grid/src/lib/ngx-canvas-grid.component.ts:85-126 | An axis with `count` cells has `count + 1` gaps, the two boundary gaps included. |
| Geometry.ComputeGapTable | projects/jakubdob/ngx-canvas-grid/src/lib/ngx-canvas-grid.component.ts:85-126 | The gap loop gives `count + 1` records. Record `i` carries row `i` or column `i` (the other coordinate is 0), the size of gap `i`, and the sum of the sizes of gaps `0..i`. It equals `GapTable`. |
| Geometry.PrefixSumStep | projects/jakubdob/ngx-canvas-grid/src/lib/ngx-canvas-grid.component.ts:91-97 | Consecutive prefix sums differ by exactly the later gap's size. |
| Geometry.PrefixSumUniform | projects/jakubdob/ngx-canvas-grid/src/lib/ngx-canvas-grid.component.ts:91-93 | A uniform gap `g` gives the prefix sum `(i + 1) * g` at gap `i`. |
| Geometry.NonNegativeGapsOrdered | projects/jakubdob/ngx-canvas-grid/src/lib/ngx-canvas-grid.component.ts:85-126 | Non-negative gap sizes give non-decreasing prefix sums. |
| Geometry.PrefixSumMonotone | projects/jakubdob/ngx-canvas-grid/src/lib/ngx-canvas-grid.component.ts:85-126 | Non-decreasing between neighbours implies non-decreasing over any distance. |
| Geometry.GridOf | projects/jakubdob/ngx-canvas-grid/src/lib/ngx-canvas-grid.component.ts:80-127 | The grid built from the inputs has gap tables of `rows + 1` and `cols + 1` entries. |
| Geometry.CanvasExtentIsSum | projects/jakubdob/ngx-canvas-grid/src/lib/ngx-canvas-grid.component.ts:130-138 | Canvas width (height) is the cells' total extent plus the sizes of all gaps of the axis. |
| Geometry.CanvasExtentUniform | projects/jakubdob/ngx-canvas-grid/src/lib/ngx-canvas-grid.component.ts:130-138 | With a uniform gap `g`, the extent is `count * extent + (count + 1) * g`. |
| Geometry.EdgesOrdered | projects/jakubdob/ngx-canvas-grid/src/lib/ngx-canvas-grid.component.ts:149-150 | With ordered gaps and a non-negative extent, a cell never starts before the far edge of an earlier cell. |
| Geometry.DivModSplit | projects/jakubdob/ngx-canvas-grid/src/lib/ngx-canvas-grid.component.ts:145-146 | A flat index below `rows * cols` splits into a row below `rows` and a column below `cols`. |
| Geometry.FlatIndexSplit | projects/jakubdob/ngx-canvas-grid/src/lib/ngx-canvas-grid.component.ts:546 | `row * cols + col` is inside the grid, and division gives back `row` and `col`. |
| Geometry.CellAt | projects/jakubdob/ngx-canvas-grid/src/lib/ngx-canvas-grid.component.ts:144-157 | Cell `i` has row and column inside the grid with `row * cols + col == i`. It is placed at the leading edges of its column and row and is one cell wide and high. |
| Geometry.Cells | projects/jakubdob/ngx-canvas-grid/src/lib/ngx-canvas-grid.component.ts:141-159 | `cells` has `rows * cols` entries, and entry `i` is cell `i`. |
| Geometry.CellOfRowCol | projects/jakubdob/ngx-canvas-grid/src/lib/ngx-canvas-grid.component.ts:545-548 | Entry `row * cols + col` of `cells` is at that row and column: the inverse of the index split. |
| Geometry.CellXIncreasesAlongRow | projects/jakubdob/ngx-canvas-grid/src/lib/ngx-canvas-grid.component.ts:149 | Along a row, cells with larger indices are strictly further right. |
| Geometry.EqualElements | projects/jakubdob/ngx-canvas-grid/src/lib/ngx-canvas-grid.component.ts:371-394 | `equalElements` holds exactly when both elements are of the same kind at the same grid positions. |
| Geometry.EqualCellsSameIndex | projects/jakubdob/ngx-canvas-grid/src/lib/ngx-canvas-grid.component.ts:371-394 | Two cells of one grid are equal elements exactly when they are the same cell. |
| HitTest.MidIsHalf | projects/jakubdob/ngx-canvas-grid/src/lib/ngx-canvas-grid.component.ts:580 | The search's probe is `floor((left + right) / 2)`. |
| HitTest.SearchSound | projects/jakubdob/ngx-canvas-grid/src/lib/ngx-canvas-grid.component.ts:576-597 | A cell result contains the coordinate in its closed band. A gap result `k` lies after the far edge of cell `k - 1` and before the leading edge of cell `k`. |
| HitTest.Locate | projects/jakubdob/ngx-canvas-grid/src/lib/ngx-canvas-grid.component.ts:570-597 | Over a whole axis: a cell result is below `count` and contains the coordinate. A gap result is at most `count` and lies strictly between its neighbouring cells. |
| HitTest.SearchProbe | projects/jakubdob/ngx-canvas-grid/src/lib/ngx-canvas-grid.component.ts:581-591 | One probe either contains the coordinate or discards the middle cell and one side without changing the result. |
| HitTest.FindTargetCoordinate | projects/jakubdob/ngx-canvas-grid/src/lib/ngx-canvas-grid.component.ts:570-597 | The while loop terminates and returns `Locate`. |
| HitTest.LocateCellIff | projects/jakubdob/ngx-canvas-grid/src/lib/ngx-canvas-grid.component.ts:579-596 | With ordered gaps, the search finds a cell exactly when some cell band contains the coordinate. |
| HitTest.LocateOnlyBand | projects/jakubdob/ngx-canvas-grid/src/lib/ngx-canvas-grid.component.ts:579-591 | A coordinate in the band of one cell only resolves to that cell. |
| HitTest.LocateInterior | projects/jakubdob/ngx-canvas-grid/src/lib/ngx-canvas-grid.component.ts:579-591 | A coordinate strictly inside a cell's band resolves to that cell. |
| HitTest.LocateLeadingEdge | projects/jakubdob/ngx-canvas-grid/src/lib/ngx-canvas-grid.component.ts:582-586 | The leading edge belongs to the cell, not to the gap before it, when that gap is not empty. |
| HitTest.Combine | projects/jakubdob/ngx-canvas-grid/src/lib/ngx-canvas-grid.component.ts:545-567 | A cell on both axes gives cell `row * cols + col` at that row and column. A gap on both axes gives the pair of the two gaps. Otherwise the result is the column gap or the row gap found. |
| HitTest.GetTargetFromEvent | projects/jakubdob/ngx-canvas-grid/src/lib/ngx-canvas-grid.component.ts:533-567 | The two searches and the case split compute `TargetAt`. |
| HitTest.TargetAtMeaning | projects/jakubdob/ngx-canvas-grid/src/lib/ngx-canvas-grid.component.ts:521-568 | On a grid with sorted bands: a cell whose closed rectangle contains the pixel exactly when the pixel is in a column band and a row band; a gap pair exactly when it is in neither. |
| HitTest.CellCentreResolves | projects/jakubdob/ngx-canvas-grid/src/lib/ngx-canvas-grid.component.ts:521-568 | Round trip: on a grid whose bands are sorted, the centre of every cell at least 2 pixels wide and 2 pixels high resolves to that cell. |
| HitTest.ScenarioNoGap | projects/jakubdob/ngx-canvas-grid/src/lib/ngx-canvas-grid.component.ts:570-597 | Three 10-pixel columns without gaps: x = 25 is column 2. |
| HitTest.ScenarioGapTwo | projects/jakubdob/ngx-canvas-grid/src/lib/ngx-canvas-grid.component.ts:570-597 | The same columns with gaps of 2: x = 25 is column gap 2. |
| HitTest.ScenarioGrid | projects/jakubdob/ngx-canvas-grid/src/lib/ngx-canvas-grid.component.ts:521-568 | On a 3 by 3 grid, pixel (25, 5) is cell 2 without gaps, and column gap 2 with gaps of 2. |
| LayerDrawing.AllCellsTrace | projects/jakubdob/ngx-canvas-grid/src/lib/ngx-canvas-grid.component.ts:485-487 | One draw per cell, in index order. |
| LayerDrawing.AllCellsDrawEachOnce | projects/jakubdob/ngx-canvas-grid/src/lib/ngx-canvas-grid.component.ts:485-487 | Drawing all cells draws each existing cell exactly once and no index past the last cell. |
| LayerDrawing.InRange | projects/jakubdob/ngx-canvas-grid/src/lib/ngx-canvas-grid.component.ts:504-505 | Keeps exactly the indices below `_length`, and keeps a set a set. |
| LayerDrawing.DirtyTrace | projects/jakubdob/ngx-canvas-grid/src/lib/ngx-canvas-grid.component.ts:504-510 | For each index in order: clear its rectangle, then draw it. |
| LayerDrawing.RedrawSet | projects/jakubdob/ngx-canvas-grid/src/lib/ngx-canvas-grid.component.ts:498-503 | `redrawIndices` holds exactly the one-shot and the persistent indices, without duplicates. |
| LayerDrawing.CollectRedrawIndices | projects/jakubdob/ngx-canvas-grid/src/lib/ngx-canvas-grid.component.ts:498-503 | The two `forEach` loops over the empty `redrawIndices` collect exactly `RedrawSet`: the one-shot indices in order, then the persistent indices not already present. |
| LayerDrawing.DirtyTraceDraws | projects/jakubdob/ngx-canvas-grid/src/lib/ngx-canvas-grid.component.ts:504-510 | A cell is drawn exactly when its index is listed. |
| LayerDrawing.DirtyTraceCount | projects/jakubdob/ngx-canvas-grid/src/lib/ngx-canvas-grid.component.ts:504-510 | A cell is drawn as often as its index is listed. |
| LayerDrawing.DirtyRedrawDrawsEachOnce | projects/jakubdob/ngx-canvas-grid/src/lib/ngx-canvas-grid.component.ts:496-511 | The dirty redraw draws exactly once each existing cell marked one-shot or persistent, and no other cell. |
| LayerDrawing.DrawAllCells | projects/jakubdob/ngx-canvas-grid/src/lib/ngx-canvas-grid.component.ts:485-487 | The loop over `cells()` makes `AllCellsTrace`. |
| LayerDrawing.RedrawIndices | projects/jakubdob/ngx-canvas-grid/src/lib/ngx-canvas-grid.component.ts:504-510 | The loop over `redrawIndices` skips indices past the last cell and clears, then draws, the others in order. |
| GridLayers.NewLayer | projects/jakubdob/ngx-canvas-grid/src/lib/ngx-canvas-grid-builder.ts:116-125 | A new layer has no flag, no marked index and no queued position. |
| GridLayers.DrawnOnce | projects/jakubdob/ngx-canvas-grid/src/lib/ngx-canvas-grid-builder.ts:32-34 | `drawOnce(layer)` sets `redrawAll`, clears `redrawPerFrame`, and changes nothing else. |
| GridLayers.CellDrawnOnce | projects/jakubdob/ngx-canvas-grid/src/lib/ngx-canvas-grid-builder.ts:36-40 | A per-cell layer's one-shot set becomes `Add` of the index: appended last if absent, unchanged if present. Nothing else changes. A whole-canvas layer is unchanged. |
| GridLayers.PosDrawnOnce | projects/jakubdob/ngx-canvas-grid/src/lib/ngx-canvas-grid-builder.ts:41-49 | A per-cell layer queues the position for the one-shot set. A whole-canvas layer is unchanged. |
| GridLayers.DrawnPerFrame | projects/jakubdob/ngx-canvas-grid/src/lib/ngx-canvas-grid-builder.ts:61-62 | `drawPerFrame(layer)` sets `redrawPerFrame` and changes nothing else. |
| GridLayers.CellDrawnPerFrame | projects/jakubdob/ngx-canvas-grid/src/lib/ngx-canvas-grid-builder.ts:64-68 | A per-cell layer's persistent set becomes `Add` of the index: appended last if absent, unchanged if present. Nothing else changes. A whole-canvas layer is unchanged. |
| GridLayers.PosDrawnPerFrame | projects/jakubdob/ngx-canvas-grid/src/lib/ngx-canvas-grid-builder.ts:69-77 | A per-cell layer queues the position for the persistent set. A whole-canvas layer is unchanged. |
| GridLayers.PerFrameCellsDeleted | projects/jakubdob/ngx-canvas-grid/src/lib/ngx-canvas-grid-builder.ts:89-90 | The persistent set is emptied. Queued positions stay queued. |
| GridLayers.CellDeletedFromPerFrame | projects/jakubdob/ngx-canvas-grid/src/lib/ngx-canvas-grid-builder.ts:92-95 | The index leaves the persistent set, whatever the layer's kind. |
| GridLayers.PosDeletedFromPerFrame | projects/jakubdob/ngx-canvas-grid/src/lib/ngx-canvas-grid-builder.ts:96-104 | A per-cell layer queues the position for deletion. A whole-canvas layer is unchanged. |
| GridLayers.DrawnOnceIdempotent | projects/jakubdob/ngx-canvas-grid/src/lib/ngx-canvas-grid-builder.ts:32-34 | `drawOnce(layer)` twice is once. |
| GridLayers.CellDrawnPerFrameIdempotent | projects/jakubdob/ngx-canvas-grid/src/lib/ngx-canvas-grid-builder.ts:64-68 | Marking a cell for every frame twice is marking it once. |
| GridLayers.CellDeleteUndoesDrawPerFrame | projects/jakubdob/ngx-canvas-grid/src/lib/ngx-canvas-grid-builder.ts:64-95 | Deleting a cell just marked for every frame gives back the layer exactly. |
| GridLayers.LayerController.constructor | projects/jakubdob/ngx-canvas-grid/src/lib/ngx-canvas-grid-builder.ts:16-18 | A new controller has no layers. |
| GridLayers.LayerController.DrawOnce | projects/jakubdob/ngx-canvas-grid/src/lib/ngx-canvas-grid-builder.ts:32-34 | Only the addressed layer changes, to `DrawnOnce`. |
| GridLayers.LayerController.DrawOnceCell | projects/jakubdob/ngx-canvas-grid/src/lib/ngx-canvas-grid-builder.ts:36-40 | Only the addressed layer changes, to `CellDrawnOnce`. Sets stay sets. |
| GridLayers.LayerController.DrawOnceAt | projects/jakubdob/ngx-canvas-grid/src/lib/ngx-canvas-grid-builder.ts:41-49 | Only the addressed layer changes, to `PosDrawnOnce`. |
| GridLayers.LayerController.DrawPerFrame | projects/jakubdob/ngx-canvas-grid/src/lib/ngx-canvas-grid-builder.ts:61-62 | Only the addressed layer changes, to `DrawnPerFrame`. |
| GridLayers.LayerController.DrawPerFrameCell | projects/jakubdob/ngx-canvas-grid/src/lib/ngx-canvas-grid-builder.ts:64-68 | Only the addressed layer changes, to `CellDrawnPerFrame`. |
| GridLayers.LayerController.DrawPerFrameAt | projects/jakubdob/ngx-canvas-grid/src/lib/ngx-canvas-grid-builder.ts:69-77 | Only the addressed layer changes, to `PosDrawnPerFrame`. |
| GridLayers.LayerController.DeleteCellsDrawnPerFrame | projects/jakubdob/ngx-canvas-grid/src/lib/ngx-canvas-grid-builder.ts:89-90 | Only the addressed layer changes, to `PerFrameCellsDeleted`. |
| GridLayers.LayerController.DeleteCellDrawnPerFrame | projects/jakubdob/ngx-canvas-grid/src/lib/ngx-canvas-grid-builder.ts:92-95 | Only the addressed layer changes, to `CellDeletedFromPerFrame`. |
| GridLayers.LayerController.DeleteCellDrawnPerFrameAt | projects/jakubdob/ngx-canvas-grid/src/lib/ngx-canvas-grid-builder.ts:96-104 | Only the addressed layer changes, to `PosDeletedFromPerFrame`. |
| GridLayers.Builder.constructor | projects/jakubdob/ngx-canvas-grid/src/lib/ngx-canvas-grid-builder.ts:108-109 | The builder owns a fresh controller without layers. |
| GridLayers.Builder.AddLayerDrawnPerCell | projects/jakubdob/ngx-canvas-grid/src/lib/ngx-canvas-grid-builder.ts:115-127 | Appends a new per-cell layer after the existing ones. |
| GridLayers.Builder.AddLayerDrawnAsWhole | projects/jakubdob/ngx-canvas-grid/src/lib/ngx-canvas-grid-builder.ts:129-141 | Appends a new whole-canvas layer after the existing ones. |
| GridLayers.Builder.Build | projects/jakubdob/ngx-canvas-grid/src/lib/ngx-canvas-grid-builder.ts:111-113 | Returns the builder's own controller. |
| CanvasGrid.PosIndices | projects/jakubdob/ngx-canvas-grid/src/lib/ngx-canvas-grid.component.ts:452-454 | Maps each queued position to `row * cols + col`, position by position in queue order. |
| CanvasGrid.ResolveDeferred | projects/jakubdob/ngx-canvas-grid/src/lib/ngx-canvas-grid.component.ts:451-464 | The one-shot set gains its queued positions. The persistent set gains its queue, then loses the positions queued for deletion. All three queues are emptied. Sets stay sets. Flags and kind are kept. |
| CanvasGrid.QueuedDeleteWins | projects/jakubdob/ngx-canvas-grid/src/lib/ngx-canvas-grid.component.ts:456-462 | A position queued for deletion is absent after resolution, even if it was also queued for addition. |
| CanvasGrid.ResolveUsesCurrentCols | projects/jakubdob/ngx-canvas-grid/src/lib/ngx-canvas-grid.component.ts:452-453 | Example: the queued position (row 1, column 2) resolves to cell 11 with 9 columns and to cell 7 with 5 columns. The general statement is `ResolveDeferred`'s contract, applied with the `cols` the frame passes. |
| CanvasGrid.FrameLayer | projects/jakubdob/ngx-canvas-grid/src/lib/ngx-canvas-grid.component.ts:472-514 | After a worked frame, `redrawAll` is off and `redrawPerFrame` is kept. A per-cell layer has its queues resolved, its one-shot set drained and its persistent set kept. A whole-canvas layer is otherwise unchanged. |
| CanvasGrid.DirtyFrameDrawsPendingOnce | projects/jakubdob/ngx-canvas-grid/src/lib/ngx-canvas-grid.component.ts:493-514 | An unflagged per-cell layer draws each pending existing cell exactly once. Pending means marked or queued, one-shot or persistent, less the queued deletions. No other cell is drawn. |
| CanvasGrid.NextFrameDrawsPersistentOnly | projects/jakubdob/ngx-canvas-grid/src/lib/ngx-canvas-grid.component.ts:493-514 | For a per-cell layer without `redrawPerFrame`, the frame after a worked frame draws exactly the resolved persistent cells. With `redrawPerFrame` set, every frame draws every cell instead (`FlaggedPerCellDrawsEveryCellOnce`). |
| CanvasGrid.FlaggedPerCellDrawsEveryCellOnce | projects/jakubdob/ngx-canvas-grid/src/lib/ngx-canvas-grid.component.ts:474-492 | A flagged per-cell layer makes `length + 1` calls: it clears the layer first, exactly once, and then draws every existing cell exactly once and no other, whatever its marks and queues hold. |
| CanvasGrid.FlaggedWholeCanvasDrawsOnce | projects/jakubdob/ngx-canvas-grid/src/lib/ngx-canvas-grid.component.ts:474-492 | A flagged whole-canvas layer is cleared and its callback runs once; nothing else is drawn. |
| CanvasGrid.UnflaggedWholeCanvasDrawsNothing | projects/jakubdob/ngx-canvas-grid/src/lib/ngx-canvas-grid.component.ts:493-514 | An unflagged whole-canvas layer makes no canvas call and the frame leaves it as it was. |
| CanvasGrid.FrameLayers | projects/jakubdob/ngx-canvas-grid/src/lib/ngx-canvas-grid.component.ts:472-515 | A worked frame applies `FrameLayer` to every layer. |
| CanvasGrid.FrameLayersValid | projects/jakubdob/ngx-canvas-grid/src/lib/ngx-canvas-grid.component.ts:472-515 | A worked frame keeps every layer's sets duplicate-free. |
| CanvasGrid.Resized | projects/jakubdob/ngx-canvas-grid/src/lib/ngx-canvas-grid.component.ts:235-237 | Every layer gets `redrawAll`, and nothing else changes. |
| CanvasGrid.ResizeRedrawsEveryLayer | projects/jakubdob/ngx-canvas-grid/src/lib/ngx-canvas-grid.component.ts:228-239 | After a resize, the next worked frame clears every layer and draws it whole. |
| CanvasGrid.PointerDown | projects/jakubdob/ngx-canvas-grid/src/lib/ngx-canvas-grid.component.ts:358-369 | A press on an element another press holds changes nothing. Otherwise the pointer records the element and position, and other presses are kept. Nothing is emitted. The press invariant is kept. |
| CanvasGrid.PointerMove | projects/jakubdob/ngx-canvas-grid/src/lib/ngx-canvas-grid.component.ts:326-356 | A repeated position does nothing. Otherwise a move is emitted, and a drag follows exactly when the pointer is pressed and both coordinates differ from the press; the pointer then becomes dragging. |
| CanvasGrid.PointerUp | projects/jakubdob/ngx-canvas-grid/src/lib/ngx-canvas-grid.component.ts:396-427 | An unpressed pointer changes nothing. Otherwise there is a click iff not dragging and over an equal element, a drop iff dragging, and nothing otherwise. The press is forgotten either way, and the pointer leaves the dragged set; other pointers' drags are kept. |
| CanvasGrid.ClickWithoutMove | projects/jakubdob/ngx-canvas-grid/src/lib/ngx-canvas-grid.component.ts:358-427 | A press and a release over equal elements emit exactly one click and restore the presses. |
| CanvasGrid.HorizontalDragIsSilent | projects/jakubdob/ngx-canvas-grid/src/lib/ngx-canvas-grid.component.ts:339-353 | Press, a move along the row onto another element, and release: only the move event is emitted. |
| CanvasGrid.DragThenDrop | projects/jakubdob/ngx-canvas-grid/src/lib/ngx-canvas-grid.component.ts:339-423 | A move in both coordinates emits a drag, and the release emits a drop, not a click. |
| CanvasGrid.RepeatedMoveIsSilent | projects/jakubdob/ngx-canvas-grid/src/lib/ngx-canvas-grid.component.ts:327-331 | A second move to the same position emits nothing. |
| CanvasGrid.CanvasGridComponent.CurrentGrid | projects/jakubdob/ngx-canvas-grid/src/lib/ngx-canvas-grid.component.ts:80-127 | The inputs describe a well-formed grid. |
| CanvasGrid.CanvasGridComponent.constructor | projects/jakubdob/ngx-canvas-grid/src/lib/ngx-canvas-grid.component.ts:42-84 | Defaults: 9 by 9 cells of 20 by 20 pixels, gaps of 1, no press, empty traces. |
| CanvasGrid.CanvasGridComponent.GetTarget | projects/jakubdob/ngx-canvas-grid/src/lib/ngx-canvas-grid.component.ts:533-567 | The element under the pixel is `TargetAt` of the current grid. |
| CanvasGrid.CanvasGridComponent.UpdateDeferredLayerIndices | projects/jakubdob/ngx-canvas-grid/src/lib/ngx-canvas-grid.component.ts:451-464 | Only layer `i` changes, to `ResolveDeferred`. |
| CanvasGrid.CanvasGridComponent.RenderLayer | projects/jakubdob/ngx-canvas-grid/src/lib/ngx-canvas-grid.component.ts:473-514 | Layer `i` becomes `FrameLayer`, and the trace grows by `FrameCalls`. |
| CanvasGrid.CanvasGridComponent.RedrawLayer | projects/jakubdob/ngx-canvas-grid/src/lib/ngx-canvas-grid.component.ts:474-492 | The flagged branch, with the same result as `RenderLayer`. |
| CanvasGrid.CanvasGridComponent.RedrawAllCells | projects/jakubdob/ngx-canvas-grid/src/lib/ngx-canvas-grid.component.ts:484-488 | Resolves the queues, draws every cell, and clears the one-shot set and the flag. |
| CanvasGrid.CanvasGridComponent.RedrawDirtyCells | projects/jakubdob/ngx-canvas-grid/src/lib/ngx-canvas-grid.component.ts:496-513 | The dirty branch: the layer's queues are resolved and its one-shot set drained, and the trace grows by the dirty redraw of the resolved one-shot and persistent sets. `redrawIndices` is empty again. |
| CanvasGrid.CanvasGridComponent.DrawThroughRedrawIndices | projects/jakubdob/ngx-canvas-grid/src/lib/ngx-canvas-grid.component.ts:498-511 | Fills `redrawIndices`, draws through it, and empties it. |
| CanvasGrid.CanvasGridComponent.Render | projects/jakubdob/ngx-canvas-grid/src/lib/ngx-canvas-grid.component.ts:466-519 | A worked frame makes every layer `FrameLayer` and appends `FrameTrace`, then a frame request; it records the timestamp. A skipped frame only requests the next one. |
| CanvasGrid.CanvasGridComponent.RenderLayers | projects/jakubdob/ngx-canvas-grid/src/lib/ngx-canvas-grid.component.ts:472-515 | The loop over the layers gives `FrameLayers` and `FrameTrace`, in layer order. |
| CanvasGrid.CanvasGridComponent.RenderNext | projects/jakubdob/ngx-canvas-grid/src/lib/ngx-canvas-grid.component.ts:472-515 | One turn of the loop advances the frame by one layer. |
| CanvasGrid.CanvasGridComponent.OnCanvasResize | projects/jakubdob/ngx-canvas-grid/src/lib/ngx-canvas-grid.component.ts:235-237 | The layers become `Resized`. |
| CanvasGrid.CanvasGridComponent.OnPointerMove | projects/jakubdob/ngx-canvas-grid/src/lib/ngx-canvas-grid.component.ts:326-356 | State and events follow `PointerMove`. |
| CanvasGrid.CanvasGridComponent.MoveOver | projects/jakubdob/ngx-canvas-grid/src/lib/ngx-canvas-grid.component.ts:331-353 | State and events follow `PointerMove` for a known target. |
| CanvasGrid.CanvasGridComponent.HeldByActivePointer | projects/jakubdob/ngx-canvas-grid/src/lib/ngx-canvas-grid.component.ts:360-364 | The loop answers whether some active press holds an element equal to the target. |
| CanvasGrid.CanvasGridComponent.OnPointerDown | projects/jakubdob/ngx-canvas-grid/src/lib/ngx-canvas-grid.component.ts:358-369 | The state follows `PointerDown`. |
| CanvasGrid.CanvasGridComponent.OnPointerUp | projects/jakubdob/ngx-canvas-grid/src/lib/ngx-canvas-grid.component.ts:396-427 | State and events follow `PointerUp`. |
| CanvasGrid.CanvasGridComponent.ReleaseOver | projects/jakubdob/ngx-canvas-grid/src/lib/ngx-canvas-grid.component.ts:397-424 | State and events follow `PointerUp` for a known target. |
| CanvasGrid.CanvasGridComponent.OnPointerLeave | projects/jakubdob/ngx-canvas-grid/src/lib/ngx-canvas-grid.component.ts:447-449 | The same as `OnPointerUp`. |
| CanvasGrid.CanvasGridComponent.OnDoubleClick | projects/jakubdob/ngx-canvas-grid/src/lib/ngx-canvas-grid.component.ts:429-445 | Emits a double click on the element under the pointer. |
| CanvasGrid.CanvasGridComponent.OnContextMenu | projects/jakubdob/ngx-canvas-grid/src/lib/ngx-canvas-grid.component.ts:309-324 | Emits a context-menu event on the element under the pointer. |
| CanvasGrid.CanvasGridComponent.OnKeyDown | projects/jakubdob/ngx-canvas-grid/src/lib/ngx-canvas-grid.component.ts:305-307 | Emits the key. |
| LegacyLayers.NewLayer | src/lib/ngx-canvas-grid-builder.ts:69-75 | A new layer is static, unflagged and has empty sets. |
| LegacyLayers.Redrawn | src/lib/ngx-canvas-grid-builder.ts:25-27 | Sets `redrawAll` and changes nothing else. |
| LegacyLayers.AddedToSingleFrame | src/lib/ngx-canvas-grid-builder.ts:29-34 | The one-shot set becomes `Add` of the index (appended last if absent), whatever the kind. Nothing else changes. |
| LegacyLayers.AddedToMultiFrame | src/lib/ngx-canvas-grid-builder.ts:36-41 | The persistent set becomes `Add` of the index (appended last if absent), whatever the kind. Nothing else changes. |
| LegacyLayers.DeletedFromMultiFrame | src/lib/ngx-canvas-grid-builder.ts:43-48 | The persistent set loses the index. Nothing else changes. |
| LegacyLayers.MultiFrameCleared | src/lib/ngx-canvas-grid-builder.ts:50-52 | The persistent set is emptied. Nothing else changes. |
| LegacyLayers.WithStrategy | src/lib/ngx-canvas-grid-builder.ts:54-59 | The draw strategy is replaced. Nothing else changes. |
| LegacyLayers.RedrawnIdempotent | src/lib/ngx-canvas-grid-builder.ts:25-27 | `redrawLayer` twice is once. |
| LegacyLayers.AddedToMultiFrameIdempotent | src/lib/ngx-canvas-grid-builder.ts:36-41 | Adding an index twice is adding it once. |
| LegacyLayers.DeleteUndoesAddToMultiFrame | src/lib/ngx-canvas-grid-builder.ts:36-48 | Deleting an index just added gives back the layer exactly. |
| LegacyLayers.LayerController.constructor | src/lib/ngx-canvas-grid-builder.ts:17-19 | A new controller has no layers. |
| LegacyLayers.LayerController.RedrawLayer | src/lib/ngx-canvas-grid-builder.ts:25-27 | Only the addressed layer changes (layer 0 by default), to `Redrawn`. |
| LegacyLayers.LayerController.AddCellIndexToSingleFrameRedraw | src/lib/ngx-canvas-grid-builder.ts:29-34 | Only the addressed layer changes, to `AddedToSingleFrame`. |
| LegacyLayers.LayerController.AddCellIndexToMultiFrameRedraw | src/lib/ngx-canvas-grid-builder.ts:36-41 | Only the addressed layer changes, to `AddedToMultiFrame`. |
| LegacyLayers.LayerController.DeleteCellIndexFromMultiFrameRedraw | src/lib/ngx-canvas-grid-builder.ts:43-48 | Only the addressed layer changes, to `DeletedFromMultiFrame`. |
| LegacyLayers.LayerController.ClearIndicesFromMultiFrameRedraw | src/lib/ngx-canvas-grid-builder.ts:50-52 | Only the addressed layer changes, to `MultiFrameCleared`. |
| LegacyLayers.LayerController.SetLayerDrawStrategy | src/lib/ngx-canvas-grid-builder.ts:54-59 | Only the addressed layer changes, to `WithStrategy`. |
| LegacyLayers.Builder.constructor | src/lib/ngx-canvas-grid-builder.ts:61-62 | The builder owns a fresh controller without layers. |
| LegacyLayers.Builder.AddLayerDrawnPerCell | src/lib/ngx-canvas-grid-builder.ts:68-77 | Appends a new static per-cell layer. |
| LegacyLayers.Builder.AddLayerDrawnAsWhole | src/lib/ngx-canvas-grid-builder.ts:79-88 | Appends a new static whole-canvas layer. |
| LegacyLayers.Builder.Build | src/lib/ngx-canvas-grid-builder.ts:64-66 | Returns the builder's own controller. |
| LegacyCanvasGrid.FrameLayer | src/lib/ngx-canvas-grid.component.ts:419-470 | After a worked frame, `redrawAll` is off. A per-cell layer has its one-shot set drained and its persistent set kept, whichever branch drew it. |
| LegacyCanvasGrid.DirtyFrameDrawsMarkedOnce | src/lib/ngx-canvas-grid.component.ts:438-456 | A per-cell layer without `redrawAll` draws each marked existing cell exactly once, and no other cell. |
| LegacyCanvasGrid.NextFrameDrawsPersistentOnly | src/lib/ngx-canvas-grid.component.ts:441-456 | The next frame draws exactly the persistent cells. |
| LegacyCanvasGrid.PerCellIgnoresStrategy | src/lib/ngx-canvas-grid.component.ts:438-469 | The draw strategy changes neither the calls nor the result for a per-cell layer. |
| LegacyCanvasGrid.PerFrameLayerDrawnEveryFrame | src/lib/ngx-canvas-grid.component.ts:457-468 | A per-frame whole-canvas layer is cleared and drawn on this frame and the next. |
| LegacyCanvasGrid.StaticLayerDrawnOnce | src/lib/ngx-canvas-grid.component.ts:420-469 | A static whole-canvas layer is drawn only when flagged, and not on the frame after. |
| LegacyCanvasGrid.FrameLayers | src/lib/ngx-canvas-grid.component.ts:419-470 | A worked frame applies `FrameLayer` to every layer. |
| LegacyCanvasGrid.FrameLayersValid | src/lib/ngx-canvas-grid.component.ts:419-470 | A worked frame keeps sets duplicate-free. |
| LegacyCanvasGrid.Resized | src/lib/ngx-canvas-grid.component.ts:231-233 | Every layer gets `redrawAll`, and nothing else changes. |
| LegacyCanvasGrid.ResizeRedrawsEveryLayer | src/lib/ngx-canvas-grid.component.ts:224-235 | The next worked frame clears and redraws every layer in full, whatever its strategy. |
| LegacyCanvasGrid.MouseDown | src/lib/ngx-canvas-grid.component.ts:328-335 | Replaces the press with the target and button. The drag in progress is kept. Nothing is emitted. |
| LegacyCanvasGrid.MouseMove | src/lib/ngx-canvas-grid.component.ts:307-326 | Always a move. A drag follows iff a press is recorded, and then the pressed button becomes the dragging button. |
| LegacyCanvasGrid.MouseUp | src/lib/ngx-canvas-grid.component.ts:362-394 | The press is forgotten. The pressed and dragging buttons are forgotten only when they are the released button. |
| LegacyCanvasGrid.MouseUpEmits | src/lib/ngx-canvas-grid.component.ts:364-386 | A click iff over an element equal to the pressed one. A drop iff pressed and the released button is dragging. Nothing else is emitted, and the click comes before the drop. |
| LegacyCanvasGrid.ClickAndDropBothFire | src/lib/ngx-canvas-grid.component.ts:307-394 | A press, a move on the same element and a release emit a drag, then both a click and a drop, and return to idle. |
| LegacyCanvasGrid.OtherButtonReleaseClicks | src/lib/ngx-canvas-grid.component.ts:362-390 | A release of another button over the pressed element still clicks and keeps the pressed button. A later move does not drag. |
| LegacyCanvasGrid.StaleDragDropsOnPlainClick | src/lib/ngx-canvas-grid.component.ts:375-389 | A drag not ended by the release survives. The next plain click of its button also emits a drop. |
| LegacyCanvasGrid.CanvasGridComponent.CurrentGrid | src/lib/ngx-canvas-grid.component.ts:75-122 | The inputs describe a well-formed grid. |
| LegacyCanvasGrid.CanvasGridComponent.constructor | src/lib/ngx-canvas-grid.component.ts:41-79 | Defaults: 9 by 9 cells of 20 by 20 pixels, gaps of 1, idle mouse, empty traces. |
| LegacyCanvasGrid.CanvasGridComponent.GetTarget | src/lib/ngx-canvas-grid.component.ts:488-522 | The element under the pixel is `TargetAt` of the current grid. |
| LegacyCanvasGrid.CanvasGridComponent.RenderLayer | src/lib/ngx-canvas-grid.component.ts:420-469 | Layer `i` becomes `FrameLayer`, and the trace grows by `FrameCalls`. |
| LegacyCanvasGrid.CanvasGridComponent.RedrawLayer | src/lib/ngx-canvas-grid.component.ts:420-437 | The flagged branch, with the same result as `RenderLayer`. |
| LegacyCanvasGrid.CanvasGridComponent.DrawThroughRedrawIndices | src/lib/ngx-canvas-grid.component.ts:442-455 | Fills `redrawIndices`, draws through it, and empties it. |
| LegacyCanvasGrid.CanvasGridComponent.Render | src/lib/ngx-canvas-grid.component.ts:413-474 | A worked frame makes every layer `FrameLayer`, appends `FrameTrace` and a frame request, and records the timestamp. A skipped frame only requests the next one. |
| LegacyCanvasGrid.CanvasGridComponent.RenderLayers | src/lib/ngx-canvas-grid.component.ts:419-470 | The loop over the layers gives `FrameLayers` and `FrameTrace`. |
| LegacyCanvasGrid.CanvasGridComponent.RenderNext | src/lib/ngx-canvas-grid.component.ts:419-470 | One turn of the loop advances the frame by one layer. |
| LegacyCanvasGrid.CanvasGridComponent.OnCanvasResize | src/lib/ngx-canvas-grid.component.ts:231-233 | The layers become `Resized`. |
| LegacyCanvasGrid.CanvasGridComponent.OnMouseMove | src/lib/ngx-canvas-grid.component.ts:307-326 | State and events follow `MouseMove`. |
| LegacyCanvasGrid.CanvasGridComponent.OnMouseDown | src/lib/ngx-canvas-grid.component.ts:328-335 | The state follows `MouseDown`. |
| LegacyCanvasGrid.CanvasGridComponent.OnMouseUp | src/lib/ngx-canvas-grid.component.ts:362-394 | State and events follow `MouseUp`. |
| LegacyCanvasGrid.CanvasGridComponent.ReleaseOver | src/lib/ngx-canvas-grid.component.ts:364-390 | State and events follow `MouseUp` for a known target. |
| LegacyCanvasGrid.CanvasGridComponent.OnMouseLeave | src/lib/ngx-canvas-grid.component.ts:409-411 | The same as `OnMouseUp`. |
| LegacyCanvasGrid.CanvasGridComponent.OnDoubleClick | src/lib/ngx-canvas-grid.component.ts:396-407 | Emits a double click with the button on the element under the pointer. |
| LegacyCanvasGrid.CanvasGridComponent.OnKeyDown | src/lib/ngx-canvas-grid.component.ts:298-300 | Emits the key. |

## Left out

- Angular machinery is not modelled: signals, `computed`, effects and their scheduling, dependency injection, `ngZone`, the view children, and the `ngAfterViewInit` / `ngOnDestroy` listener wiring and unwiring. The model recomputes derived values from the inputs where the source reads a signal.
- HitTest.CellCentreResolves: covers only cells at least 2 pixels wide and high. Pointer coordinates are integers in the model, so a 1-pixel cell has no centre distinct from its edges. Such a cell's integer midpoint is its leading edge. With no gap before it, that edge also closes the previous cell and resolves to it. The source would test the fractional centre instead.
- GridLayers.Builder.AddLayerDrawnPerCell, GridLayers.Builder.AddLayerDrawnAsWhole, LegacyLayers.Builder.AddLayerDrawnPerCell and LegacyLayers.Builder.AddLayerDrawnAsWhole return nothing, while the builders' `addLayerDrawnPerCell` and `addLayerDrawnAsWhole` return the builder itself so that calls can be chained. A chain of calls is modelled as the same calls made one after another on one builder.
- Input setters and the injected default options are not modelled. The inputs are fields, and the constructors set the built-in defaults.
- The pointer position is taken as canvas pixels. The bounding-rectangle offset and the clamping to the canvas size in `getTargetFromEvent` are outside the model, as are the `pointerX`/`pointerY` payload fields.
- The `movingPointers` map stores the whole event and compares `clientX`/`clientY`. The model stores and compares the canvas position.
- Events carry the target, the position and, where the model needs it, the pointer id or button. The browser event they carry is not modelled.
- `stopPropagation`, `preventDefault` and `focus()` calls are not modelled. The older revision's `onContextMenu` does nothing else and is not modelled.
- The timing in render is not modelled, since it is floating-point arithmetic: `dt`, `fps`, `deltaTime`, `elapsedTime`. The throttle test `fps < fpsThrottle` is a boolean parameter `worked`.
- Canvas calls and the layer callbacks' drawing are not modelled. A frame is the trace of calls it makes, and cells are identified by index. The `contexts` array, the canvas resizing in the resize effect and its `lastCanvasLayer` guard are not modelled.
- The `canvasSizeChanged` emit effect is not modelled. The canvas extent it reports is modelled as `Geometry.CanvasExtent`.
- Cell indices, rows and columns are `nat`. A negative index passed to the controller is outside the model. Layer indices must be in range: the source does not check them and fails on a missing layer.
- Cell widths, heights and gap sizes are integers. The source floors width and height inputs.
- `Geometry.GapOffset` models the running `x`/`y` offset of a gap record as the loop computes it. No property is claimed about it, because the hit test and the layout never read it.
- The `state` object passed to draw callbacks, the text helpers, the types file and the demo application are not part of this model.
- CanvasGrid.FrameCalls and LegacyCanvasGrid.FrameCalls carry no contract of their own. What they draw is stated by the lemmas beside them: `FlaggedPerCellDrawsEveryCellOnce`, `FlaggedWholeCanvasDrawsOnce`, `UnflaggedWholeCanvasDrawsNothing`, `DirtyFrameDrawsPendingOnce`, `NextFrameDrawsPersistentOnly`, `ResizeRedrawsEveryLayer` and, in the older revision, `DirtyFrameDrawsMarkedOnce`, `PerFrameLayerDrawnEveryFrame` and `StaticLayerDrawnOnce`.
