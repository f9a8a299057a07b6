/** The current revision's component: the per-frame render decision over the
    layers it shares with a `LayerController`, the lazy resolution of queued
    grid positions, the resize effect and the per-pointer press, drag and
    click machine. Canvas calls and emitted events are appended to traces. */
module CanvasGrid {
  import opened InsertionSet
  import opened Geometry
  import opened HitTest
  import opened LayerDrawing
  import opened GridLayers

  // ---------------------------------------------------------------------------
  // Deferred grid positions

  /** The cell index a queued position stands for under `cols` columns. */
  function PosIndex(p: GridPos, cols: nat): nat {
    p.row * cols + p.col
  }

  /** The indices of a queue of positions, resolved with one column count. */
  function PosSet(ps: seq<GridPos>, cols: nat): set<nat> {
    set p | p in ps :: PosIndex(p, cols)
  }

  /** A queue mapped to cell indices, in queue order. */
  function PosIndices(ps: seq<GridPos>, cols: nat): (r: seq<nat>)
    ensures |r| == |ps|
    ensures forall k {:trigger r[k]} :: 0 <= k < |ps| ==> r[k] == PosIndex(ps[k], cols)
    ensures Elems(r) == PosSet(ps, cols)
  {
    var r := seq(|ps|, k requires 0 <= k < |ps| => PosIndex(ps[k], cols));
    assert forall p | p in ps :: PosIndex(p, cols) in r by {
      forall p | p in ps ensures PosIndex(p, cols) in r {
        var k :| 0 <= k < |ps| && ps[k] == p;
        assert r[k] == PosIndex(p, cols);
      }
    }
    r
  }

  /** The layer after `updateDeferredLayerIndices`: every queued position is
      resolved with the column count of this frame; the one-shot set gains
      its queue, the persistent set gains its queue and then loses the
      positions queued for deletion; all three queues are emptied. */
  function ResolveDeferred(l: LayerState, cols: nat): (r: LayerState)
    ensures r.singleFrameCellGridPos == [] && r.multiFrameCellGridPos == [] && r.delMultiFrameCellGridPos == []
    ensures r.kind == l.kind && r.redrawAll == l.redrawAll && r.redrawPerFrame == l.redrawPerFrame
    ensures Elems(r.singleFrameCellIndices)
         == Elems(l.singleFrameCellIndices) + PosSet(l.singleFrameCellGridPos, cols)
    ensures Elems(r.multiFrameCellIndices)
         == (Elems(l.multiFrameCellIndices) + PosSet(l.multiFrameCellGridPos, cols))
            - PosSet(l.delMultiFrameCellGridPos, cols)
    ensures |l.singleFrameCellIndices| <= |r.singleFrameCellIndices|
    ensures r.singleFrameCellIndices[..|l.singleFrameCellIndices|] == l.singleFrameCellIndices
    ensures l.Valid() ==> r.Valid()
  {
    l.(singleFrameCellIndices := AddAll(l.singleFrameCellIndices, PosIndices(l.singleFrameCellGridPos, cols)),
       multiFrameCellIndices := DeleteAll(AddAll(l.multiFrameCellIndices, PosIndices(l.multiFrameCellGridPos, cols)),
                                          PosIndices(l.delMultiFrameCellGridPos, cols)),
       singleFrameCellGridPos := [],
       multiFrameCellGridPos := [],
       delMultiFrameCellGridPos := [])
  }

  /** A position queued for deletion is absent from the persistent set once
      the queues are resolved, even when the same window also queued it, or
      marked its index, for every frame. */
  lemma QueuedDeleteWins(l: LayerState, cols: nat, p: GridPos)
    requires p in l.delMultiFrameCellGridPos
    ensures PosIndex(p, cols) !in ResolveDeferred(l, cols).multiFrameCellIndices
  {
    assert PosIndex(p, cols) in PosSet(l.delMultiFrameCellGridPos, cols);
    assert PosIndex(p, cols) !in Elems(ResolveDeferred(l, cols).multiFrameCellIndices);
  }

  /** A queued position is resolved with the column count of the frame that
      consumes it: the same queue names different cells before and after the
      column count changes. */
  lemma ResolveUsesCurrentCols()
    ensures ResolveDeferred(NewLayer(PerCell).(singleFrameCellGridPos := [GridPos(1, 2)]), 9).singleFrameCellIndices == [11]
    ensures ResolveDeferred(NewLayer(PerCell).(singleFrameCellGridPos := [GridPos(1, 2)]), 5).singleFrameCellIndices == [7]
  {
    assert PosIndices([GridPos(1, 2)], 9) == [11];
    assert PosIndices([GridPos(1, 2)], 5) == [7];
  }

  /** Appending in two steps is appending the two parts at once. */
  lemma Appended(calls: seq<DrawCall>, first: seq<DrawCall>, second: seq<DrawCall>)
    ensures calls + first + second == calls + (first + second)
  {
  }

  /** Writing one slot twice leaves the second value. */
  lemma UpdatedTwice(layers: seq<LayerState>, i: nat, first: LayerState, second: LayerState)
    requires i < |layers|
    ensures layers[i := first][i := second] == layers[i := second]
  {
  }

  // ---------------------------------------------------------------------------
  // One frame of render

  /** The layer asks for a full redraw. */
  predicate Flagged(l: LayerState) {
    l.redrawAll || l.redrawPerFrame
  }

  /** The layer after one worked frame: `redrawAll` is reset and
      `redrawPerFrame` kept; a per-cell layer has its queues resolved and its
      one-shot set drained, its persistent set kept; a whole-canvas layer keeps
      its sets and queues. */
  function FrameLayer(l: LayerState, cols: nat): (r: LayerState)
    ensures !r.redrawAll && r.redrawPerFrame == l.redrawPerFrame && r.kind == l.kind
    ensures l.kind == PerCell ==>
      && r.singleFrameCellIndices == []
      && r.singleFrameCellGridPos == [] && r.multiFrameCellGridPos == [] && r.delMultiFrameCellGridPos == []
      && r.multiFrameCellIndices == ResolveDeferred(l, cols).multiFrameCellIndices
    ensures l.kind == WholeCanvas ==> r == l.(redrawAll := false)
    ensures l.Valid() ==> r.Valid()
  {
    if l.kind == PerCell then ResolveDeferred(l, cols).(singleFrameCellIndices := [], redrawAll := false)
    else l.(redrawAll := false)
  }

  /** The canvas calls one worked frame makes for layer `layer`: a flagged
      layer is cleared and then drawn whole, cell by cell in index order for a
      per-cell layer; an unflagged per-cell layer redraws its dirty cells; an
      unflagged whole-canvas layer makes no call. */
  function FrameCalls(l: LayerState, layer: nat, length: nat, cols: nat): (t: seq<DrawCall>)
  {
    if Flagged(l) then
      [ClearLayer(layer)] + (if l.kind == PerCell then AllCellsTrace(layer, length) else [DrawWhole(layer)])
    else if l.kind == PerCell then
      var resolved := ResolveDeferred(l, cols);
      DirtyTrace(layer, InRange(RedrawSet(resolved.singleFrameCellIndices, resolved.multiFrameCellIndices), length))
    else
      []
  }

  /** An unflagged per-cell layer draws, exactly once each, the existing cells
      that are marked or queued for this frame or for every frame, less those
      queued for deletion from the persistent set. */
  lemma DirtyFrameDrawsPendingOnce(l: LayerState, layer: nat, length: nat, cols: nat, k: nat)
    requires !Flagged(l) && l.kind == PerCell
    ensures multiset(FrameCalls(l, layer, length, cols))[DrawCell(layer, k)]
         == if k < length && (k in Elems(l.singleFrameCellIndices) + PosSet(l.singleFrameCellGridPos, cols)
                              || k in (Elems(l.multiFrameCellIndices) + PosSet(l.multiFrameCellGridPos, cols))
                                      - PosSet(l.delMultiFrameCellGridPos, cols))
            then 1 else 0
  {
    var resolved := ResolveDeferred(l, cols);
    DirtyRedrawDrawsEachOnce(layer, resolved.singleFrameCellIndices, resolved.multiFrameCellIndices, length, k);
    assert k in resolved.singleFrameCellIndices <==> k in Elems(resolved.singleFrameCellIndices);
    assert k in resolved.multiFrameCellIndices <==> k in Elems(resolved.multiFrameCellIndices);
  }

  /** The frame after a worked frame redraws exactly the persistent set: the
      one-shot marks were drained, the persistent marks were kept. */
  lemma NextFrameDrawsPersistentOnly(l: LayerState, layer: nat, length: nat, cols: nat, k: nat)
    requires l.kind == PerCell && !l.redrawPerFrame
    ensures multiset(FrameCalls(FrameLayer(l, cols), layer, length, cols))[DrawCell(layer, k)]
         == if k < length && k in ResolveDeferred(l, cols).multiFrameCellIndices then 1 else 0
  {
    var next := FrameLayer(l, cols);
    DirtyFrameDrawsPendingOnce(next, layer, length, cols, k);
    assert PosSet([], cols) == {};
    assert k in next.multiFrameCellIndices <==> k in Elems(next.multiFrameCellIndices);
  }

  /** An unflagged per-cell layer: the frame resolves the queues, draws the
      dirty cells of the resolved sets and drains the resolved one-shot set. */
  lemma DirtyFrame(l: LayerState, layer: nat, length: nat, cols: nat)
    requires !Flagged(l) && l.kind == PerCell
    ensures var resolved := ResolveDeferred(l, cols);
      && FrameCalls(l, layer, length, cols)
         == DirtyTrace(layer, InRange(RedrawSet(resolved.singleFrameCellIndices, resolved.multiFrameCellIndices), length))
      && FrameLayer(l, cols) == resolved.(singleFrameCellIndices := [])
  {
  }

  /** A flagged layer is cleared and drawn whole, and leaves the frame
      unflagged, with a per-cell layer's deferred positions resolved and its
      one-shot set emptied. */
  lemma FlaggedFrame(l: LayerState, layer: nat, length: nat, cols: nat)
    requires Flagged(l)
    ensures FrameCalls(l, layer, length, cols)
         == [ClearLayer(layer)] + (if l.kind == PerCell then AllCellsTrace(layer, length) else [DrawWhole(layer)])
    ensures FrameLayer(l, cols)
         == if l.kind == PerCell then ResolveDeferred(l, cols).(singleFrameCellIndices := [], redrawAll := false)
            else l.(redrawAll := false)
  {
  }

  /** A flagged per-cell layer clears the whole layer first and then draws
      every existing cell exactly once, whatever its marks and queues hold. */
  lemma FlaggedPerCellDrawsEveryCellOnce(l: LayerState, layer: nat, length: nat, cols: nat, k: nat)
    requires Flagged(l) && l.kind == PerCell
    ensures |FrameCalls(l, layer, length, cols)| == length + 1
    ensures FrameCalls(l, layer, length, cols)[0] == ClearLayer(layer)
    ensures multiset(FrameCalls(l, layer, length, cols))[ClearLayer(layer)] == 1
    ensures multiset(FrameCalls(l, layer, length, cols))[DrawCell(layer, k)] == if k < length then 1 else 0
  {
    FlaggedFrame(l, layer, length, cols);
    AllCellsDrawEachOnce(layer, length, k);
    assert ClearLayer(layer) !in AllCellsTrace(layer, length);
  }

  /** A flagged whole-canvas layer is cleared and drawn whole, once. */
  lemma FlaggedWholeCanvasDrawsOnce(l: LayerState, layer: nat, length: nat, cols: nat)
    requires Flagged(l) && l.kind == WholeCanvas
    ensures FrameCalls(l, layer, length, cols) == [ClearLayer(layer), DrawWhole(layer)]
  {
    FlaggedFrame(l, layer, length, cols);
  }

  /** An unflagged whole-canvas layer draws nothing: only per-cell layers
      have dirty cells. */
  lemma UnflaggedWholeCanvasDrawsNothing(l: LayerState, layer: nat, length: nat, cols: nat)
    requires !Flagged(l) && l.kind == WholeCanvas
    ensures FrameCalls(l, layer, length, cols) == []
    ensures FrameLayer(l, cols) == l
  {
  }

  /** Every layer after one worked frame. */
  function FrameLayers(layers: seq<LayerState>, cols: nat): (r: seq<LayerState>)
    ensures |r| == |layers|
    ensures forall i :: 0 <= i < |layers| ==> r[i] == FrameLayer(layers[i], cols)
  {
    seq(|layers|, i requires 0 <= i < |layers| => FrameLayer(layers[i], cols))
  }

  /** A worked frame keeps every layer's sets duplicate-free. */
  lemma FrameLayersValid(layers: seq<LayerState>, cols: nat)
    requires forall i :: 0 <= i < |layers| ==> layers[i].Valid()
    ensures forall i :: 0 <= i < |layers| ==> FrameLayers(layers, cols)[i].Valid()
  {
    forall i | 0 <= i < |layers|
      ensures FrameLayers(layers, cols)[i].Valid()
    {
      assert FrameLayers(layers, cols)[i] == FrameLayer(layers[i], cols);
    }
  }

  /** The layers part-way through a worked frame: layers below `n` are done. */
  function PartlyFramed(layers: seq<LayerState>, n: nat, cols: nat): (r: seq<LayerState>)
    ensures |r| == |layers|
  {
    seq(|layers|, j requires 0 <= j < |layers| => if j < n then FrameLayer(layers[j], cols) else layers[j])
  }

  /** Rendering layer `n` moves the frame on by one layer. */
  lemma PartlyFramedStep(layers: seq<LayerState>, n: nat, cols: nat)
    requires n < |layers|
    ensures PartlyFramed(layers, n, cols)[n := FrameLayer(layers[n], cols)] == PartlyFramed(layers, n + 1, cols)
  {
  }

  /** No layer done is the layers as they were; all done is the frame. */
  lemma PartlyFramedEnds(layers: seq<LayerState>, cols: nat)
    ensures PartlyFramed(layers, 0, cols) == layers
    ensures PartlyFramed(layers, |layers|, cols) == FrameLayers(layers, cols)
  {
  }

  /** The calls of one worked frame for layers `0 .. n-1`, in layer order. */
  function FrameTrace(layers: seq<LayerState>, n: nat, length: nat, cols: nat): (t: seq<DrawCall>)
    requires n <= |layers|
  {
    if n == 0 then []
    else FrameTrace(layers, n - 1, length, cols) + FrameCalls(layers[n - 1], n - 1, length, cols)
  }

  /** Rendering layer `n` appends that layer's calls to the frame's trace. */
  lemma FrameTraceStep(before: seq<DrawCall>, layers: seq<LayerState>, n: nat, length: nat, cols: nat)
    requires n < |layers|
    ensures before + FrameTrace(layers, n + 1, length, cols)
         == (before + FrameTrace(layers, n, length, cols)) + FrameCalls(layers[n], n, length, cols)
  {
  }

  /** Every layer with `redrawAll` set: the outcome of the resize effect. */
  function Resized(layers: seq<LayerState>): (r: seq<LayerState>)
    ensures |r| == |layers|
    ensures forall i :: 0 <= i < |layers| ==> r[i] == layers[i].(redrawAll := true)
  {
    seq(|layers|, i requires 0 <= i < |layers| => layers[i].(redrawAll := true))
  }

  /** After a resize the next worked frame clears every layer and draws it
      whole, every cell of a per-cell layer in index order. */
  lemma ResizeRedrawsEveryLayer(layers: seq<LayerState>, i: nat, length: nat, cols: nat)
    requires i < |layers|
    ensures FrameCalls(Resized(layers)[i], i, length, cols)
         == [ClearLayer(i)] + (if layers[i].kind == PerCell then AllCellsTrace(i, length) else [DrawWhole(i)])
  {
  }

  // ---------------------------------------------------------------------------
  // Pointers

  /** `PointerPixelPos`: a pointer position in canvas pixels. */
  datatype PointerPos = PointerPos(x: int, y: int)

  /** An entry of `activeElementsByPtrId`: the pressed element and where. */
  datatype Press = Press(element: Element, x: int, y: int)

  /** What the component emits. */
  datatype GridEvent =
    | Move(pointerId: int, target: Element, x: int, y: int)
    | Click(pointerId: int, target: Element, x: int, y: int)
    | DoubleClick(target: Element, x: int, y: int)
    | Drag(pointerId: int, from: Element, to: Element, x: int, y: int)
    | Drop(pointerId: int, from: Element, to: Element, x: int, y: int)
    | KeyDown(key: string)
    | ContextMenu(target: Element, x: int, y: int)

  /** The pointer bookkeeping: pressed elements by pointer id, the ids that
      are dragging, and the last position seen for each pointer. */
  datatype Pointers = Pointers(active: map<int, Press>, dragged: set<int>, moving: map<int, PointerPos>)
  {
    /** Only pressed pointers drag, and no two pointers hold equal elements. */
    predicate Valid() {
      && dragged <= active.Keys
      && forall a, b :: a in active && b in active && a != b ==>
           !EqualElements(active[a].element, active[b].element)
    }

    /** Some pointer already holds an element equal to `target`. */
    predicate Holds(target: Element) {
      exists id :: id in active && EqualElements(active[id].element, target)
    }
  }

  /** The bookkeeping after a handler, and the events it emitted. */
  datatype Step = Step(pointers: Pointers, emitted: seq<GridEvent>)

  /** `onPointerDown`: a press on an element some pointer already holds is
      ignored; otherwise the pointer records the element and position. */
  function PointerDown(s: Pointers, id: int, x: int, y: int, target: Element): (r: Step)
    ensures r.emitted == []
    ensures s.Holds(target) ==> r.pointers == s
    ensures !s.Holds(target) ==>
      && r.pointers.active.Keys == s.active.Keys + {id}
      && r.pointers.active[id] == Press(target, x, y)
      && forall k | k in s.active && k != id :: r.pointers.active[k] == s.active[k]
    ensures r.pointers.dragged == s.dragged && r.pointers.moving == s.moving
    ensures s.Valid() ==> r.pointers.Valid()
  {
    if s.Holds(target) then Step(s, [])
    else Step(s.(active := s.active[id := Press(target, x, y)]), [])
  }

  /** The press-to-move condition as written: both coordinates differ from the
      press position. */
  predicate StartsDrag(s: Pointers, id: int, x: int, y: int) {
    id in s.active && s.active[id].x != x && s.active[id].y != y
  }

  /** `onPointerMove`: a move to the position last seen for the pointer does
      nothing; otherwise it is recorded and a move is emitted, followed by a
      drag, which marks the pointer dragging, when the pointer is pressed and
      both coordinates differ from the press position. */
  function PointerMove(s: Pointers, id: int, x: int, y: int, target: Element): (r: Step)
    ensures id in s.moving && s.moving[id] == PointerPos(x, y) ==> r == Step(s, [])
    ensures !(id in s.moving && s.moving[id] == PointerPos(x, y)) ==>
      && r.pointers.moving == s.moving[id := PointerPos(x, y)]
      && 1 <= |r.emitted| <= 2
      && r.emitted[0] == Move(id, target, x, y)
      && (|r.emitted| == 2 <==> StartsDrag(s, id, x, y))
      && (|r.emitted| == 2 ==> r.emitted[1] == Drag(id, s.active[id].element, target, x, y))
      && r.pointers.dragged == s.dragged + (if StartsDrag(s, id, x, y) then {id} else {})
    ensures r.pointers.active == s.active
    ensures s.Valid() ==> r.pointers.Valid()
  {
    if id in s.moving && s.moving[id] == PointerPos(x, y) then Step(s, [])
    else
      var moved := s.(moving := s.moving[id := PointerPos(x, y)]);
      if StartsDrag(s, id, x, y) then
        Step(moved.(dragged := s.dragged + {id}),
             [Move(id, target, x, y), Drag(id, s.active[id].element, target, x, y)])
      else
        Step(moved, [Move(id, target, x, y)])
  }

  /** `onPointerUp`, and `onPointerLeave`, which is the same handler: for a
      pressed pointer, a click when it is not dragging and is released over an
      element equal to the pressed one, a drop when it is dragging; either way
      the pointer's press is forgotten. An unpressed pointer changes nothing. */
  function PointerUp(s: Pointers, id: int, x: int, y: int, target: Element): (r: Step)
    ensures id !in s.active ==> r == Step(s, [])
    ensures id in s.active ==>
      && r.pointers.active == s.active - {id}
      && r.pointers.moving == s.moving
      && r.pointers.dragged == s.dragged - {id}
      && (r.emitted == [Click(id, target, x, y)] <==> id !in s.dragged && EqualElements(target, s.active[id].element))
      && (r.emitted == [Drop(id, s.active[id].element, target, x, y)] <==> id in s.dragged)
      && (r.emitted == [] <==> id !in s.dragged && !EqualElements(target, s.active[id].element))
    ensures s.Valid() ==> r.pointers.Valid() && id !in r.pointers.dragged
  {
    if id !in s.active then Step(s, [])
    else
      var press := s.active[id];
      var drags := id in s.dragged;
      var emitted :=
        if !drags && EqualElements(target, press.element) then [Click(id, target, x, y)]
        else if drags then [Drop(id, press.element, target, x, y)]
        else [];
      Step(s.(active := s.active - {id}, dragged := if drags then s.dragged - {id} else s.dragged), emitted)
  }

  /** A press and a release over equal elements, with no move between them,
      emit exactly one click and forget the press. */
  lemma ClickWithoutMove(s: Pointers, id: int, x: int, y: int, x': int, y': int, pressed: Element, released: Element)
    requires s.Valid() && id !in s.active && !s.Holds(pressed)
    requires EqualElements(released, pressed)
    ensures var up := PointerUp(PointerDown(s, id, x, y, pressed).pointers, id, x', y', released);
      up.emitted == [Click(id, released, x', y')] && up.pointers.active == s.active
  {
    var down := PointerDown(s, id, x, y, pressed).pointers;
    assert id !in down.dragged;
    assert down.active - {id} == s.active;
  }

  /** A move along a row (same y) from a pressed cell onto a different cell
      starts no drag, and the release then emits neither click nor drop: only
      the move event is emitted for the whole gesture. */
  lemma HorizontalDragIsSilent(s: Pointers, id: int, x: int, y: int, x': int, a: Element, b: Element)
    requires s.Valid() && id !in s.active && id !in s.moving && !s.Holds(a)
    requires x' != x && !EqualElements(b, a)
    ensures var down := PointerDown(s, id, x, y, a);
            var move := PointerMove(down.pointers, id, x', y, b);
            var up := PointerUp(move.pointers, id, x', y, b);
      down.emitted == [] && move.emitted == [Move(id, b, x', y)] && up.emitted == []
  {
    var down := PointerDown(s, id, x, y, a).pointers;
    assert id !in down.dragged;
    assert !StartsDrag(down, id, x', y);
  }

  /** A move in both coordinates from a press emits a drag from the pressed
      element, and the release then emits a drop, not a click, even over the
      element pressed. */
  lemma DragThenDrop(s: Pointers, id: int, x: int, y: int, x': int, y': int, a: Element, b: Element)
    requires s.Valid() && id !in s.active && id !in s.moving && !s.Holds(a)
    requires x' != x && y' != y
    ensures var down := PointerDown(s, id, x, y, a);
            var move := PointerMove(down.pointers, id, x', y', b);
            var up := PointerUp(move.pointers, id, x', y', b);
      && move.emitted == [Move(id, b, x', y'), Drag(id, a, b, x', y')]
      && up.emitted == [Drop(id, a, b, x', y')]
      && id !in up.pointers.active && id !in up.pointers.dragged
  {
    var down := PointerDown(s, id, x, y, a).pointers;
    assert StartsDrag(down, id, x', y');
  }

  /** A second move to the same position emits nothing. */
  lemma RepeatedMoveIsSilent(s: Pointers, id: int, x: int, y: int, t: Element, t': Element)
    ensures PointerMove(PointerMove(s, id, x, y, t).pointers, id, x, y, t').emitted == []
  {
  }

  // ---------------------------------------------------------------------------
  // The component

  class CanvasGridComponent {
    var rows: nat
    var cols: nat
    var cellWidth: int
    var cellHeight: int
    var gapSize: GapSpec
    /** The controller whose `layers` array the component reads and updates:
        the application and render share it. */
    const controller: LayerController
    var redrawIndices: seq<nat>
    var lastRenderTime: int
    /** The canvas calls made so far. */
    var trace: seq<DrawCall>
    var activeElementsByPtrId: map<int, Press>
    var draggedPointerIds: set<int>
    var movingPointers: map<int, PointerPos>
    /** The events emitted so far. */
    var events: seq<GridEvent>

    /** The grid the inputs describe. */
    function CurrentGrid(): (g: Grid)
      reads this`rows, this`cols, this`cellWidth, this`cellHeight, this`gapSize
      ensures g.WellFormed()
    {
      GridOf(rows, cols, cellWidth, cellHeight, gapSize)
    }

    /** `_length`: the number of cells. */
    function Length(): nat
      reads this`rows, this`cols
    {
      rows * cols
    }

    function PointerState(): Pointers
      reads this`activeElementsByPtrId, this`draggedPointerIds, this`movingPointers
    {
      Pointers(activeElementsByPtrId, draggedPointerIds, movingPointers)
    }

    /** Between handler calls and frames: the layers' sets are sets, the
        shared `redrawIndices` set is empty, and the pointer bookkeeping is
        consistent. */
    ghost predicate Valid()
      reads this, controller
    {
      controller.Valid() && redrawIndices == [] && PointerState().Valid()
    }

    /** The component with the default inputs: 9 by 9 cells of 20 by 20
        pixels and gaps of 1. */
    constructor (controller: LayerController)
      requires controller.Valid()
      ensures this.controller == controller && Valid()
      ensures rows == 9 && cols == 9 && cellWidth == 20 && cellHeight == 20 && gapSize == Uniform(1)
      ensures lastRenderTime == 0 && trace == [] && events == []
      ensures activeElementsByPtrId == map[] && draggedPointerIds == {} && movingPointers == map[]
    {
      rows, cols := 9, 9;
      cellWidth, cellHeight := 20, 20;
      gapSize := Uniform(1);
      this.controller := controller;
      redrawIndices := [];
      lastRenderTime := 0;
      trace := [];
      activeElementsByPtrId := map[];
      draggedPointerIds := {};
      movingPointers := map[];
      events := [];
    }

    /** `getTargetFromEvent` for a canvas pixel: builds the gap tables of the
        current inputs and resolves the pixel. */
    method GetTarget(x: int, y: int) returns (e: Element)
      ensures e == TargetAt(CurrentGrid(), x, y)
    {
      var rowGaps := ComputeGapTable(gapSize, RowAxis, rows, cellHeight);
      var colGaps := ComputeGapTable(gapSize, ColAxis, cols, cellWidth);
      e := GetTargetFromEvent(Grid(rows, cols, cellWidth, cellHeight, rowGaps, colGaps), x, y);
    }

    /** `updateDeferredLayerIndices` on layer `i`. */
    method UpdateDeferredLayerIndices(i: nat)
      requires i < |controller.layers|
      modifies controller`layers
      ensures controller.layers == old(controller.layers)[i := ResolveDeferred(old(controller.layers[i]), cols)]
    {
      var l := controller.layers[i];
      var single := AddEach(l.singleFrameCellIndices, PosIndices(l.singleFrameCellGridPos, cols));
      l := l.(singleFrameCellIndices := single, singleFrameCellGridPos := []);
      var multi := AddEach(l.multiFrameCellIndices, PosIndices(l.multiFrameCellGridPos, cols));
      l := l.(multiFrameCellIndices := multi, multiFrameCellGridPos := []);
      multi := DeleteEach(l.multiFrameCellIndices, PosIndices(l.delMultiFrameCellGridPos, cols));
      l := l.(multiFrameCellIndices := multi, delMultiFrameCellGridPos := []);
      controller.layers := controller.layers[i := l];
    }

    /** The body of render's loop for layer `i`. */
    method RenderLayer(i: nat)
      requires redrawIndices == [] && i < |controller.layers|
      modifies controller`layers, this`trace, this`redrawIndices
      ensures redrawIndices == []
      ensures controller.layers == old(controller.layers)[i := FrameLayer(old(controller.layers[i]), cols)]
      ensures trace == old(trace) + FrameCalls(old(controller.layers[i]), i, Length(), cols)
    {
      var layer := controller.layers[i];
      if layer.redrawAll || layer.redrawPerFrame {
        RedrawLayer(i);
      } else if layer.kind == PerCell {
        DirtyFrame(layer, i, Length(), cols);
        RedrawDirtyCells(i);
      }
    }

    /** A flagged layer: cleared, then drawn whole. */
    method RedrawLayer(i: nat)
      requires i < |controller.layers| && Flagged(controller.layers[i])
      modifies controller`layers, this`trace
      ensures controller.layers == old(controller.layers)[i := FrameLayer(old(controller.layers[i]), cols)]
      ensures trace == old(trace) + FrameCalls(old(controller.layers[i]), i, Length(), cols)
    {
      ghost var calls := trace;
      var l := controller.layers[i];
      FlaggedFrame(l, i, Length(), cols);
      trace := trace + [ClearLayer(i)];
      if l.kind == PerCell {
        RedrawAllCells(i);
        Appended(calls, [ClearLayer(i)], AllCellsTrace(i, Length()));
      } else {
        trace := trace + [DrawWhole(i)];
        Appended(calls, [ClearLayer(i)], [DrawWhole(i)]);
        controller.layers := controller.layers[i := l.(redrawAll := false)];
      }
    }

    /** The per-cell branch of a flagged layer: the deferred positions are
        resolved, every cell is drawn in index order, and the one-shot set and
        the flag are cleared. */
    method RedrawAllCells(i: nat)
      requires i < |controller.layers| && controller.layers[i].kind == PerCell
      modifies controller`layers, this`trace
      ensures controller.layers == old(controller.layers)[i :=
        ResolveDeferred(old(controller.layers[i]), cols).(singleFrameCellIndices := [], redrawAll := false)]
      ensures trace == old(trace) + AllCellsTrace(i, Length())
    {
      UpdateDeferredLayerIndices(i);
      var drawn := DrawAllCells(i, Length());
      trace := trace + drawn;
      controller.layers := controller.layers[i := controller.layers[i].(singleFrameCellIndices := [])];
      controller.layers := controller.layers[i := controller.layers[i].(redrawAll := false)];
    }

    /** An unflagged per-cell layer: its dirty cells. */
    method RedrawDirtyCells(i: nat)
      requires redrawIndices == [] && i < |controller.layers|
      requires !Flagged(controller.layers[i]) && controller.layers[i].kind == PerCell
      modifies controller`layers, this`trace, this`redrawIndices
      ensures redrawIndices == []
      ensures var resolved := ResolveDeferred(old(controller.layers[i]), cols);
        && controller.layers == old(controller.layers)[i := resolved.(singleFrameCellIndices := [])]
        && trace == old(trace) + DirtyTrace(i, InRange(RedrawSet(resolved.singleFrameCellIndices, resolved.multiFrameCellIndices), Length()))
    {
      ghost var before := controller.layers;
      UpdateDeferredLayerIndices(i);
      var l := controller.layers[i];
      DrawThroughRedrawIndices(i, l.singleFrameCellIndices, l.multiFrameCellIndices);
      controller.layers := controller.layers[i := l.(singleFrameCellIndices := [])];
      UpdatedTwice(before, i, l, l.(singleFrameCellIndices := []));
    }

    /** Collects the one-shot and then the persistent indices of layer `i` into
        `redrawIndices`, redraws the existing cells among them, and empties
        `redrawIndices` again. */
    method DrawThroughRedrawIndices(i: nat, single: seq<nat>, multi: seq<nat>)
      requires redrawIndices == []
      modifies this`trace, this`redrawIndices
      ensures redrawIndices == []
      ensures trace == old(trace) + DirtyTrace(i, InRange(RedrawSet(single, multi), Length()))
    {
      redrawIndices := CollectRedrawIndices(redrawIndices, single, multi);
      var drawn := RedrawIndices(i, redrawIndices, Length());
      trace := trace + drawn;
      redrawIndices := [];
    }

    /** `render(timestamp)`: when the frame does work, every layer in order,
        and the time of this frame is remembered; a frame skipped by the
        throttle changes nothing. Either way the next frame is requested. */
    method Render(timestamp: int, worked: bool)
      requires Valid()
      modifies controller`layers, this`trace, this`redrawIndices, this`lastRenderTime
      ensures Valid()
      ensures worked ==>
        && controller.layers == FrameLayers(old(controller.layers), cols)
        && trace == old(trace) + FrameTrace(old(controller.layers), |old(controller.layers)|, Length(), cols) + [RequestFrame]
        && lastRenderTime == timestamp
      ensures !worked ==>
        && controller.layers == old(controller.layers)
        && trace == old(trace) + [RequestFrame]
        && lastRenderTime == old(lastRenderTime)
    {
      if worked {
        RenderLayers();
        lastRenderTime := timestamp;
        FrameLayersValid(old(controller.layers), cols);
      }
      trace := trace + [RequestFrame];
    }

    /** The loop of a worked frame over the layers, in layer order. */
    method RenderLayers()
      requires redrawIndices == []
      modifies controller`layers, this`trace, this`redrawIndices
      ensures redrawIndices == []
      ensures controller.layers == FrameLayers(old(controller.layers), cols)
      ensures trace == old(trace) + FrameTrace(old(controller.layers), |old(controller.layers)|, Length(), cols)
    {
      ghost var before := controller.layers;
      PartlyFramedEnds(before, cols);
      var i := 0;
      while i < |controller.layers|
        invariant 0 <= i <= |before| == |controller.layers|
        invariant redrawIndices == []
        invariant controller.layers == PartlyFramed(before, i, cols)
        invariant trace == old(trace) + FrameTrace(before, i, Length(), cols)
        decreases |before| - i
      {
        RenderNext(before, old(trace), i);
        i := i + 1;
      }
      assert i == |before|;
    }

    /** One turn of render's loop: layer `i` is rendered and the frame moves
        on by one layer. */
    method RenderNext(ghost before: seq<LayerState>, ghost start: seq<DrawCall>, i: nat)
      requires redrawIndices == [] && i < |before|
      requires controller.layers == PartlyFramed(before, i, cols)
      requires trace == start + FrameTrace(before, i, Length(), cols)
      modifies controller`layers, this`trace, this`redrawIndices
      ensures redrawIndices == []
      ensures controller.layers == PartlyFramed(before, i + 1, cols)
      ensures trace == start + FrameTrace(before, i + 1, Length(), cols)
    {
      PartlyFramedStep(before, i, cols);
      FrameTraceStep(start, before, i, Length(), cols);
      assert controller.layers[i] == before[i];
      RenderLayer(i);
    }

    /** The resize effect: every layer is redrawn in full on the next frame. */
    method OnCanvasResize()
      requires Valid()
      modifies controller`layers
      ensures Valid()
      ensures controller.layers == Resized(old(controller.layers))
    {
      for i := 0 to |controller.layers|
        invariant |controller.layers| == |old(controller.layers)|
        invariant controller.Valid()
        invariant forall j :: 0 <= j < i ==> controller.layers[j] == old(controller.layers[j]).(redrawAll := true)
        invariant forall j :: i <= j < |controller.layers| ==> controller.layers[j] == old(controller.layers[j])
      {
        controller.layers := controller.layers[i := controller.layers[i].(redrawAll := true)];
      }
    }

    /** `onPointerMove`. */
    method OnPointerMove(pointerId: int, x: int, y: int)
      requires Valid()
      modifies this`movingPointers, this`draggedPointerIds, this`events
      ensures Valid()
      ensures var step := PointerMove(old(PointerState()), pointerId, x, y, TargetAt(CurrentGrid(), x, y));
        PointerState() == step.pointers && events == old(events) + step.emitted
    {
      if pointerId in movingPointers && movingPointers[pointerId] == PointerPos(x, y) {
        return;
      }
      var target := GetTarget(x, y);
      MoveOver(pointerId, x, y, target);
    }

    /** The part of `onPointerMove` after the repeated-position check, once
        the element under the pointer is known. */
    method MoveOver(pointerId: int, x: int, y: int, target: Element)
      requires Valid()
      requires !(pointerId in movingPointers && movingPointers[pointerId] == PointerPos(x, y))
      modifies this`movingPointers, this`draggedPointerIds, this`events
      ensures Valid()
      ensures var step := PointerMove(old(PointerState()), pointerId, x, y, target);
        PointerState() == step.pointers && events == old(events) + step.emitted
    {
      movingPointers := movingPointers[pointerId := PointerPos(x, y)];
      events := events + [Move(pointerId, target, x, y)];
      if pointerId in activeElementsByPtrId
        && activeElementsByPtrId[pointerId].x != x
        && activeElementsByPtrId[pointerId].y != y
      {
        draggedPointerIds := draggedPointerIds + {pointerId};
        events := events + [Drag(pointerId, activeElementsByPtrId[pointerId].element, target, x, y)];
      }
    }

    /** The loop of `onPointerDown` over the active presses: whether some
        pointer already holds an element equal to `target`. */
    method HeldByActivePointer(target: Element) returns (held: bool)
      ensures held <==> exists id :: id in activeElementsByPtrId && EqualElements(activeElementsByPtrId[id].element, target)
    {
      var unseen: set<int> := activeElementsByPtrId.Keys;
      while unseen != {}
        invariant unseen <= activeElementsByPtrId.Keys
        invariant forall k | k in activeElementsByPtrId && k !in unseen ::
          !EqualElements(activeElementsByPtrId[k].element, target)
        decreases unseen
      {
        assert (forall id :: id !in unseen) ==> unseen == {};
        var k :| k in unseen;
        if EqualElements(activeElementsByPtrId[k].element, target) {
          return true;
        }
        unseen := unseen - {k};
      }
      return false;
    }

    /** `onPointerDown`: a press on an element another press holds is
        ignored. */
    method OnPointerDown(pointerId: int, x: int, y: int)
      requires Valid()
      modifies this`activeElementsByPtrId
      ensures Valid()
      ensures PointerState() == PointerDown(old(PointerState()), pointerId, x, y, TargetAt(CurrentGrid(), x, y)).pointers
    {
      var target := GetTarget(x, y);
      var held := HeldByActivePointer(target);
      assert held == PointerState().Holds(target);
      if held {
        return;
      }
      activeElementsByPtrId := activeElementsByPtrId[pointerId := Press(target, x, y)];
    }

    /** `onPointerUp`. */
    method OnPointerUp(pointerId: int, x: int, y: int)
      requires Valid()
      modifies this`activeElementsByPtrId, this`draggedPointerIds, this`events
      ensures Valid()
      ensures var step := PointerUp(old(PointerState()), pointerId, x, y, TargetAt(CurrentGrid(), x, y));
        PointerState() == step.pointers && events == old(events) + step.emitted
    {
      if pointerId in activeElementsByPtrId {
        var target := GetTarget(x, y);
        ReleaseOver(pointerId, x, y, target);
      }
    }

    /** The body of `onPointerUp` for a pointer with a recorded press, once
        the element under the pointer is known. */
    method ReleaseOver(pointerId: int, x: int, y: int, target: Element)
      requires Valid() && pointerId in activeElementsByPtrId
      modifies this`activeElementsByPtrId, this`draggedPointerIds, this`events
      ensures Valid()
      ensures var step := PointerUp(old(PointerState()), pointerId, x, y, target);
        PointerState() == step.pointers && events == old(events) + step.emitted
    {
      var activeTarget := activeElementsByPtrId[pointerId];
      var pointerDrags := pointerId in draggedPointerIds;
      if !pointerDrags && EqualElements(target, activeTarget.element) {
        events := events + [Click(pointerId, target, x, y)];
      } else if pointerDrags {
        draggedPointerIds := draggedPointerIds - {pointerId};
        events := events + [Drop(pointerId, activeTarget.element, target, x, y)];
      }
      activeElementsByPtrId := activeElementsByPtrId - {pointerId};
    }

    /** `onPointerLeave`: the release handler. */
    method OnPointerLeave(pointerId: int, x: int, y: int)
      requires Valid()
      modifies this`activeElementsByPtrId, this`draggedPointerIds, this`events
      ensures Valid()
      ensures var step := PointerUp(old(PointerState()), pointerId, x, y, TargetAt(CurrentGrid(), x, y));
        PointerState() == step.pointers && events == old(events) + step.emitted
    {
      OnPointerUp(pointerId, x, y);
    }

    /** `onDoubleClick`: emits the element under the pointer. */
    method OnDoubleClick(x: int, y: int)
      modifies this`events
      ensures events == old(events) + [DoubleClick(TargetAt(CurrentGrid(), x, y), x, y)]
    {
      var target := GetTarget(x, y);
      events := events + [DoubleClick(target, x, y)];
    }

    /** `onContextMenu`: emits the element under the pointer. */
    method OnContextMenu(x: int, y: int)
      modifies this`events
      ensures events == old(events) + [ContextMenu(TargetAt(CurrentGrid(), x, y), x, y)]
    {
      var target := GetTarget(x, y);
      events := events + [ContextMenu(target, x, y)];
    }

    /** `onKeyDown`: emits the key. */
    method OnKeyDown(key: string)
      modifies this`events
      ensures events == old(events) + [KeyDown(key)]
    {
      events := events + [KeyDown(key)];
    }
  }
}
