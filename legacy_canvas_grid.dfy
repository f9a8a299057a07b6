/** The older revision's component: a render decision driven by `redrawAll`
    and the draw strategy, with no deferred grid positions, and a single
    mouse press tracked by `pressedTarget`, `downButtonId` and
    `draggingButtonId` instead of a press per pointer. Canvas calls and
    emitted events are appended to traces. */
module LegacyCanvasGrid {
  import opened InsertionSet
  import opened Geometry
  import opened HitTest
  import opened LayerDrawing
  import opened LegacyLayers

  datatype Option<T> = None | Some(value: T)

  // ---------------------------------------------------------------------------
  // One frame of render

  /** The layer after one worked frame: `redrawAll` is reset, and a per-cell
      layer has its one-shot set drained, whichever branch drew it. */
  function FrameLayer(l: LayerState): (r: LayerState)
    ensures !r.redrawAll && r.kind == l.kind && r.drawStrategy == l.drawStrategy
    ensures r.multiFrameCellIndices == l.multiFrameCellIndices
    ensures l.kind == PerCell ==> r.singleFrameCellIndices == []
    ensures l.kind == WholeCanvas ==> r == l.(redrawAll := false)
    ensures l.Valid() ==> r.Valid()
  {
    if l.kind == PerCell then l.(singleFrameCellIndices := [], redrawAll := false)
    else l.(redrawAll := false)
  }

  /** The canvas calls one worked frame makes for layer `layer`: a layer with
      `redrawAll` set is cleared and drawn whole; otherwise a per-cell layer
      redraws its dirty cells, a whole-canvas layer with the per-frame
      strategy is cleared and drawn whole, and a static one makes no call. */
  function FrameCalls(l: LayerState, layer: nat, length: nat): (t: seq<DrawCall>)
  {
    if l.redrawAll then
      [ClearLayer(layer)] + (if l.kind == PerCell then AllCellsTrace(layer, length) else [DrawWhole(layer)])
    else if l.kind == PerCell then
      DirtyTrace(layer, InRange(RedrawSet(l.singleFrameCellIndices, l.multiFrameCellIndices), length))
    else if l.drawStrategy == PerFrame then
      [ClearLayer(layer), DrawWhole(layer)]
    else
      []
  }

  /** A per-cell layer without `redrawAll` draws, exactly once each, the
      existing cells marked for this frame or for every frame. */
  lemma DirtyFrameDrawsMarkedOnce(l: LayerState, layer: nat, length: nat, k: nat)
    requires !l.redrawAll && l.kind == PerCell
    ensures multiset(FrameCalls(l, layer, length))[DrawCell(layer, k)]
         == if k < length && (k in l.singleFrameCellIndices || k in l.multiFrameCellIndices) then 1 else 0
  {
    DirtyRedrawDrawsEachOnce(layer, l.singleFrameCellIndices, l.multiFrameCellIndices, length, k);
  }

  /** The frame after a worked frame redraws exactly the persistent set of a
      per-cell layer. */
  lemma NextFrameDrawsPersistentOnly(l: LayerState, layer: nat, length: nat, k: nat)
    requires l.kind == PerCell
    ensures multiset(FrameCalls(FrameLayer(l), layer, length))[DrawCell(layer, k)]
         == if k < length && k in l.multiFrameCellIndices then 1 else 0
  {
    DirtyFrameDrawsMarkedOnce(FrameLayer(l), layer, length, k);
  }

  /** The draw strategy has no effect on a per-cell layer. */
  lemma PerCellIgnoresStrategy(l: LayerState, layer: nat, length: nat, strategy: DrawStrategy)
    requires l.kind == PerCell
    ensures FrameCalls(WithStrategy(l, strategy), layer, length) == FrameCalls(l, layer, length)
    ensures FrameLayer(WithStrategy(l, strategy)) == WithStrategy(FrameLayer(l), strategy)
  {
  }

  /** A whole-canvas layer with the per-frame strategy is cleared and drawn on
      this frame and again on the next, with or without `redrawAll`. */
  lemma PerFrameLayerDrawnEveryFrame(l: LayerState, layer: nat, length: nat)
    requires l.kind == WholeCanvas && l.drawStrategy == PerFrame
    ensures FrameCalls(l, layer, length) == [ClearLayer(layer), DrawWhole(layer)]
    ensures FrameCalls(FrameLayer(l), layer, length) == [ClearLayer(layer), DrawWhole(layer)]
  {
  }

  /** A static whole-canvas layer is cleared and drawn only on a frame with
      `redrawAll` set, and the frame after that draws nothing. */
  lemma StaticLayerDrawnOnce(l: LayerState, layer: nat, length: nat)
    requires l.kind == WholeCanvas && l.drawStrategy == Static
    ensures FrameCalls(l, layer, length) == if l.redrawAll then [ClearLayer(layer), DrawWhole(layer)] else []
    ensures FrameCalls(FrameLayer(l), layer, length) == []
  {
  }

  /** Every layer after one worked frame. */
  function FrameLayers(layers: seq<LayerState>): (r: seq<LayerState>)
    ensures |r| == |layers|
    ensures forall i :: 0 <= i < |layers| ==> r[i] == FrameLayer(layers[i])
  {
    seq(|layers|, i requires 0 <= i < |layers| => FrameLayer(layers[i]))
  }

  /** A worked frame keeps every layer's sets duplicate-free. */
  lemma FrameLayersValid(layers: seq<LayerState>)
    requires forall i :: 0 <= i < |layers| ==> layers[i].Valid()
    ensures forall i :: 0 <= i < |layers| ==> FrameLayers(layers)[i].Valid()
  {
    forall i | 0 <= i < |layers|
      ensures FrameLayers(layers)[i].Valid()
    {
      assert FrameLayers(layers)[i] == FrameLayer(layers[i]);
    }
  }

  /** The layers part-way through a worked frame: layers below `n` are done. */
  function PartlyFramed(layers: seq<LayerState>, n: nat): (r: seq<LayerState>)
    ensures |r| == |layers|
  {
    seq(|layers|, j requires 0 <= j < |layers| => if j < n then FrameLayer(layers[j]) else layers[j])
  }

  /** Rendering layer `n` moves the frame on by one layer. */
  lemma PartlyFramedStep(layers: seq<LayerState>, n: nat)
    requires n < |layers|
    ensures PartlyFramed(layers, n)[n := FrameLayer(layers[n])] == PartlyFramed(layers, n + 1)
  {
  }

  /** No layer done is the layers as they were; all done is the frame. */
  lemma PartlyFramedEnds(layers: seq<LayerState>)
    ensures PartlyFramed(layers, 0) == layers
    ensures PartlyFramed(layers, |layers|) == FrameLayers(layers)
  {
  }

  /** The calls of one worked frame for layers `0 .. n-1`, in layer order. */
  function FrameTrace(layers: seq<LayerState>, n: nat, length: nat): (t: seq<DrawCall>)
    requires n <= |layers|
  {
    if n == 0 then []
    else FrameTrace(layers, n - 1, length) + FrameCalls(layers[n - 1], n - 1, length)
  }

  /** Rendering layer `n` appends that layer's calls to the frame's trace. */
  lemma FrameTraceStep(before: seq<DrawCall>, layers: seq<LayerState>, n: nat, length: nat)
    requires n < |layers|
    ensures before + FrameTrace(layers, n + 1, length)
         == (before + FrameTrace(layers, n, length)) + FrameCalls(layers[n], n, length)
  {
  }

  /** Every layer with `redrawAll` set: the outcome of the resize effect. */
  function Resized(layers: seq<LayerState>): (r: seq<LayerState>)
    ensures |r| == |layers|
    ensures forall i :: 0 <= i < |layers| ==> r[i] == Redrawn(layers[i])
  {
    seq(|layers|, i requires 0 <= i < |layers| => layers[i].(redrawAll := true))
  }

  /** After a resize the next worked frame clears every layer and draws it
      whole, whatever its strategy. */
  lemma ResizeRedrawsEveryLayer(layers: seq<LayerState>, i: nat, length: nat)
    requires i < |layers|
    ensures FrameCalls(Resized(layers)[i], i, length)
         == [ClearLayer(i)] + (if layers[i].kind == PerCell then AllCellsTrace(i, length) else [DrawWhole(i)])
  {
  }

  // ---------------------------------------------------------------------------
  // The mouse

  /** What the component emits; mouse events carry the button number. */
  datatype GridEvent =
    | Move(target: Element, x: int, y: int)
    | Click(buttonId: int, target: Element, x: int, y: int)
    | DoubleClick(buttonId: int, target: Element, x: int, y: int)
    | Drag(buttonId: int, from: Element, to: Element, x: int, y: int)
    | Drop(buttonId: int, from: Element, to: Element, x: int, y: int)
    | KeyDown(key: string)

  /** The one press the component tracks: the pressed element, the button
      pressed, and the button of the drag in progress. */
  datatype Mouse = Mouse(pressedTarget: Option<Element>, downButtonId: Option<int>, draggingButtonId: Option<int>)

  /** Nothing pressed and nothing dragging: the initial state. */
  const Idle := Mouse(None, None, None)

  /** The mouse after a handler, and the events it emitted. */
  datatype Step = Step(mouse: Mouse, emitted: seq<GridEvent>)

  /** `onMouseDown`: the press replaces any earlier one, whatever its button,
      and leaves a drag in progress as it was. */
  function MouseDown(s: Mouse, button: int, target: Element): (r: Step)
    ensures r.emitted == []
    ensures r.mouse.pressedTarget == Some(target) && r.mouse.downButtonId == Some(button)
    ensures r.mouse.draggingButtonId == s.draggingButtonId
  {
    Step(s.(pressedTarget := Some(target), downButtonId := Some(button)), [])
  }

  /** `onMouseMove`: always a move; while a press is recorded, also a drag
      from the pressed element with the pressed button, which becomes the
      dragging button. */
  function MouseMove(s: Mouse, target: Element, x: int, y: int): (r: Step)
    ensures 1 <= |r.emitted| <= 2 && r.emitted[0] == Move(target, x, y)
    ensures |r.emitted| == 2 <==> s.pressedTarget.Some? && s.downButtonId.Some?
    ensures |r.emitted| == 2 ==>
      && r.emitted[1] == Drag(s.downButtonId.value, s.pressedTarget.value, target, x, y)
      && r.mouse == s.(draggingButtonId := s.downButtonId)
    ensures |r.emitted| == 1 ==> r.mouse == s
  {
    if s.pressedTarget.Some? && s.downButtonId.Some? then
      Step(s.(draggingButtonId := s.downButtonId),
           [Move(target, x, y), Drag(s.downButtonId.value, s.pressedTarget.value, target, x, y)])
    else
      Step(s, [Move(target, x, y)])
  }

  /** `onMouseUp`, and `onMouseLeave`, which is the same handler: a click when
      the release is over an element equal to the pressed one, whatever the
      buttons; a drop when the released button is the dragging one and a
      press is recorded; the dragging and the pressed button are forgotten
      only when they are the released button; the pressed element always. */
  function MouseUp(s: Mouse, button: int, target: Element, x: int, y: int): (r: Step)
    ensures r.mouse.pressedTarget == None
    ensures r.mouse.downButtonId == if s.downButtonId == Some(button) then None else s.downButtonId
    ensures r.mouse.draggingButtonId == if s.draggingButtonId == Some(button) then None else s.draggingButtonId
  {
    var click := if s.pressedTarget.Some? && EqualElements(s.pressedTarget.value, target)
                 then [Click(button, target, x, y)] else [];
    var drop := if s.draggingButtonId == Some(button) && s.pressedTarget.Some?
                then [Drop(button, s.pressedTarget.value, target, x, y)] else [];
    Step(Mouse(None,
               if s.downButtonId == Some(button) then None else s.downButtonId,
               if s.draggingButtonId == Some(button) then None else s.draggingButtonId),
         click + drop)
  }

  /** What a release emits: a click exactly when the pressed element equals
      the element under the pointer, a drop exactly when a press is recorded
      and the released button is the dragging one, nothing else, and the click
      before the drop. */
  lemma MouseUpEmits(s: Mouse, button: int, target: Element, x: int, y: int)
    ensures var r := MouseUp(s, button, target, x, y);
      && (Click(button, target, x, y) in r.emitted
          <==> s.pressedTarget.Some? && EqualElements(s.pressedTarget.value, target))
      && ((exists from :: Drop(button, from, target, x, y) in r.emitted)
          <==> s.pressedTarget.Some? && s.draggingButtonId == Some(button))
      && (forall e | e in r.emitted ::
            e == Click(button, target, x, y) || (s.pressedTarget.Some? && e == Drop(button, s.pressedTarget.value, target, x, y)))
      && |r.emitted| <= 2 && (|r.emitted| == 2 ==> r.emitted[0].Click? && r.emitted[1].Drop?)
  {
    var r := MouseUp(s, button, target, x, y);
    if s.pressedTarget.Some? && s.draggingButtonId == Some(button) {
      assert Drop(button, s.pressedTarget.value, target, x, y) in r.emitted;
    }
  }

  /** A press, a move that stays on the pressed element, and a release there
      emit a drag, then both a click and a drop, and return to idle. */
  lemma ClickAndDropBothFire(button: int, a: Element, x: int, y: int, x': int, y': int)
    ensures var down := MouseDown(Idle, button, a);
            var move := MouseMove(down.mouse, a, x, y);
            var up := MouseUp(move.mouse, button, a, x', y');
      && move.emitted == [Move(a, x, y), Drag(button, a, a, x, y)]
      && up.emitted == [Click(button, a, x', y'), Drop(button, a, a, x', y')]
      && up.mouse == Idle
  {
  }

  /** A release of another button over the pressed element still clicks,
      under the released button's number, and leaves the pressed button
      recorded; the press itself is gone, so a later move does not drag. */
  lemma OtherButtonReleaseClicks(s: Mouse, b: int, b': int, a: Element, t: Element, x: int, y: int)
    requires b' != b && EqualElements(a, t)
    ensures var down := MouseDown(s, b, a);
            var up := MouseUp(down.mouse, b', t, x, y);
      && Click(b', t, x, y) in up.emitted
      && up.mouse.downButtonId == Some(b)
      && MouseMove(up.mouse, t, x, y).emitted == [Move(t, x, y)]
  {
    var up := MouseUp(MouseDown(s, b, a).mouse, b', t, x, y);
    assert up.mouse.pressedTarget == None;
  }

  /** A drag whose button is not the one released survives the release: the
      next press and release of that button, with no move, emits a drop as
      well as the click. */
  lemma StaleDragDropsOnPlainClick(b: int, b': int, a: Element, c: Element, x: int, y: int)
    requires b' != b
    ensures var s1 := MouseMove(MouseDown(Idle, b, a).mouse, a, x, y).mouse;
            var s2 := MouseUp(s1, b', a, x, y).mouse;
            var s3 := MouseDown(s2, b, c).mouse;
      MouseUp(s3, b, c, x, y).emitted == [Click(b, c, x, y), Drop(b, c, c, x, y)]
  {
  }

  // ---------------------------------------------------------------------------
  // The component

  class CanvasGridComponent {
    var rows: nat
    var cols: nat
    var cellWidth: int
    var cellHeight: int
    var gapSize: GapSpec
    /** The controller whose `layers` array the component reads and updates. */
    const controller: LayerController
    var redrawIndices: seq<nat>
    var lastRenderTime: int
    var pressedTarget: Option<Element>
    var downButtonId: Option<int>
    var draggingButtonId: Option<int>
    /** The canvas calls made so far. */
    var trace: seq<DrawCall>
    /** The events emitted so far. */
    var events: seq<GridEvent>

    /** The grid the inputs describe. */
    function CurrentGrid(): (g: Grid)
      reads this`rows, this`cols, this`cellWidth, this`cellHeight, this`gapSize
      ensures g.WellFormed()
    {
      GridOf(rows, cols, cellWidth, cellHeight, gapSize)
    }

    /** `_length`: the number of cells. */
    function Length(): nat
      reads this`rows, this`cols
    {
      rows * cols
    }

    function MouseState(): Mouse
      reads this`pressedTarget, this`downButtonId, this`draggingButtonId
    {
      Mouse(pressedTarget, downButtonId, draggingButtonId)
    }

    /** Between handler calls and frames: the layers' sets are sets and the
        shared `redrawIndices` set is empty. */
    ghost predicate Valid()
      reads this, controller
    {
      controller.Valid() && redrawIndices == []
    }

    /** The component with the default inputs: 9 by 9 cells of 20 by 20
        pixels and gaps of 1, nothing pressed. */
    constructor (controller: LayerController)
      requires controller.Valid()
      ensures this.controller == controller && Valid()
      ensures rows == 9 && cols == 9 && cellWidth == 20 && cellHeight == 20 && gapSize == Uniform(1)
      ensures lastRenderTime == 0 && trace == [] && events == [] && MouseState() == Idle
    {
      rows, cols := 9, 9;
      cellWidth, cellHeight := 20, 20;
      gapSize := Uniform(1);
      this.controller := controller;
      redrawIndices := [];
      lastRenderTime := 0;
      pressedTarget, downButtonId, draggingButtonId := None, None, None;
      trace := [];
      events := [];
    }

    /** `getTargetFromEvent` for a canvas pixel. */
    method GetTarget(x: int, y: int) returns (e: Element)
      ensures e == TargetAt(CurrentGrid(), x, y)
    {
      var rowGaps := ComputeGapTable(gapSize, RowAxis, rows, cellHeight);
      var colGaps := ComputeGapTable(gapSize, ColAxis, cols, cellWidth);
      e := GetTargetFromEvent(Grid(rows, cols, cellWidth, cellHeight, rowGaps, colGaps), x, y);
    }

    /** The body of render's loop for layer `i`. */
    method RenderLayer(i: nat)
      requires redrawIndices == [] && i < |controller.layers|
      modifies controller`layers, this`trace, this`redrawIndices
      ensures redrawIndices == []
      ensures controller.layers == old(controller.layers)[i := FrameLayer(old(controller.layers[i]))]
      ensures trace == old(trace) + FrameCalls(old(controller.layers[i]), i, Length())
    {
      var layer := controller.layers[i];
      if layer.redrawAll {
        RedrawLayer(i);
      } else if layer.kind == PerCell {
        DrawThroughRedrawIndices(i, layer.singleFrameCellIndices, layer.multiFrameCellIndices);
        controller.layers := controller.layers[i := layer.(singleFrameCellIndices := [])];
      } else if layer.drawStrategy == PerFrame {
        trace := trace + [ClearLayer(i), DrawWhole(i)];
      }
    }

    /** A layer with `redrawAll` set: cleared, then drawn whole. */
    method RedrawLayer(i: nat)
      requires i < |controller.layers| && controller.layers[i].redrawAll
      modifies controller`layers, this`trace
      ensures controller.layers == old(controller.layers)[i := FrameLayer(old(controller.layers[i]))]
      ensures trace == old(trace) + FrameCalls(old(controller.layers[i]), i, Length())
    {
      var length := Length();
      ghost var calls := FrameCalls(controller.layers[i], i, length);
      ghost var before := trace;
      trace := trace + [ClearLayer(i)];
      if controller.layers[i].kind == PerCell {
        assert calls == [ClearLayer(i)] + AllCellsTrace(i, length);
        var drawn := DrawAllCells(i, length);
        trace := trace + drawn;
        controller.layers := controller.layers[i := controller.layers[i].(singleFrameCellIndices := [])];
      } else {
        assert calls == [ClearLayer(i), DrawWhole(i)];
        trace := trace + [DrawWhole(i)];
      }
      assert trace == before + calls;
      controller.layers := controller.layers[i := controller.layers[i].(redrawAll := false)];
    }

    /** Collects the one-shot and then the persistent indices of layer `i` into
        `redrawIndices`, redraws the existing cells among them, and empties
        `redrawIndices` again. */
    method DrawThroughRedrawIndices(i: nat, single: seq<nat>, multi: seq<nat>)
      requires redrawIndices == []
      modifies this`trace, this`redrawIndices
      ensures redrawIndices == []
      ensures trace == old(trace) + DirtyTrace(i, InRange(RedrawSet(single, multi), Length()))
    {
      redrawIndices := CollectRedrawIndices(redrawIndices, single, multi);
      var drawn := RedrawIndices(i, redrawIndices, Length());
      trace := trace + drawn;
      redrawIndices := [];
    }

    /** `render(timestamp)`: when the frame does work, every layer in order,
        and the time of this frame is remembered; either way the next frame
        is requested. */
    method Render(timestamp: int, worked: bool)
      requires Valid()
      modifies controller`layers, this`trace, this`redrawIndices, this`lastRenderTime
      ensures Valid()
      ensures worked ==>
        && controller.layers == FrameLayers(old(controller.layers))
        && trace == old(trace) + FrameTrace(old(controller.layers), |old(controller.layers)|, Length()) + [RequestFrame]
        && lastRenderTime == timestamp
      ensures !worked ==>
        && controller.layers == old(controller.layers)
        && trace == old(trace) + [RequestFrame]
        && lastRenderTime == old(lastRenderTime)
    {
      if worked {
        RenderLayers();
        lastRenderTime := timestamp;
        FrameLayersValid(old(controller.layers));
      }
      trace := trace + [RequestFrame];
    }

    /** The loop of a worked frame over the layers, in layer order. */
    method RenderLayers()
      requires redrawIndices == []
      modifies controller`layers, this`trace, this`redrawIndices
      ensures redrawIndices == []
      ensures controller.layers == FrameLayers(old(controller.layers))
      ensures trace == old(trace) + FrameTrace(old(controller.layers), |old(controller.layers)|, Length())
    {
      ghost var before := controller.layers;
      PartlyFramedEnds(before);
      var i := 0;
      while i < |controller.layers|
        invariant 0 <= i <= |before| == |controller.layers|
        invariant redrawIndices == []
        invariant controller.layers == PartlyFramed(before, i)
        invariant trace == old(trace) + FrameTrace(before, i, Length())
        decreases |before| - i
      {
        RenderNext(before, old(trace), i);
        i := i + 1;
      }
      assert i == |before|;
    }

    /** One turn of render's loop: layer `i` is rendered and the frame moves
        on by one layer. */
    method RenderNext(ghost before: seq<LayerState>, ghost start: seq<DrawCall>, i: nat)
      requires redrawIndices == [] && i < |before|
      requires controller.layers == PartlyFramed(before, i)
      requires trace == start + FrameTrace(before, i, Length())
      modifies controller`layers, this`trace, this`redrawIndices
      ensures redrawIndices == []
      ensures controller.layers == PartlyFramed(before, i + 1)
      ensures trace == start + FrameTrace(before, i + 1, Length())
    {
      PartlyFramedStep(before, i);
      FrameTraceStep(start, before, i, Length());
      assert controller.layers[i] == before[i];
      RenderLayer(i);
    }

    /** The resize effect: every layer is redrawn in full on the next frame. */
    method OnCanvasResize()
      requires Valid()
      modifies controller`layers
      ensures Valid()
      ensures controller.layers == Resized(old(controller.layers))
    {
      for i := 0 to |controller.layers|
        invariant |controller.layers| == |old(controller.layers)|
        invariant controller.Valid()
        invariant forall j :: 0 <= j < i ==> controller.layers[j] == old(controller.layers[j]).(redrawAll := true)
        invariant forall j :: i <= j < |controller.layers| ==> controller.layers[j] == old(controller.layers[j])
      {
        controller.layers := controller.layers[i := controller.layers[i].(redrawAll := true)];
      }
    }

    /** `onMouseMove`. */
    method OnMouseMove(x: int, y: int)
      modifies this`draggingButtonId, this`events
      ensures var step := MouseMove(old(MouseState()), TargetAt(CurrentGrid(), x, y), x, y);
        MouseState() == step.mouse && events == old(events) + step.emitted
    {
      var target := GetTarget(x, y);
      events := events + [Move(target, x, y)];
      if pressedTarget.Some? && downButtonId.Some? {
        draggingButtonId := downButtonId;
        events := events + [Drag(downButtonId.value, pressedTarget.value, target, x, y)];
      }
    }

    /** `onMouseDown`. */
    method OnMouseDown(button: int, x: int, y: int)
      modifies this`pressedTarget, this`downButtonId
      ensures MouseState() == MouseDown(old(MouseState()), button, TargetAt(CurrentGrid(), x, y)).mouse
    {
      var target := GetTarget(x, y);
      downButtonId := Some(button);
      pressedTarget := Some(target);
    }

    /** `onMouseUp`. */
    method OnMouseUp(button: int, x: int, y: int)
      modifies this`pressedTarget, this`downButtonId, this`draggingButtonId, this`events
      ensures var step := MouseUp(old(MouseState()), button, TargetAt(CurrentGrid(), x, y), x, y);
        MouseState() == step.mouse && events == old(events) + step.emitted
    {
      var target := GetTarget(x, y);
      ReleaseOver(button, x, y, target);
    }

    /** The body of `onMouseUp` once the element under the pointer is known. */
    method ReleaseOver(button: int, x: int, y: int, target: Element)
      modifies this`pressedTarget, this`downButtonId, this`draggingButtonId, this`events
      ensures var step := MouseUp(old(MouseState()), button, target, x, y);
        MouseState() == step.mouse && events == old(events) + step.emitted
    {
      if pressedTarget.Some? && EqualElements(pressedTarget.value, target) {
        events := events + [Click(button, target, x, y)];
      }
      if draggingButtonId == Some(button) {
        draggingButtonId := None;
        if pressedTarget.Some? {
          events := events + [Drop(button, pressedTarget.value, target, x, y)];
        }
      }
      if downButtonId == Some(button) {
        downButtonId := None;
      }
      pressedTarget := None;
    }

    /** `onMouseLeave`: the release handler, with the leave event's button. */
    method OnMouseLeave(button: int, x: int, y: int)
      modifies this`pressedTarget, this`downButtonId, this`draggingButtonId, this`events
      ensures var step := MouseUp(old(MouseState()), button, TargetAt(CurrentGrid(), x, y), x, y);
        MouseState() == step.mouse && events == old(events) + step.emitted
    {
      OnMouseUp(button, x, y);
    }

    /** `onDoubleClick`: emits the button and the element under the pointer. */
    method OnDoubleClick(button: int, x: int, y: int)
      modifies this`events
      ensures events == old(events) + [DoubleClick(button, TargetAt(CurrentGrid(), x, y), x, y)]
    {
      var target := GetTarget(x, y);
      events := events + [DoubleClick(button, target, x, y)];
    }

    /** `onKeyDown`: emits the key. */
    method OnKeyDown(key: string)
      modifies this`events
      ensures events == old(events) + [KeyDown(key)]
    {
      events := events + [KeyDown(key)];
    }
  }
}
