/** The current revision's layer registry: the `LayerController` that the
    embedding application uses between frames to mark what must be redrawn,
    and the `Builder` that appends the layers before the controller is handed
    to the component. */
module GridLayers {
  import opened InsertionSet
  import opened LayerDrawing

  /** A (row, col) position queued for lazy resolution into a cell index. */
  datatype GridPos = GridPos(row: nat, col: nat)

  /** `GridLayerState`: how the layer draws, its two redraw flags, the one-shot
      and the persistent dirty-index sets, and the three queues of grid
      positions still to be resolved with the column count of the frame that
      consumes them. */
  datatype LayerState = LayerState(
    kind: DrawKind,
    redrawAll: bool,
    redrawPerFrame: bool,
    singleFrameCellIndices: seq<nat>,
    multiFrameCellIndices: seq<nat>,
    singleFrameCellGridPos: seq<GridPos>,
    multiFrameCellGridPos: seq<GridPos>,
    delMultiFrameCellGridPos: seq<GridPos>)
  {
    /** The two index sets are sets: no index twice. */
    predicate Valid() {
      NoDup(singleFrameCellIndices) && NoDup(multiFrameCellIndices)
    }
  }

  /** The record the builder pushes: nothing to redraw, nothing queued. */
  function NewLayer(kind: DrawKind): (l: LayerState)
    ensures l.Valid() && l.kind == kind
    ensures !l.redrawAll && !l.redrawPerFrame
    ensures l.singleFrameCellIndices == [] && l.multiFrameCellIndices == []
    ensures l.singleFrameCellGridPos == [] && l.multiFrameCellGridPos == [] && l.delMultiFrameCellGridPos == []
  {
    LayerState(kind, false, false, [], [], [], [], [])
  }

  /** The layer after `drawOnce(layerIndex)`: a full redraw on the next frame,
      and per-frame redrawing switched off. */
  function DrawnOnce(l: LayerState): (r: LayerState)
    ensures r.redrawAll && !r.redrawPerFrame
    ensures r.(redrawAll := l.redrawAll, redrawPerFrame := l.redrawPerFrame) == l
  {
    l.(redrawPerFrame := false, redrawAll := true)
  }

  /** The layer after `drawOnce(cellIndex, layerIndex)`: the index joins the
      one-shot set of a per-cell layer; a whole-canvas layer is unchanged. */
  function CellDrawnOnce(l: LayerState, cellIndex: nat): (r: LayerState)
    ensures l.kind == WholeCanvas ==> r == l
    ensures l.kind == PerCell ==>
      && r.singleFrameCellIndices == Add(l.singleFrameCellIndices, cellIndex)
      && Elems(r.singleFrameCellIndices) == Elems(l.singleFrameCellIndices) + {cellIndex}
      && r.(singleFrameCellIndices := l.singleFrameCellIndices) == l
    ensures l.Valid() ==> r.Valid()
  {
    if l.kind == WholeCanvas then l
    else l.(singleFrameCellIndices := Add(l.singleFrameCellIndices, cellIndex))
  }

  /** The layer after `drawOnce(row, col, layerIndex)`: the position is queued
      for the one-shot set of a per-cell layer; a whole-canvas layer is
      unchanged. */
  function PosDrawnOnce(l: LayerState, row: nat, col: nat): (r: LayerState)
    ensures l.kind == WholeCanvas ==> r == l
    ensures l.kind == PerCell ==>
      && r.singleFrameCellGridPos == l.singleFrameCellGridPos + [GridPos(row, col)]
      && r.(singleFrameCellGridPos := l.singleFrameCellGridPos) == l
    ensures l.Valid() ==> r.Valid()
  {
    if l.kind == WholeCanvas then l
    else l.(singleFrameCellGridPos := l.singleFrameCellGridPos + [GridPos(row, col)])
  }

  /** The layer after `drawPerFrame(layerIndex)`: redrawn in full every frame. */
  function DrawnPerFrame(l: LayerState): (r: LayerState)
    ensures r.redrawPerFrame
    ensures r.(redrawPerFrame := l.redrawPerFrame) == l
  {
    l.(redrawPerFrame := true)
  }

  /** The layer after `drawPerFrame(cellIndex, layerIndex)`: the index joins the
      persistent set of a per-cell layer; a whole-canvas layer is unchanged. */
  function CellDrawnPerFrame(l: LayerState, cellIndex: nat): (r: LayerState)
    ensures l.kind == WholeCanvas ==> r == l
    ensures l.kind == PerCell ==>
      && r.multiFrameCellIndices == Add(l.multiFrameCellIndices, cellIndex)
      && Elems(r.multiFrameCellIndices) == Elems(l.multiFrameCellIndices) + {cellIndex}
      && r.(multiFrameCellIndices := l.multiFrameCellIndices) == l
    ensures l.Valid() ==> r.Valid()
  {
    if l.kind == WholeCanvas then l
    else l.(multiFrameCellIndices := Add(l.multiFrameCellIndices, cellIndex))
  }

  /** The layer after `drawPerFrame(row, col, layerIndex)`: the position is
      queued for the persistent set of a per-cell layer; a whole-canvas layer
      is unchanged. */
  function PosDrawnPerFrame(l: LayerState, row: nat, col: nat): (r: LayerState)
    ensures l.kind == WholeCanvas ==> r == l
    ensures l.kind == PerCell ==>
      && r.multiFrameCellGridPos == l.multiFrameCellGridPos + [GridPos(row, col)]
      && r.(multiFrameCellGridPos := l.multiFrameCellGridPos) == l
    ensures l.Valid() ==> r.Valid()
  {
    if l.kind == WholeCanvas then l
    else l.(multiFrameCellGridPos := l.multiFrameCellGridPos + [GridPos(row, col)])
  }

  /** The layer after `deleteCellDrawnPerFrame(layerIndex)`: the persistent set
      is empty; positions still queued for it stay queued. */
  function PerFrameCellsDeleted(l: LayerState): (r: LayerState)
    ensures r.multiFrameCellIndices == []
    ensures r.multiFrameCellGridPos == l.multiFrameCellGridPos
    ensures r.(multiFrameCellIndices := l.multiFrameCellIndices) == l
    ensures l.Valid() ==> r.Valid()
  {
    l.(multiFrameCellIndices := [])
  }

  /** The layer after `deleteCellDrawnPerFrame(cellIndex, layerIndex)`: the
      index leaves the persistent set, whatever the layer's kind. */
  function CellDeletedFromPerFrame(l: LayerState, cellIndex: nat): (r: LayerState)
    ensures Elems(r.multiFrameCellIndices) == Elems(l.multiFrameCellIndices) - {cellIndex}
    ensures r.(multiFrameCellIndices := l.multiFrameCellIndices) == l
    ensures l.Valid() ==> r.Valid()
  {
    l.(multiFrameCellIndices := Delete(l.multiFrameCellIndices, cellIndex))
  }

  /** The layer after `deleteCellDrawnPerFrame(row, col, layerIndex)`: the
      position is queued for removal from the persistent set of a per-cell
      layer; a whole-canvas layer is unchanged. */
  function PosDeletedFromPerFrame(l: LayerState, row: nat, col: nat): (r: LayerState)
    ensures l.kind == WholeCanvas ==> r == l
    ensures l.kind == PerCell ==>
      && r.delMultiFrameCellGridPos == l.delMultiFrameCellGridPos + [GridPos(row, col)]
      && r.(delMultiFrameCellGridPos := l.delMultiFrameCellGridPos) == l
    ensures l.Valid() ==> r.Valid()
  {
    if l.kind == WholeCanvas then l
    else l.(delMultiFrameCellGridPos := l.delMultiFrameCellGridPos + [GridPos(row, col)])
  }

  /** `drawOnce(layerIndex)` twice is `drawOnce(layerIndex)` once. */
  lemma DrawnOnceIdempotent(l: LayerState)
    ensures DrawnOnce(DrawnOnce(l)) == DrawnOnce(l)
  {
  }

  /** Marking a cell for every frame twice is marking it once: the persistent
      index set is a set. */
  lemma CellDrawnPerFrameIdempotent(l: LayerState, cellIndex: nat)
    ensures CellDrawnPerFrame(CellDrawnPerFrame(l, cellIndex), cellIndex) == CellDrawnPerFrame(l, cellIndex)
  {
    if l.kind == PerCell {
      assert cellIndex in Elems(CellDrawnPerFrame(l, cellIndex).multiFrameCellIndices);
    }
  }

  /** Deleting a cell just marked for every frame, when it was not marked
      before, gives back the layer exactly, order of the set included. */
  lemma CellDeleteUndoesDrawPerFrame(l: LayerState, cellIndex: nat)
    requires l.kind == PerCell && cellIndex !in l.multiFrameCellIndices
    ensures CellDeletedFromPerFrame(CellDrawnPerFrame(l, cellIndex), cellIndex) == l
  {
    DeleteUndoesAdd(l.multiFrameCellIndices, cellIndex);
  }

  class LayerController {
    /** `_layers`, in the order the builder added them. */
    var layers: seq<LayerState>

    ghost predicate Valid()
      reads this
    {
      forall i :: 0 <= i < |layers| ==> layers[i].Valid()
    }

    /** The private constructor the builder calls. */
    constructor ()
      ensures layers == [] && Valid()
    {
      layers := [];
    }

    /** `drawOnce(layerIndex)`. */
    method DrawOnce(layerIndex: nat)
      requires Valid() && layerIndex < |layers|
      modifies this`layers
      ensures Valid()
      ensures layers == old(layers)[layerIndex := DrawnOnce(old(layers[layerIndex]))]
    {
      layers := layers[layerIndex := layers[layerIndex].(redrawPerFrame := false)];
      layers := layers[layerIndex := layers[layerIndex].(redrawAll := true)];
    }

    /** `drawOnce(cellIndex, layerIndex)`. */
    method DrawOnceCell(cellIndex: nat, layerIndex: nat)
      requires Valid() && layerIndex < |layers|
      modifies this`layers
      ensures Valid()
      ensures layers == old(layers)[layerIndex := CellDrawnOnce(old(layers[layerIndex]), cellIndex)]
    {
      if layers[layerIndex].kind == WholeCanvas {
        return;
      }
      var l := layers[layerIndex];
      layers := layers[layerIndex := l.(singleFrameCellIndices := Add(l.singleFrameCellIndices, cellIndex))];
    }

    /** `drawOnce(row, col, layerIndex)`. */
    method DrawOnceAt(row: nat, col: nat, layerIndex: nat)
      requires Valid() && layerIndex < |layers|
      modifies this`layers
      ensures Valid()
      ensures layers == old(layers)[layerIndex := PosDrawnOnce(old(layers[layerIndex]), row, col)]
    {
      if layers[layerIndex].kind == WholeCanvas {
        return;
      }
      var l := layers[layerIndex];
      layers := layers[layerIndex := l.(singleFrameCellGridPos := l.singleFrameCellGridPos + [GridPos(row, col)])];
    }

    /** `drawPerFrame(layerIndex)`. */
    method DrawPerFrame(layerIndex: nat)
      requires Valid() && layerIndex < |layers|
      modifies this`layers
      ensures Valid()
      ensures layers == old(layers)[layerIndex := DrawnPerFrame(old(layers[layerIndex]))]
    {
      layers := layers[layerIndex := layers[layerIndex].(redrawPerFrame := true)];
    }

    /** `drawPerFrame(cellIndex, layerIndex)`. */
    method DrawPerFrameCell(cellIndex: nat, layerIndex: nat)
      requires Valid() && layerIndex < |layers|
      modifies this`layers
      ensures Valid()
      ensures layers == old(layers)[layerIndex := CellDrawnPerFrame(old(layers[layerIndex]), cellIndex)]
    {
      if layers[layerIndex].kind == WholeCanvas {
        return;
      }
      var l := layers[layerIndex];
      layers := layers[layerIndex := l.(multiFrameCellIndices := Add(l.multiFrameCellIndices, cellIndex))];
    }

    /** `drawPerFrame(row, col, layerIndex)`. */
    method DrawPerFrameAt(row: nat, col: nat, layerIndex: nat)
      requires Valid() && layerIndex < |layers|
      modifies this`layers
      ensures Valid()
      ensures layers == old(layers)[layerIndex := PosDrawnPerFrame(old(layers[layerIndex]), row, col)]
    {
      if layers[layerIndex].kind == WholeCanvas {
        return;
      }
      var l := layers[layerIndex];
      layers := layers[layerIndex := l.(multiFrameCellGridPos := l.multiFrameCellGridPos + [GridPos(row, col)])];
    }

    /** `deleteCellDrawnPerFrame(layerIndex)`. */
    method DeleteCellsDrawnPerFrame(layerIndex: nat)
      requires Valid() && layerIndex < |layers|
      modifies this`layers
      ensures Valid()
      ensures layers == old(layers)[layerIndex := PerFrameCellsDeleted(old(layers[layerIndex]))]
    {
      layers := layers[layerIndex := layers[layerIndex].(multiFrameCellIndices := [])];
    }

    /** `deleteCellDrawnPerFrame(cellIndex, layerIndex)`: no whole-canvas guard. */
    method DeleteCellDrawnPerFrame(cellIndex: nat, layerIndex: nat)
      requires Valid() && layerIndex < |layers|
      modifies this`layers
      ensures Valid()
      ensures layers == old(layers)[layerIndex := CellDeletedFromPerFrame(old(layers[layerIndex]), cellIndex)]
    {
      var l := layers[layerIndex];
      layers := layers[layerIndex := l.(multiFrameCellIndices := Delete(l.multiFrameCellIndices, cellIndex))];
    }

    /** `deleteCellDrawnPerFrame(row, col, layerIndex)`. */
    method DeleteCellDrawnPerFrameAt(row: nat, col: nat, layerIndex: nat)
      requires Valid() && layerIndex < |layers|
      modifies this`layers
      ensures Valid()
      ensures layers == old(layers)[layerIndex := PosDeletedFromPerFrame(old(layers[layerIndex]), row, col)]
    {
      if layers[layerIndex].kind == WholeCanvas {
        return;
      }
      var l := layers[layerIndex];
      layers := layers[layerIndex := l.(delMultiFrameCellGridPos := l.delMultiFrameCellGridPos + [GridPos(row, col)])];
    }
  }

  /** `LayerController.Builder`: appends layers to a controller of its own and
      hands that controller out. */
  class Builder {
    const controller: LayerController

    constructor ()
      ensures fresh(controller) && controller.layers == [] && controller.Valid()
    {
      controller := new LayerController();
    }

    /** `addLayerDrawnPerCell`: appends a fresh per-cell layer. */
    method AddLayerDrawnPerCell()
      requires controller.Valid()
      modifies controller`layers
      ensures controller.Valid()
      ensures controller.layers == old(controller.layers) + [NewLayer(PerCell)]
    {
      controller.layers := controller.layers + [NewLayer(PerCell)];
    }

    /** `addLayerDrawnAsWhole`: appends a fresh whole-canvas layer. */
    method AddLayerDrawnAsWhole()
      requires controller.Valid()
      modifies controller`layers
      ensures controller.Valid()
      ensures controller.layers == old(controller.layers) + [NewLayer(WholeCanvas)]
    {
      controller.layers := controller.layers + [NewLayer(WholeCanvas)];
    }

    /** `build`: the controller, with the layers in the order they were added. */
    method Build() returns (c: LayerController)
      ensures c == controller
    {
      c := controller;
    }
  }
}
