/** The older revision's layer registry. A layer has one `redrawAll` flag, a
    draw strategy that decides whether an unflagged whole-canvas layer is
    redrawn every frame, and the two index sets; every controller method
    addresses layer 0 unless told otherwise, and none of them looks at the
    layer's kind. */
module LegacyLayers {
  import opened InsertionSet
  import opened LayerDrawing

  /** `CanvasGridLayerDrawStrategy`. */
  datatype DrawStrategy = Static | PerFrame

  /** `GridLayerState` of the older revision. */
  datatype LayerState = LayerState(
    kind: DrawKind,
    drawStrategy: DrawStrategy,
    redrawAll: bool,
    singleFrameCellIndices: seq<nat>,
    multiFrameCellIndices: seq<nat>)
  {
    /** The two index sets are sets: no index twice. */
    predicate Valid() {
      NoDup(singleFrameCellIndices) && NoDup(multiFrameCellIndices)
    }
  }

  /** The record the builder pushes: a static layer with nothing to redraw. */
  function NewLayer(kind: DrawKind): (l: LayerState)
    ensures l.Valid() && l.kind == kind && l.drawStrategy == Static && !l.redrawAll
    ensures l.singleFrameCellIndices == [] && l.multiFrameCellIndices == []
  {
    LayerState(kind, Static, false, [], [])
  }

  /** The layer after `redrawLayer`: a full redraw on the next frame. */
  function Redrawn(l: LayerState): (r: LayerState)
    ensures r.redrawAll
    ensures r.(redrawAll := l.redrawAll) == l
  {
    l.(redrawAll := true)
  }

  /** The layer after `addCellIndexToSingleFrameRedraw`, whatever its kind. */
  function AddedToSingleFrame(l: LayerState, cellIndex: nat): (r: LayerState)
    ensures r.singleFrameCellIndices == Add(l.singleFrameCellIndices, cellIndex)
    ensures Elems(r.singleFrameCellIndices) == Elems(l.singleFrameCellIndices) + {cellIndex}
    ensures r.(singleFrameCellIndices := l.singleFrameCellIndices) == l
    ensures l.Valid() ==> r.Valid()
  {
    l.(singleFrameCellIndices := Add(l.singleFrameCellIndices, cellIndex))
  }

  /** The layer after `addCellIndexToMultiFrameRedraw`, whatever its kind. */
  function AddedToMultiFrame(l: LayerState, cellIndex: nat): (r: LayerState)
    ensures r.multiFrameCellIndices == Add(l.multiFrameCellIndices, cellIndex)
    ensures Elems(r.multiFrameCellIndices) == Elems(l.multiFrameCellIndices) + {cellIndex}
    ensures r.(multiFrameCellIndices := l.multiFrameCellIndices) == l
    ensures l.Valid() ==> r.Valid()
  {
    l.(multiFrameCellIndices := Add(l.multiFrameCellIndices, cellIndex))
  }

  /** The layer after `deleteCellIndexFromMultiFrameRedraw`. */
  function DeletedFromMultiFrame(l: LayerState, cellIndex: nat): (r: LayerState)
    ensures Elems(r.multiFrameCellIndices) == Elems(l.multiFrameCellIndices) - {cellIndex}
    ensures r.(multiFrameCellIndices := l.multiFrameCellIndices) == l
    ensures l.Valid() ==> r.Valid()
  {
    l.(multiFrameCellIndices := Delete(l.multiFrameCellIndices, cellIndex))
  }

  /** The layer after `clearIndicesFromMultiFrameRedraw`. */
  function MultiFrameCleared(l: LayerState): (r: LayerState)
    ensures r.multiFrameCellIndices == []
    ensures r.(multiFrameCellIndices := l.multiFrameCellIndices) == l
    ensures l.Valid() ==> r.Valid()
  {
    l.(multiFrameCellIndices := [])
  }

  /** The layer after `setLayerDrawStrategy`. */
  function WithStrategy(l: LayerState, strategy: DrawStrategy): (r: LayerState)
    ensures r.drawStrategy == strategy
    ensures r.(drawStrategy := l.drawStrategy) == l
  {
    l.(drawStrategy := strategy)
  }

  /** `redrawLayer` twice is `redrawLayer` once. */
  lemma RedrawnIdempotent(l: LayerState)
    ensures Redrawn(Redrawn(l)) == Redrawn(l)
  {
  }

  /** Adding an index twice to the persistent set is adding it once. */
  lemma AddedToMultiFrameIdempotent(l: LayerState, cellIndex: nat)
    ensures AddedToMultiFrame(AddedToMultiFrame(l, cellIndex), cellIndex) == AddedToMultiFrame(l, cellIndex)
  {
    assert cellIndex in Elems(AddedToMultiFrame(l, cellIndex).multiFrameCellIndices);
  }

  /** Deleting an index just added to the persistent set, when it was not
      there before, gives back the layer exactly. */
  lemma DeleteUndoesAddToMultiFrame(l: LayerState, cellIndex: nat)
    requires cellIndex !in l.multiFrameCellIndices
    ensures DeletedFromMultiFrame(AddedToMultiFrame(l, cellIndex), cellIndex) == l
  {
    DeleteUndoesAdd(l.multiFrameCellIndices, cellIndex);
  }

  class LayerController {
    /** `_layers`, in the order the builder added them. */
    var layers: seq<LayerState>

    ghost predicate Valid()
      reads this
    {
      forall i :: 0 <= i < |layers| ==> layers[i].Valid()
    }

    /** The private constructor the builder calls. */
    constructor ()
      ensures layers == [] && Valid()
    {
      layers := [];
    }

    /** `redrawLayer(layerIndex = 0)`. */
    method RedrawLayer(layerIndex: nat := 0)
      requires Valid() && layerIndex < |layers|
      modifies this`layers
      ensures Valid()
      ensures layers == old(layers)[layerIndex := Redrawn(old(layers[layerIndex]))]
    {
      layers := layers[layerIndex := layers[layerIndex].(redrawAll := true)];
    }

    /** `addCellIndexToSingleFrameRedraw(cellIndex, layerIndex = 0)`. */
    method AddCellIndexToSingleFrameRedraw(cellIndex: nat, layerIndex: nat := 0)
      requires Valid() && layerIndex < |layers|
      modifies this`layers
      ensures Valid()
      ensures layers == old(layers)[layerIndex := AddedToSingleFrame(old(layers[layerIndex]), cellIndex)]
    {
      var l := layers[layerIndex];
      layers := layers[layerIndex := l.(singleFrameCellIndices := Add(l.singleFrameCellIndices, cellIndex))];
    }

    /** `addCellIndexToMultiFrameRedraw(cellIndex, layerIndex = 0)`. */
    method AddCellIndexToMultiFrameRedraw(cellIndex: nat, layerIndex: nat := 0)
      requires Valid() && layerIndex < |layers|
      modifies this`layers
      ensures Valid()
      ensures layers == old(layers)[layerIndex := AddedToMultiFrame(old(layers[layerIndex]), cellIndex)]
    {
      var l := layers[layerIndex];
      layers := layers[layerIndex := l.(multiFrameCellIndices := Add(l.multiFrameCellIndices, cellIndex))];
    }

    /** `deleteCellIndexFromMultiFrameRedraw(cellIndex, layerIndex = 0)`. */
    method DeleteCellIndexFromMultiFrameRedraw(cellIndex: nat, layerIndex: nat := 0)
      requires Valid() && layerIndex < |layers|
      modifies this`layers
      ensures Valid()
      ensures layers == old(layers)[layerIndex := DeletedFromMultiFrame(old(layers[layerIndex]), cellIndex)]
    {
      var l := layers[layerIndex];
      layers := layers[layerIndex := l.(multiFrameCellIndices := Delete(l.multiFrameCellIndices, cellIndex))];
    }

    /** `clearIndicesFromMultiFrameRedraw(layerIndex = 0)`. */
    method ClearIndicesFromMultiFrameRedraw(layerIndex: nat := 0)
      requires Valid() && layerIndex < |layers|
      modifies this`layers
      ensures Valid()
      ensures layers == old(layers)[layerIndex := MultiFrameCleared(old(layers[layerIndex]))]
    {
      layers := layers[layerIndex := layers[layerIndex].(multiFrameCellIndices := [])];
    }

    /** `setLayerDrawStrategy(strategy, layerIndex = 0)`. */
    method SetLayerDrawStrategy(strategy: DrawStrategy, layerIndex: nat := 0)
      requires Valid() && layerIndex < |layers|
      modifies this`layers
      ensures Valid()
      ensures layers == old(layers)[layerIndex := WithStrategy(old(layers[layerIndex]), strategy)]
    {
      layers := layers[layerIndex := layers[layerIndex].(drawStrategy := strategy)];
    }
  }

  /** `LayerController.Builder`: appends static layers to a controller of its
      own and hands that controller out. */
  class Builder {
    const controller: LayerController

    constructor ()
      ensures fresh(controller) && controller.layers == [] && controller.Valid()
    {
      controller := new LayerController();
    }

    /** `addLayerDrawnPerCell`: appends a fresh static per-cell layer. */
    method AddLayerDrawnPerCell()
      requires controller.Valid()
      modifies controller`layers
      ensures controller.Valid()
      ensures controller.layers == old(controller.layers) + [NewLayer(PerCell)]
    {
      controller.layers := controller.layers + [NewLayer(PerCell)];
    }

    /** `addLayerDrawnAsWhole`: appends a fresh static whole-canvas layer. */
    method AddLayerDrawnAsWhole()
      requires controller.Valid()
      modifies controller`layers
      ensures controller.Valid()
      ensures controller.layers == old(controller.layers) + [NewLayer(WholeCanvas)]
    {
      controller.layers := controller.layers + [NewLayer(WholeCanvas)];
    }

    /** `build`: the controller, with the layers in the order they were added. */
    method Build() returns (c: LayerController)
      ensures c == controller
    {
      c := controller;
    }
  }
}
