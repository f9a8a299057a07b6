/** What a layer draws and the drawing calls a frame makes, shared by both
    revisions. Canvas calls are not performed: each `clearRect` and each call
    of a layer's draw callback is appended to a trace, so that a frame is
    described by the sequence of calls it makes. */
module LayerDrawing {
  import opened InsertionSet

  /** A layer's callback draws one cell at a time or the whole canvas at once. */
  datatype DrawKind = PerCell | WholeCanvas

  /** One canvas call made by render. */
  datatype DrawCall =
    | ClearLayer(layer: nat)              // clearRect over the whole canvas of a layer
    | ClearCell(layer: nat, index: nat)   // clearRect over the rectangle of one cell
    | DrawCell(layer: nat, index: nat)    // the per-cell callback, for one cell
    | DrawWhole(layer: nat)               // the whole-canvas callback
    | RequestFrame                        // requestAnimationFrame(render)

  /** The calls of `cells().forEach(cell => drawFn(...))`: one per cell, in
      index order. */
  function AllCellsTrace(layer: nat, n: nat): (t: seq<DrawCall>)
    ensures |t| == n
    ensures forall k :: 0 <= k < n ==> t[k] == DrawCell(layer, k)
  {
    if n == 0 then [] else AllCellsTrace(layer, n - 1) + [DrawCell(layer, n - 1)]
  }

  /** A whole-layer redraw draws every existing cell exactly once and no other. */
  lemma {:induction false} AllCellsDrawEachOnce(layer: nat, n: nat, k: nat)
    ensures multiset(AllCellsTrace(layer, n))[DrawCell(layer, k)] == if k < n then 1 else 0
  {
    if n > 0 {
      var before := AllCellsTrace(layer, n - 1);
      var last := DrawCell(layer, n - 1);
      AllCellsDrawEachOnce(layer, n - 1, k);
      assert AllCellsTrace(layer, n) == before + [last];
      assert multiset(before + [last]) == multiset(before) + multiset{last};
      assert multiset{last}[DrawCell(layer, k)] == if k == n - 1 then 1 else 0;
    }
  }

  /** The indices of `s` that name an existing cell, in the order of `s`:
      `if (index < this._length())`. */
  function InRange(s: seq<nat>, length: nat): (r: seq<nat>)
    ensures Elems(r) == set k | k in s && k < length
    ensures NoDup(s) ==> NoDup(r)
  {
    if s == [] then []
    else
      var init, last := s[..|s| - 1], s[|s| - 1];
      assert s == init + [last];
      ElemsAppend(init, [last]);
      var rest, tail := InRange(init, length), if last < length then [last] else [];
      ElemsAppend(rest, tail);
      assert NoDup(s) ==> NoDup(init) && last !in Elems(init);
      NoDupAppend(rest, tail);
      rest + tail
  }

  /** The calls of the dirty redraw: for each index in turn, clear that cell's
      rectangle, then draw it. */
  function DirtyTrace(layer: nat, indices: seq<nat>): (t: seq<DrawCall>)
    ensures |t| == 2 * |indices|
    ensures forall j :: 0 <= j < |indices| ==>
      t[2 * j] == ClearCell(layer, indices[j]) && t[2 * j + 1] == DrawCell(layer, indices[j])
  {
    if indices == [] then []
    else DirtyTrace(layer, indices[..|indices| - 1])
         + [ClearCell(layer, indices[|indices| - 1]), DrawCell(layer, indices[|indices| - 1])]
  }

  /** The `redrawIndices` set render builds: the one-shot indices, then the
      persistent ones not already in it. */
  function RedrawSet(single: seq<nat>, multi: seq<nat>): (r: seq<nat>)
    ensures Elems(r) == Elems(single) + Elems(multi)
    ensures NoDup(r)
  {
    AddAll(AddAll([], single), multi)
  }

  /** The two `forEach` loops that add the one-shot and then the persistent
      indices to the empty `redrawIndices` set. */
  method CollectRedrawIndices(redrawIndices: seq<nat>, single: seq<nat>, multi: seq<nat>) returns (r: seq<nat>)
    requires redrawIndices == []
    ensures r == RedrawSet(single, multi)
  {
    r := AddEach(redrawIndices, single);
    r := AddEach(r, multi);
  }

  /** A cell is drawn by the dirty redraw exactly when its index is in the
      list. */
  lemma {:induction false} DirtyTraceDraws(layer: nat, indices: seq<nat>, k: nat)
    ensures DrawCell(layer, k) in DirtyTrace(layer, indices) <==> k in indices
  {
    if indices != [] {
      var init := indices[..|indices| - 1];
      assert indices == init + [indices[|indices| - 1]];
      DirtyTraceDraws(layer, init, k);
    }
  }

  /** The dirty redraw draws each cell as often as its index occurs in the
      list. */
  lemma {:induction false} DirtyTraceCount(layer: nat, indices: seq<nat>, k: nat)
    ensures multiset(DirtyTrace(layer, indices))[DrawCell(layer, k)] == multiset(indices)[k]
  {
    if indices != [] {
      var init, last := indices[..|indices| - 1], indices[|indices| - 1];
      assert indices == init + [last];
      DirtyTraceCount(layer, init, k);
    }
  }

  /** The dirty redraw draws exactly the indices of the one-shot and the
      persistent sets that name an existing cell, each of them exactly once. */
  lemma DirtyRedrawDrawsEachOnce(layer: nat, single: seq<nat>, multi: seq<nat>, length: nat, k: nat)
    ensures multiset(DirtyTrace(layer, InRange(RedrawSet(single, multi), length)))[DrawCell(layer, k)]
         == if (k in single || k in multi) && k < length then 1 else 0
  {
    var redraw := RedrawSet(single, multi);
    var cells := InRange(redraw, length);
    assert NoDup(cells);
    DirtyTraceCount(layer, cells, k);
    NoDupCount(cells, k);
    assert k in cells <==> k in Elems(cells);
    assert k in Elems(cells) <==> k in Elems(redraw) && k < length;
    assert k in Elems(redraw) <==> k in Elems(single) || k in Elems(multi);
  }

  /** Draws every cell in index order: the loop over `cells()`. */
  method DrawAllCells(layer: nat, length: nat) returns (t: seq<DrawCall>)
    ensures t == AllCellsTrace(layer, length)
  {
    t := [];
    for k := 0 to length
      invariant t == AllCellsTrace(layer, k)
    {
      t := t + [DrawCell(layer, k)];
    }
  }

  /** The loop over `redrawIndices`: skips an index past the last cell, and for
      the others clears the cell's rectangle and draws it. */
  method RedrawIndices(layer: nat, redrawIndices: seq<nat>, length: nat) returns (t: seq<DrawCall>)
    ensures t == DirtyTrace(layer, InRange(redrawIndices, length))
  {
    t := [];
    for j := 0 to |redrawIndices|
      invariant t == DirtyTrace(layer, InRange(redrawIndices[..j], length))
    {
      var index := redrawIndices[j];
      ghost var before := InRange(redrawIndices[..j], length);
      assert redrawIndices[..j + 1][..j] == redrawIndices[..j];
      if index < length {
        assert InRange(redrawIndices[..j + 1], length) == before + [index];
        assert (before + [index])[..|before|] == before;
        t := t + [ClearCell(layer, index), DrawCell(layer, index)];
      } else {
        assert InRange(redrawIndices[..j + 1], length) == before;
      }
    }
    assert redrawIndices[..|redrawIndices|] == redrawIndices;
  }
}
