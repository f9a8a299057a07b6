/** Grid geometry shared by both revisions of the canvas grid component: the
    row and column gap tables with their inclusive prefix sums, the canvas
    extent, the flat table of cells, the three kinds of element a pointer can
    land on and the structural equality of elements. */
module Geometry {

  /** Which axis a gap table runs along. */
  datatype Axis = RowAxis | ColAxis

  /** The `gapSize` input: one size for every gap, or a pair of functions from
      a row-gap or column-gap index to that gap's size. */
  datatype GapSpec = Uniform(size: int) | PerIndex(rowFn: nat -> int, colFn: nat -> int)

  /** Size of gap `i` along `axis`. */
  function GapValue(spec: GapSpec, axis: Axis, i: nat): int {
    match spec
    case Uniform(g) => g
    case PerIndex(rowFn, colFn) => if axis == RowAxis then rowFn(i) else colFn(i)
  }

  /** Sum of the sizes of gaps 0..i along `axis`, both ends included. */
  function PrefixSum(spec: GapSpec, axis: Axis, i: nat): int {
    if i == 0 then GapValue(spec, axis, 0)
    else PrefixSum(spec, axis, i - 1) + GapValue(spec, axis, i)
  }

  /** The running offset the gap loop stores in the `y` field of a row gap or
      the `x` field of a column gap: at step i it grows by `extent * i` plus the
      sizes of gaps 0..i-1. It is kept as the source computes it and nothing is
      claimed about it. */
  function GapOffset(spec: GapSpec, axis: Axis, extent: int, i: nat): int {
    if i == 0 then 0
    else GapOffset(spec, axis, extent, i - 1) + extent * i + PrefixSum(spec, axis, i - 1)
  }

  /** One row gap or one column gap. */
  datatype GridGap = GridGap(row: nat, col: nat, value: int, prefixSum: int, x: int, y: int)

  /** The record the gap loop pushes at step `i`. */
  function GapAt(spec: GapSpec, axis: Axis, extent: int, i: nat): GridGap {
    var offset := GapOffset(spec, axis, extent, i);
    if axis == RowAxis then
      GridGap(i, 0, GapValue(spec, axis, i), PrefixSum(spec, axis, i), 0, offset)
    else
      GridGap(0, i, GapValue(spec, axis, i), PrefixSum(spec, axis, i), offset, 0)
  }

  /** The whole gap table of an axis with `count` cells: `count + 1` gaps, the
      two boundary gaps included. */
  function GapTable(spec: GapSpec, axis: Axis, count: nat, extent: int): (gaps: seq<GridGap>)
    ensures |gaps| == count + 1
  {
    seq(count + 1, i requires 0 <= i <= count => GapAt(spec, axis, extent, i))
  }

  /** `_rowGaps` (axis RowAxis, extent cellHeight) and `_colGaps` (axis ColAxis,
      extent cellWidth): one loop accumulating the running sum of gap sizes. */
  method ComputeGapTable(spec: GapSpec, axis: Axis, count: nat, extent: int) returns (gaps: seq<GridGap>)
    ensures |gaps| == count + 1
    ensures forall i :: 0 <= i <= count ==>
      if axis == RowAxis then gaps[i].row == i && gaps[i].col == 0
      else gaps[i].row == 0 && gaps[i].col == i
    ensures forall i :: 0 <= i <= count ==>
      gaps[i].value == GapValue(spec, axis, i) && gaps[i].prefixSum == PrefixSum(spec, axis, i)
    ensures gaps == GapTable(spec, axis, count, extent)
  {
    gaps := [];
    var sum := 0;
    var offset := 0;
    var i := 0;
    while i < count + 1
      invariant 0 <= i <= count + 1
      invariant |gaps| == i
      invariant forall k :: 0 <= k < i ==> gaps[k] == GapAt(spec, axis, extent, k)
      invariant sum == if i == 0 then 0 else PrefixSum(spec, axis, i - 1)
      invariant offset == if i == 0 then 0 else GapOffset(spec, axis, extent, i - 1)
    {
      var value := GapValue(spec, axis, i);
      offset := offset + extent * i + sum;
      sum := sum + value;
      if axis == RowAxis {
        gaps := gaps + [GridGap(i, 0, value, sum, 0, offset)];
      } else {
        gaps := gaps + [GridGap(0, i, value, sum, offset, 0)];
      }
      i := i + 1;
    }
  }

  /** Consecutive prefix sums differ by the size of the later gap. */
  lemma PrefixSumStep(spec: GapSpec, axis: Axis, count: nat, extent: int, i: nat)
    requires 0 < i <= count
    ensures GapTable(spec, axis, count, extent)[i].prefixSum
         == GapTable(spec, axis, count, extent)[i - 1].prefixSum + GapValue(spec, axis, i)
  {
  }

  /** With a uniform gap `g`, gaps 0..i sum to `(i + 1) * g`. */
  lemma {:induction false} PrefixSumUniform(g: int, axis: Axis, i: nat)
    ensures PrefixSum(Uniform(g), axis, i) == (i + 1) * g
  {
    if i > 0 {
      PrefixSumUniform(g, axis, i - 1);
      assert (i + 1) * g == i * g + g;
    }
  }

  /** Prefix sums never decrease along a table: this is what the hit test and
      the cell layout rely on. */
  ghost predicate GapsOrdered(gaps: seq<GridGap>) {
    forall j :: 0 < j < |gaps| ==> gaps[j - 1].prefixSum <= gaps[j].prefixSum
  }

  /** Non-negative gap sizes give an ordered table. */
  lemma NonNegativeGapsOrdered(spec: GapSpec, axis: Axis, count: nat, extent: int)
    requires forall i: nat :: i <= count ==> GapValue(spec, axis, i) >= 0
    ensures GapsOrdered(GapTable(spec, axis, count, extent))
  {
    var gaps := GapTable(spec, axis, count, extent);
    forall j | 0 < j < |gaps|
      ensures gaps[j - 1].prefixSum <= gaps[j].prefixSum
    {
      PrefixSumStep(spec, axis, count, extent, j);
    }
  }

  /** Ordered prefix sums are monotone over any distance, not just between
      neighbours. */
  lemma {:induction false} PrefixSumMonotone(gaps: seq<GridGap>, a: nat, b: nat)
    requires GapsOrdered(gaps)
    requires a <= b < |gaps|
    ensures gaps[a].prefixSum <= gaps[b].prefixSum
  {
    if a < b {
      PrefixSumMonotone(gaps, a, b - 1);
    }
  }

  /** The grid as the component derives it from its inputs: the counts, the
      cell size and the two gap tables. */
  datatype Grid = Grid(rows: nat, cols: nat, cellWidth: int, cellHeight: int,
                       rowGaps: seq<GridGap>, colGaps: seq<GridGap>)
  {
    /** The gap tables have the lengths the gap loops give them. */
    predicate WellFormed() {
      |rowGaps| == rows + 1 && |colGaps| == cols + 1
    }

    /** `_length`: the number of cells. */
    function Length(): nat {
      rows * cols
    }
  }

  /** The grid derived from the component's inputs. */
  function GridOf(rows: nat, cols: nat, cellWidth: int, cellHeight: int, spec: GapSpec): (g: Grid)
    ensures g.WellFormed()
  {
    Grid(rows, cols, cellWidth, cellHeight,
         GapTable(spec, RowAxis, rows, cellHeight), GapTable(spec, ColAxis, cols, cellWidth))
  }

  /** `_canvasWidth` and `_canvasHeight`: the cell extents along an axis plus the
      prefix sum of the axis's last gap. */
  function CanvasExtent(cellExtent: int, count: nat, gaps: seq<GridGap>): int
    requires |gaps| > 0
  {
    cellExtent * count + gaps[|gaps| - 1].prefixSum
  }

  function CanvasWidth(g: Grid): int
    requires g.WellFormed()
  {
    CanvasExtent(g.cellWidth, g.cols, g.colGaps)
  }

  function CanvasHeight(g: Grid): int
    requires g.WellFormed()
  {
    CanvasExtent(g.cellHeight, g.rows, g.rowGaps)
  }

  /** The canvas extent is the cells' total extent plus the sizes of all gaps
      of the axis, the two boundary gaps included. */
  lemma CanvasExtentIsSum(spec: GapSpec, axis: Axis, count: nat, extent: int)
    ensures CanvasExtent(extent, count, GapTable(spec, axis, count, extent))
         == extent * count + PrefixSum(spec, axis, count)
  {
  }

  /** With a uniform gap `g`: `count * extent + (count + 1) * g`. */
  lemma CanvasExtentUniform(g: int, axis: Axis, count: nat, extent: int)
    ensures CanvasExtent(extent, count, GapTable(Uniform(g), axis, count, extent))
         == count * extent + (count + 1) * g
  {
    PrefixSumUniform(g, axis, count);
  }

  /** Leading pixel edge of cell `m` along an axis: `m * extent` plus the
      prefix sum of gaps 0..m. */
  function Edge(gaps: seq<GridGap>, extent: int, m: nat): int
    requires m < |gaps|
  {
    m * extent + gaps[m].prefixSum
  }

  /** With ordered gaps and a non-negative extent, a cell never starts before
      the far edge of the cell before it. */
  lemma {:induction false} EdgesOrdered(gaps: seq<GridGap>, extent: int, a: nat, b: nat)
    requires GapsOrdered(gaps) && extent >= 0
    requires a < b < |gaps|
    ensures Edge(gaps, extent, a) + extent <= Edge(gaps, extent, b)
  {
    assert (b - 1) * extent + extent == b * extent;
    if a < b - 1 {
      EdgesOrdered(gaps, extent, a, b - 1);
    }
  }

  /** One cell of the grid. */
  datatype GridCell = GridCell(index: nat, row: nat, col: nat, x: int, y: int, w: int, h: int)

  /** Integer division by the column count splits a flat index into a row
      below `rows` and a column below `cols`. */
  lemma DivModSplit(i: nat, rows: nat, cols: nat)
    requires i < rows * cols
    ensures cols > 0
    ensures i / cols < rows && i % cols < cols
    ensures (i / cols) * cols + i % cols == i
  {
    assert cols > 0;
  }

  /** `k * n` grows with `k` for a positive `n`. */
  lemma MulAtLeast(k: int, n: int)
    requires k >= 1 && n > 0
    ensures k * n >= n
  {
    assert k * n == n + (k - 1) * n;
  }

  /** Quotient and remainder are unique: `q * n + m` with `0 <= m < n` divides
      back to `q` and `m`. */
  lemma DivUnique(i: int, n: int, q: int, m: int)
    requires n > 0 && 0 <= m < n && i == q * n + m
    ensures i / n == q && i % n == m
  {
    var q', m' := i / n, i % n;
    assert (q' - q) * n == m - m' by {
      assert (q' - q) * n == q' * n - q * n;
    }
    if q' > q {
      MulAtLeast(q' - q, n);
    } else if q' < q {
      MulAtLeast(q - q', n);
    }
  }

  /** Row `r` and column `c` inside the grid name a flat index inside it, and
      division recovers them. */
  lemma FlatIndexSplit(r: nat, c: nat, rows: nat, cols: nat)
    requires r < rows && c < cols
    ensures r * cols + c < rows * cols
    ensures (r * cols + c) / cols == r && (r * cols + c) % cols == c
  {
    assert (r + 1) * cols == r * cols + cols;
    MulAtLeast(rows - r, cols);
    assert rows * cols == r * cols + (rows - r) * cols;
    DivUnique(r * cols + c, cols, r, c);
  }

  /** Entry `i` of `cells`: row `floor(i / cols)`, column `i % cols`, placed
      after the cell extents and the prefix-summed gaps before it. */
  function CellAt(g: Grid, i: nat): (c: GridCell)
    requires g.WellFormed() && i < g.Length()
    ensures c.index == i && c.row < g.rows && c.col < g.cols
    ensures c.row * g.cols + c.col == i
    ensures c.x == Edge(g.colGaps, g.cellWidth, c.col) && c.y == Edge(g.rowGaps, g.cellHeight, c.row)
    ensures c.w == g.cellWidth && c.h == g.cellHeight
  {
    DivModSplit(i, g.rows, g.cols);
    var row := i / g.cols;
    var col := i % g.cols;
    GridCell(i, row, col,
             col * g.cellWidth + g.colGaps[col].prefixSum,
             row * g.cellHeight + g.rowGaps[row].prefixSum,
             g.cellWidth, g.cellHeight)
  }

  /** `cells`: every cell in index order, `rows * cols` of them. */
  function Cells(g: Grid): (cells: seq<GridCell>)
    requires g.WellFormed()
    ensures |cells| == g.Length()
    ensures forall i :: 0 <= i < |cells| ==> cells[i] == CellAt(g, i)
  {
    seq(g.Length(), i requires 0 <= i < g.Length() => CellAt(g, i))
  }

  /** The cell at row `r` and column `c` is entry `r * cols + c`: the inverse
      of the index split. */
  lemma CellOfRowCol(g: Grid, r: nat, c: nat)
    requires g.WellFormed() && r < g.rows && c < g.cols
    ensures r * g.cols + c < |Cells(g)|
    ensures Cells(g)[r * g.cols + c].row == r && Cells(g)[r * g.cols + c].col == c
  {
    FlatIndexSplit(r, c, g.rows, g.cols);
  }

  /** With a positive cell width and ordered column gaps, `x` strictly increases
      along a row. */
  lemma CellXIncreasesAlongRow(g: Grid, i: nat, j: nat)
    requires g.WellFormed() && g.cellWidth > 0 && GapsOrdered(g.colGaps)
    requires i < j < g.Length()
    requires Cells(g)[i].row == Cells(g)[j].row
    ensures Cells(g)[i].x < Cells(g)[j].x
  {
    var ci, cj := Cells(g)[i], Cells(g)[j];
    assert ci.row * g.cols + ci.col < cj.row * g.cols + cj.col;
    EdgesOrdered(g.colGaps, g.cellWidth, ci.col, cj.col);
  }

  /** What a pointer can land on: a cell, a single row or column gap, or the
      crossing of a row gap and a column gap. */
  datatype Element =
    | CellElement(cell: GridCell)
    | GapElement(gap: GridGap)
    | GapPairElement(rowGap: GridGap, colGap: GridGap)

  /** The identity of an element: its kind and the grid positions it carries. */
  datatype ElementKey =
    | CellKey(row: nat, col: nat)
    | GapKey(row: nat, col: nat)
    | GapPairKey(rowGapRow: nat, rowGapCol: nat, colGapRow: nat, colGapCol: nat)

  function KeyOf(e: Element): ElementKey {
    match e
    case CellElement(c) => CellKey(c.row, c.col)
    case GapElement(gap) => GapKey(gap.row, gap.col)
    case GapPairElement(rg, cg) => GapPairKey(rg.row, rg.col, cg.row, cg.col)
  }

  /** `equalElements`: same kind and same grid positions; pixel fields, sizes
      and prefix sums are not compared. */
  function EqualElements(a: Element, b: Element): (r: bool)
    ensures r <==> KeyOf(a) == KeyOf(b)
  {
    if a.CellElement? && b.CellElement? then
      a.cell.row == b.cell.row && a.cell.col == b.cell.col
    else if a.GapElement? && b.GapElement? then
      a.gap.row == b.gap.row && a.gap.col == b.gap.col
    else if a.GapPairElement? && b.GapPairElement? then
      a.rowGap.row == b.rowGap.row && a.rowGap.col == b.rowGap.col &&
      a.colGap.row == b.colGap.row && a.colGap.col == b.colGap.col
    else
      false
  }

  /** Two cells of one grid are equal elements exactly when they are the same
      cell index. */
  lemma EqualCellsSameIndex(g: Grid, i: nat, j: nat)
    requires g.WellFormed() && i < g.Length() && j < g.Length()
    ensures EqualElements(CellElement(Cells(g)[i]), CellElement(Cells(g)[j])) <==> i == j
  {
    var ci, cj := Cells(g)[i], Cells(g)[j];
    assert ci.row * g.cols + ci.col == i && cj.row * g.cols + cj.col == j;
  }
}
