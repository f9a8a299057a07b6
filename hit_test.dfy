/** Pointer hit-testing, shared by both revisions: a binary search along one
    axis over the cells' leading edges (`findTargetCoordinate`), and the case
    split that turns a column result and a row result into a cell, a gap or a
    gap pair (`getTargetFromEvent`). */
module HitTest {
  import opened Geometry

  /** Result of the search along one axis: the index of a cell or of a gap. */
  datatype AxisHit = CellHit(index: nat) | GapHit(index: nat)

  /** `coord` lies in the closed band of cell `m`; both ends belong to the cell. */
  predicate InCell(gaps: seq<GridGap>, extent: int, m: nat, coord: int)
    requires m < |gaps|
  {
    Edge(gaps, extent, m) <= coord <= Edge(gaps, extent, m) + extent
  }

  /** Some cell among the first `count` has `coord` in its band. */
  predicate InSomeCell(gaps: seq<GridGap>, extent: int, count: nat, coord: int)
    requires count <= |gaps|
  {
    exists m: nat :: m < count && InCell(gaps, extent, m, coord)
  }

  /** The leading edges of the first `count` cells along an axis. */
  function Edges(gaps: seq<GridGap>, extent: int, count: nat): (r: seq<int>)
    requires count <= |gaps|
    ensures |r| == count
  {
    if count == 0 then [] else Edges(gaps, extent, count - 1) + [Edge(gaps, extent, count - 1)]
  }

  /** Entry `m` of the edge table is the leading edge of cell `m`. */
  lemma {:induction false} EdgesAt(gaps: seq<GridGap>, extent: int, count: nat, m: nat)
    requires count <= |gaps| && m < count
    ensures Edges(gaps, extent, count)[m] == Edge(gaps, extent, m)
  {
    if m < count - 1 {
      EdgesAt(gaps, extent, count - 1, m);
    }
  }

  /** The probe of a search over `lo..hi`: the middle cell, rounded down,
      found by moving both ends inwards so that the search proofs need no
      division. */
  function Mid(lo: nat, hi: int): (m: nat)
    requires lo <= hi
    ensures lo <= m <= hi
    decreases hi - lo
  {
    if hi - lo <= 1 then lo else Mid(lo + 1, hi - 1)
  }

  /** `Mid` is the halved sum the source computes. */
  lemma {:induction false} MidIsHalf(lo: nat, hi: int)
    requires lo <= hi
    ensures Mid(lo, hi) == (lo + hi) / 2
    decreases hi - lo
  {
    if hi - lo > 1 {
      MidIsHalf(lo + 1, hi - 1);
    }
  }

  /** The search over cells `lo..hi` of the band edges `edges` as a recursive
      function: the cells below `lo` end before `coord` and the cells above
      `hi` start after it. */
  function Search(edges: seq<int>, extent: int, coord: int, lo: nat, hi: int): AxisHit
    requires lo <= hi + 1 <= |edges|
    requires lo == 0 || coord > edges[lo - 1] + extent
    requires hi + 1 == |edges| || coord < edges[hi + 1]
    decreases hi - lo + 1
  {
    if lo > hi then GapHit(lo)
    else
      var m: int := Mid(lo, hi);
      if coord < edges[m] then Search(edges, extent, coord, lo, m - 1)
      else if coord > edges[m] + extent then Search(edges, extent, coord, m + 1, hi)
      else CellHit(m)
  }

  /** What the search over `lo..hi` finds: a cell result contains `coord`; a
      gap result `k` lies after the far edge of cell `k - 1` and before the
      leading edge of cell `k`. */
  lemma {:induction false} SearchSound(edges: seq<int>, extent: int, coord: int, lo: nat, hi: int)
    requires lo <= hi + 1 <= |edges|
    requires lo == 0 || coord > edges[lo - 1] + extent
    requires hi + 1 == |edges| || coord < edges[hi + 1]
    ensures var r := Search(edges, extent, coord, lo, hi);
      && (r.CellHit? ==> lo <= r.index <= hi && edges[r.index] <= coord <= edges[r.index] + extent)
      && (r.GapHit? ==> lo <= r.index <= hi + 1)
      && (r.GapHit? ==> r.index == 0 || coord > edges[r.index - 1] + extent)
      && (r.GapHit? ==> r.index == |edges| || coord < edges[r.index])
    decreases hi - lo + 1
  {
    if lo <= hi {
      var m: int := Mid(lo, hi);
      if coord < edges[m] {
        assert Search(edges, extent, coord, lo, hi) == Search(edges, extent, coord, lo, m - 1);
        SearchSound(edges, extent, coord, lo, m - 1);
      } else if coord > edges[m] + extent {
        assert Search(edges, extent, coord, lo, hi) == Search(edges, extent, coord, m + 1, hi);
        SearchSound(edges, extent, coord, m + 1, hi);
      } else {
        assert Search(edges, extent, coord, lo, hi) == CellHit(m);
      }
    }
  }

  /** The whole search along an axis with `count` cells. */
  function Locate(gaps: seq<GridGap>, extent: int, count: nat, coord: int): (r: AxisHit)
    requires count <= |gaps|
    ensures r.CellHit? ==> r.index < count && InCell(gaps, extent, r.index, coord)
    ensures r.GapHit? ==> r.index <= count
    ensures r.GapHit? ==> r.index == 0 || coord > Edge(gaps, extent, r.index - 1) + extent
    ensures r.GapHit? ==> r.index == count || coord < Edge(gaps, extent, r.index)
  {
    var edges := Edges(gaps, extent, count);
    SearchSound(edges, extent, coord, 0, count - 1);
    var r := Search(edges, extent, coord, 0, count - 1);
    if r.index < count then
      EdgesAt(gaps, extent, count, r.index);
      if 0 < r.index then EdgesAt(gaps, extent, count, r.index - 1); r else r
    else if 0 < r.index then
      EdgesAt(gaps, extent, count, r.index - 1); r
    else r
  }

  /** One probe of the search: the middle cell either contains `coord` or
      rules out itself and one side. */
  lemma SearchProbe(edges: seq<int>, extent: int, coord: int, lo: nat, hi: int, m: nat)
    requires lo <= hi < |edges| && m == Mid(lo, hi)
    requires lo == 0 || coord > edges[lo - 1] + extent
    requires hi + 1 == |edges| || coord < edges[hi + 1]
    ensures coord < edges[m] ==>
      Search(edges, extent, coord, lo, m - 1) == Search(edges, extent, coord, lo, hi)
    ensures edges[m] <= coord && coord > edges[m] + extent ==>
      Search(edges, extent, coord, m + 1, hi) == Search(edges, extent, coord, lo, hi)
    ensures edges[m] <= coord <= edges[m] + extent ==>
      Search(edges, extent, coord, lo, hi) == CellHit(m)
  {
  }

  /** `findTargetCoordinate`: the while loop narrowing `leftI..rightI`. It
      always terminates and computes `Locate`. */
  method FindTargetCoordinate(gaps: seq<GridGap>, cellExtent: int, dimCellCount: nat, eventCoord: int)
    returns (r: AxisHit)
    requires dimCellCount <= |gaps|
    ensures r == Locate(gaps, cellExtent, dimCellCount, eventCoord)
  {
    ghost var edges := Edges(gaps, cellExtent, dimCellCount);
    var leftI: int := 0;
    var rightI: int := dimCellCount - 1;
    while leftI <= rightI
      invariant 0 <= leftI <= rightI + 1 <= dimCellCount
      invariant leftI == 0 || eventCoord > edges[leftI - 1] + cellExtent
      invariant rightI + 1 == dimCellCount || eventCoord < edges[rightI + 1]
      invariant Search(edges, cellExtent, eventCoord, leftI, rightI)
             == Search(edges, cellExtent, eventCoord, 0, dimCellCount - 1)
      decreases rightI - leftI
    {
      var midI := (rightI + leftI) / 2;
      MidIsHalf(leftI, rightI);
      var closestCell := midI * cellExtent + gaps[midI].prefixSum;
      EdgesAt(gaps, cellExtent, dimCellCount, midI);
      SearchProbe(edges, cellExtent, eventCoord, leftI, rightI, midI);
      if eventCoord < closestCell {
        rightI := midI - 1;
      } else if eventCoord > closestCell + cellExtent {
        leftI := midI + 1;
      } else {
        return CellHit(midI);
      }
    }
    return GapHit(leftI);
  }

  /** With ordered gaps and a non-negative extent the bands are sorted, so a
      gap result means that no cell band contains the coordinate, and the
      search finds a cell exactly when some cell band contains it. */
  lemma LocateCellIff(gaps: seq<GridGap>, extent: int, count: nat, coord: int)
    requires count <= |gaps| && GapsOrdered(gaps) && extent >= 0
    ensures Locate(gaps, extent, count, coord).CellHit? <==> InSomeCell(gaps, extent, count, coord)
  {
    var r := Locate(gaps, extent, count, coord);
    if r.GapHit? {
      var k := r.index;
      forall m: nat | m < count
        ensures !InCell(gaps, extent, m, coord)
      {
        if m + 1 < k {
          EdgesOrdered(gaps, extent, m, k - 1);
        } else if k < m {
          EdgesOrdered(gaps, extent, k, m);
        }
      }
    }
  }

  /** A coordinate that lies in the band of cell `m` and of no other cell is
      resolved to cell `m`. */
  lemma LocateOnlyBand(gaps: seq<GridGap>, extent: int, count: nat, coord: int, m: nat)
    requires count <= |gaps| && GapsOrdered(gaps) && extent >= 0
    requires m < count && InCell(gaps, extent, m, coord)
    requires forall m': nat :: m' < count && m' != m ==> !InCell(gaps, extent, m', coord)
    ensures Locate(gaps, extent, count, coord) == CellHit(m)
  {
    LocateCellIff(gaps, extent, count, coord);
  }

  /** A coordinate strictly inside the band of cell `m` is resolved to `m`. */
  lemma LocateInterior(gaps: seq<GridGap>, extent: int, count: nat, coord: int, m: nat)
    requires count <= |gaps| && GapsOrdered(gaps) && extent >= 0
    requires m < count
    requires Edge(gaps, extent, m) < coord < Edge(gaps, extent, m) + extent
    ensures Locate(gaps, extent, count, coord) == CellHit(m)
  {
    forall m': nat | m' < count && m' != m
      ensures !InCell(gaps, extent, m', coord)
    {
      if m' < m {
        EdgesOrdered(gaps, extent, m', m);
      } else {
        EdgesOrdered(gaps, extent, m, m');
      }
    }
    LocateOnlyBand(gaps, extent, count, coord, m);
  }

  /** Both ends of a band belong to the cell: the leading edge of cell `m`,
      when the gap before it is not empty, is resolved to `m` and not to the
      gap. */
  lemma LocateLeadingEdge(gaps: seq<GridGap>, extent: int, count: nat, m: nat)
    requires count <= |gaps| && GapsOrdered(gaps) && extent > 0
    requires m < count
    requires m == 0 || gaps[m - 1].prefixSum < gaps[m].prefixSum
    ensures Locate(gaps, extent, count, Edge(gaps, extent, m)) == CellHit(m)
  {
    var coord := Edge(gaps, extent, m);
    forall m': nat | m' < count && m' != m
      ensures !InCell(gaps, extent, m', coord)
    {
      if m' < m {
        if m' + 1 < m {
          EdgesOrdered(gaps, extent, m', m - 1);
        }
        assert Edge(gaps, extent, m - 1) + extent < coord;
      } else {
        EdgesOrdered(gaps, extent, m, m');
      }
    }
    LocateOnlyBand(gaps, extent, count, coord, m);
  }

  /** A one-axis result fits the axis: a cell below `count`, a gap at most
      `count` (the trailing boundary gap). */
  predicate FitsAxis(h: AxisHit, count: nat) {
    if h.CellHit? then h.index < count else h.index <= count
  }

  /** The case split of `getTargetFromEvent`: a cell on both axes is the cell
      at `row * cols + col`; a gap on both axes is a gap pair; otherwise the
      element is the column gap when the column search gave a gap, and the row
      gap when the row search did. */
  function Combine(g: Grid, colHit: AxisHit, rowHit: AxisHit): (e: Element)
    requires g.WellFormed() && FitsAxis(colHit, g.cols) && FitsAxis(rowHit, g.rows)
    ensures e.CellElement? <==> colHit.CellHit? && rowHit.CellHit?
    ensures e.CellElement? ==> e.cell.index < g.Length() && e.cell == Cells(g)[e.cell.index]
    ensures e.CellElement? ==> e.cell.row == rowHit.index && e.cell.col == colHit.index
    ensures e.GapPairElement? <==> colHit.GapHit? && rowHit.GapHit?
    ensures e.GapPairElement? ==> e.colGap == g.colGaps[colHit.index] && e.rowGap == g.rowGaps[rowHit.index]
    ensures e.GapElement? && colHit.GapHit? ==> e.gap == g.colGaps[colHit.index]
    ensures e.GapElement? && rowHit.GapHit? ==> e.gap == g.rowGaps[rowHit.index]
  {
    if colHit.CellHit? && rowHit.CellHit? then
      CellOfRowCol(g, rowHit.index, colHit.index);
      CellElement(Cells(g)[rowHit.index * g.cols + colHit.index])
    else if colHit.GapHit? && rowHit.GapHit? then
      GapPairElement(g.rowGaps[rowHit.index], g.colGaps[colHit.index])
    else if colHit.GapHit? then
      GapElement(g.colGaps[colHit.index])
    else
      GapElement(g.rowGaps[rowHit.index])
  }

  /** The element under canvas pixel `(x, y)`. */
  function TargetAt(g: Grid, x: int, y: int): Element
    requires g.WellFormed()
  {
    Combine(g, Locate(g.colGaps, g.cellWidth, g.cols, x), Locate(g.rowGaps, g.cellHeight, g.rows, y))
  }

  /** `getTargetFromEvent` once the pixel is known: one search per axis, then
      the case split. */
  method GetTargetFromEvent(g: Grid, x: int, y: int) returns (e: Element)
    requires g.WellFormed()
    ensures e == TargetAt(g, x, y)
  {
    var colI := FindTargetCoordinate(g.colGaps, g.cellWidth, g.cols, x);
    var rowI := FindTargetCoordinate(g.rowGaps, g.cellHeight, g.rows, y);
    if colI.CellHit? && rowI.CellHit? {
      var index := rowI.index * g.cols + colI.index;
      CellOfRowCol(g, rowI.index, colI.index);
      return CellElement(Cells(g)[index]);
    }
    if colI.GapHit? && rowI.GapHit? {
      return GapPairElement(g.rowGaps[rowI.index], g.colGaps[colI.index]);
    }
    if colI.GapHit? {
      return GapElement(g.colGaps[colI.index]);
    }
    return GapElement(g.rowGaps[rowI.index]);
  }

  /** The grid's bands are sorted on both axes. */
  ghost predicate Ordered(g: Grid) {
    g.WellFormed() && g.cellWidth >= 0 && g.cellHeight >= 0 &&
    GapsOrdered(g.colGaps) && GapsOrdered(g.rowGaps)
  }

  /** What the resolved element means on a grid with sorted bands: a cell
      whose closed rectangle contains the pixel, exactly when the pixel is in
      some column band and some row band; a gap pair exactly when it is in
      neither; a single gap otherwise. */
  lemma TargetAtMeaning(g: Grid, x: int, y: int)
    requires Ordered(g)
    ensures var e := TargetAt(g, x, y);
      && (e.CellElement? <==> InSomeCell(g.colGaps, g.cellWidth, g.cols, x) && InSomeCell(g.rowGaps, g.cellHeight, g.rows, y))
      && (e.CellElement? ==> e.cell.x <= x <= e.cell.x + e.cell.w && e.cell.y <= y <= e.cell.y + e.cell.h)
      && (e.GapPairElement? <==> !InSomeCell(g.colGaps, g.cellWidth, g.cols, x) && !InSomeCell(g.rowGaps, g.cellHeight, g.rows, y))
  {
    LocateCellIff(g.colGaps, g.cellWidth, g.cols, x);
    LocateCellIff(g.rowGaps, g.cellHeight, g.rows, y);
  }

  /** Round trip: the centre of every cell resolves to that cell, when cells are
      at least two pixels wide and high. */
  lemma CellCentreResolves(g: Grid, i: nat)
    requires Ordered(g) && g.cellWidth >= 2 && g.cellHeight >= 2
    requires i < g.Length()
    ensures TargetAt(g, Cells(g)[i].x + Cells(g)[i].w / 2, Cells(g)[i].y + Cells(g)[i].h / 2)
         == CellElement(Cells(g)[i])
  {
    var c := Cells(g)[i];
    LocateInterior(g.colGaps, g.cellWidth, g.cols, c.x + c.w / 2, c.col);
    LocateInterior(g.rowGaps, g.cellHeight, g.rows, c.y + c.h / 2, c.row);
  }

  /** Three columns ten pixels wide without gaps: x = 25 is in column 2. */
  lemma ScenarioNoGap()
    ensures Locate(GapTable(Uniform(0), ColAxis, 3, 10), 10, 3, 25) == CellHit(2)
  {
    var gaps := GapTable(Uniform(0), ColAxis, 3, 10);
    assert gaps[1].prefixSum == 0 && gaps[2].prefixSum == 0;
  }

  /** The same columns with gaps of 2: x = 25 falls in column gap 2. */
  lemma ScenarioGapTwo()
    ensures Locate(GapTable(Uniform(2), ColAxis, 3, 10), 10, 3, 25) == GapHit(2)
  {
    var gaps := GapTable(Uniform(2), ColAxis, 3, 10);
    assert gaps[1].prefixSum == 4 && gaps[2].prefixSum == 6;
  }

  /** On the 3 by 3 grid with cells of 10 pixels, pixel (25, 5) is cell 2
      without gaps, and column gap 2 with gaps of 2. */
  lemma ScenarioGrid()
    ensures TargetAt(GridOf(3, 3, 10, 10, Uniform(0)), 25, 5)
         == CellElement(Cells(GridOf(3, 3, 10, 10, Uniform(0)))[2])
    ensures TargetAt(GridOf(3, 3, 10, 10, Uniform(2)), 25, 5)
         == GapElement(GridOf(3, 3, 10, 10, Uniform(2)).colGaps[2])
  {
    ScenarioNoGap();
    ScenarioGapTwo();
    var g0 := GridOf(3, 3, 10, 10, Uniform(0));
    assert g0.rowGaps[0].prefixSum == 0;
    assert Locate(g0.rowGaps, 10, 3, 5) == CellHit(0);
    var g2 := GridOf(3, 3, 10, 10, Uniform(2));
    assert g2.rowGaps[0].prefixSum == 2 && g2.rowGaps[1].prefixSum == 4;
    assert Locate(g2.rowGaps, 10, 3, 5) == CellHit(0);
  }
}
