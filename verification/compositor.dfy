/** The drawing walk of index.js `merge`: one counter `i`, shared by all
    pages, picks the next input element for every cell visited in row-major
    order, and stops handing out elements once all have been used. Only which
    element goes to which cell is modelled, not the pixels. */
module Compositor {
  import opened Numeric
  import opened GridSolver
  import opened PaginationPlanner

  /** Element `index` of the input, drawn in `row` and `column` of its page. */
  datatype Cell = Cell(index: nat, row: nat, column: nat)

  /** Elements still undrawn when the counter stands at `start`. */
  function Available(start: nat, n: nat): nat {
    if start >= n then 0 else n - start
  }

  /** How many elements a page with grid `g` draws from counter `start`. */
  function DrawnCount(start: nat, g: Grid, n: nat): (d: nat)
    ensures d <= g.Cells() && d <= Available(start, n)
    ensures d == g.Cells() || d == Available(start, n)
  {
    Min(g.Cells(), Available(start, n))
  }

  /** Cell `k` of a page, counted in row-major order from element `start`. */
  predicate RowMajorFrom(cells: seq<Cell>, start: nat, columns: nat) {
    forall k :: 0 <= k < |cells| ==>
      columns > 0 && cells[k] == Cell(start + k, k / columns, k % columns)
  }

  lemma RowMajorPosition(r: nat, c: nat, columns: nat)
    requires c < columns
    ensures (r * columns + c) / columns == r && (r * columns + c) % columns == c
  {
    var k := r * columns + c;
    var q, m := k / columns, k % columns;
    assert k == q * columns + m;
    if q < r {
      MulMonotone(q + 1, r, columns);
    } else if q > r {
      MulMonotone(r + 1, q, columns);
    }
  }

  lemma RowBelowRows(k: nat, columns: nat, rows: nat)
    requires k < columns * rows
    ensures columns > 0 && k / columns < rows
  {
    if k / columns >= rows {
      MulMonotone(rows, k / columns, columns);
    }
  }

  /** What one page draws: the next `DrawnCount` elements, in row-major
      order, each in a cell of the page's grid. */
  function PageCells(start: nat, g: Grid, n: nat): (cells: seq<Cell>)
    ensures |cells| == DrawnCount(start, g, n)
    ensures RowMajorFrom(cells, start, g.columns)
  {
    var d := DrawnCount(start, g, n);
    seq(d, k requires 0 <= k < d => RowBelowRows(k, g.columns, g.rows); Cell(start + k, k / g.columns, k % g.columns))
  }

  /** Every cell a page draws lies in its grid. */
  lemma PageCellsInGrid(start: nat, g: Grid, n: nat)
    ensures var cells := PageCells(start, g, n);
      forall k :: 0 <= k < |cells| ==> cells[k].row < g.rows && cells[k].column < g.columns
  {
    var cells := PageCells(start, g, n);
    forall k | 0 <= k < |cells|
      ensures cells[k].row < g.rows && cells[k].column < g.columns
    {
      RowBelowRows(k, g.columns, g.rows);
    }
  }

  /** Appending the cell at row `r`, column `c` keeps the row-major layout
      when exactly `r` full rows and `c` cells precede it. */
  lemma RowMajorAppend(cells: seq<Cell>, start: nat, columns: nat, r: nat, c: nat)
    requires RowMajorFrom(cells, start, columns)
    requires c < columns && |cells| == r * columns + c
    ensures RowMajorFrom(cells + [Cell(start + |cells|, r, c)], start, columns)
  {
    RowMajorPosition(r, c, columns);
  }

  /** One page of the drawing walk, as the nested loops of `merge` do it:
      rows outer, columns inner, stopping once the counter reaches `n`.
      Returns the cells drawn and the counter afterwards. */
  method DrawPage(g: Grid, start: nat, n: nat) returns (cells: seq<Cell>, next: nat)
    ensures cells == PageCells(start, g, n)
    ensures next == start + |cells|
  {
    cells := [];
    next := start;
    var r := 0;
    var before := 0;  // cells in the rows above row r: r * g.columns
    while r < g.rows
      invariant 0 <= r <= g.rows && before == r * g.columns
      invariant next == start + |cells|
      invariant |cells| == Min(before, Available(start, n))
      invariant RowMajorFrom(cells, start, g.columns)
    {
      var c := 0;
      while c < g.columns
        invariant 0 <= c <= g.columns
        invariant next == start + |cells|
        invariant |cells| == Min(before + c, Available(start, n))
        invariant RowMajorFrom(cells, start, g.columns)
        decreases g.columns - c
      {
        if next >= n {
          break;
        }
        RowMajorAppend(cells, start, g.columns, r, c);
        cells := cells + [Cell(next, r, c)];
        next := next + 1;
        c := c + 1;
      }
      assert |cells| == Min(before + g.columns, Available(start, n));
      assert (r + 1) * g.columns == r * g.columns + g.columns;
      r := r + 1;
      before := before + g.columns;
    }
    assert g.rows * g.columns == g.columns * g.rows;
    RowMajorIsPageCells(cells, start, g, n);
  }

  /** A row-major sequence of the right length is what the page draws. */
  lemma RowMajorIsPageCells(cells: seq<Cell>, start: nat, g: Grid, n: nat)
    requires |cells| == DrawnCount(start, g, n) && RowMajorFrom(cells, start, g.columns)
    ensures cells == PageCells(start, g, n)
  {
    var expected := PageCells(start, g, n);
    assert forall k :: 0 <= k < |cells| ==> cells[k] == expected[k];
  }

  /** The whole walk: the cells of every page, the counter carried from one
      page to the next. */
  function Placement(layouts: seq<Grid>, start: nat, n: nat): (pages: seq<seq<Cell>>)
    ensures |pages| == |layouts|
    decreases |layouts|
  {
    if |layouts| == 0 then []
    else [PageCells(start, layouts[0], n)] + Placement(layouts[1..], start + DrawnCount(start, layouts[0], n), n)
  }

  /** The page loop of `merge`, with its counter starting at 0. */
  method Place(layouts: seq<Grid>, n: nat) returns (pages: seq<seq<Cell>>)
    ensures pages == Placement(layouts, 0, n)
  {
    var i: nat := 0;
    pages := [];
    for index := 0 to |layouts|
      invariant pages + Placement(layouts[index..], i, n) == Placement(layouts, 0, n)
    {
      var remaining := Placement(layouts[index..], i, n);
      assert remaining == [PageCells(i, layouts[index], n)]
          + Placement(layouts[index + 1..], i + DrawnCount(i, layouts[index], n), n) by {
        assert layouts[index..][0] == layouts[index];
        assert layouts[index..][1..] == layouts[index + 1..];
      }
      var cells;
      cells, i := DrawPage(layouts[index], i, n);
      assert (pages + [cells]) + Placement(layouts[index + 1..], i, n) == pages + remaining;
      pages := pages + [cells];
    }
  }

  /** All cells of all pages, in drawing order. */
  function Flatten(pages: seq<seq<Cell>>): seq<Cell> {
    if |pages| == 0 then [] else pages[0] + Flatten(pages[1..])
  }

  /** Total number of cells over a sequence of grids. */
  function TotalCells(layouts: seq<Grid>): nat {
    if |layouts| == 0 then 0 else layouts[0].Cells() + TotalCells(layouts[1..])
  }

  /** The counter hands out consecutive elements from `start`: as many as
      remain or as the grids have cells, whichever is fewer. So no element
      is drawn twice, none is drawn out of order, and none lies past `n`. */
  lemma {:induction false} PlacementIndices(layouts: seq<Grid>, start: nat, n: nat)
    requires start <= n
    ensures var cells := Flatten(Placement(layouts, start, n));
      && |cells| == Min(n - start, TotalCells(layouts))
      && (forall k :: 0 <= k < |cells| ==> cells[k].index == start + k)
    decreases |layouts|
  {
    if |layouts| > 0 {
      var d := DrawnCount(start, layouts[0], n);
      PlacementIndices(layouts[1..], start + d, n);
      var pages := Placement(layouts, start, n);
      assert pages[1..] == Placement(layouts[1..], start + d, n);
    }
  }

  /** Cells never exceed their page's grid. */
  lemma {:induction false} PlacementInGrid(layouts: seq<Grid>, start: nat, n: nat)
    ensures var pages := Placement(layouts, start, n);
      forall p, k :: 0 <= p < |pages| && 0 <= k < |pages[p]| ==>
        pages[p][k].row < layouts[p].rows && pages[p][k].column < layouts[p].columns
    decreases |layouts|
  {
    if |layouts| > 0 {
      var next := start + DrawnCount(start, layouts[0], n);
      PlacementInGrid(layouts[1..], next, n);
      PageCellsInGrid(start, layouts[0], n);
      PlacementStep(layouts, start, n);
      var pages := Placement(layouts, start, n);
      var rest := Placement(layouts[1..], next, n);
      forall p | 1 <= p < |pages|
        ensures pages[p] == rest[p - 1]
      {
        assert pages[1..][p - 1] == pages[p];
      }
    }
  }

  /** No page draws more elements than its grid has cells. */
  lemma {:induction false} PlacementFitsGrids(layouts: seq<Grid>, start: nat, n: nat)
    ensures var pages := Placement(layouts, start, n);
      forall p :: 0 <= p < |pages| ==> |pages[p]| <= layouts[p].Cells()
    decreases |layouts|
  {
    if |layouts| > 0 {
      var next := start + DrawnCount(start, layouts[0], n);
      PlacementFitsGrids(layouts[1..], next, n);
      PlacementStep(layouts, start, n);
      var pages := Placement(layouts, start, n);
      var rest := Placement(layouts[1..], next, n);
      forall p | 1 <= p < |pages|
        ensures pages[p] == rest[p - 1]
      {
        assert pages[1..][p - 1] == pages[p];
      }
    }
  }

  /** Grids at least as large as their assigned counts have in total at
      least as many cells as elements. */
  lemma {:induction false} TotalCellsCoverElements(layouts: seq<Grid>)
    requires forall i :: 0 <= i < |layouts| ==> layouts[i].Cells() as real >= layouts[i].elements
    ensures TotalCells(layouts) as real >= SumElements(layouts)
    decreases |layouts|
  {
    if |layouts| > 0 {
      TotalCellsCoverElements(layouts[1..]);
    }
  }

  /** With the layouts of `createLayouts`, every element `0 .. elCount-1` is
      drawn exactly once, in increasing order across the pages. */
  lemma CreateLayoutsDrawsEveryElement(elCount: nat, elWidth: real, elHeight: real, triggerSplitCount: nat, maxPagesCount: nat)
    requires ValidParams(elWidth, elHeight, triggerSplitCount, maxPagesCount)
    ensures var cells := Flatten(Placement(CreateLayouts(elCount, elWidth, elHeight, triggerSplitCount, maxPagesCount), 0, elCount));
      |cells| == elCount && forall k :: 0 <= k < |cells| ==> cells[k].index == k
  {
    var layouts := CreateLayouts(elCount, elWidth, elHeight, triggerSplitCount, maxPagesCount);
    CreateLayoutsPages(elCount, elWidth, elHeight, triggerSplitCount, maxPagesCount);
    CreateLayoutsSum(elCount, elWidth, elHeight, triggerSplitCount, maxPagesCount);
    TotalCellsCoverElements(layouts);
    PlacementIndices(layouts, 0, elCount);
  }

  /** As written, a full page draws as many elements as its re-solved grid
      has cells, not the capacity it was assigned: with 33 elements of size
      1 x 2 and at most 3 pages, the pages draw 18, 15 and 0 elements, so
      the last page is left blank although it was planned for 3. */
  lemma CreateLayoutsOverdraws()
    ensures var layouts := CreateLayouts(33, 1.0, 2.0, 1, 3);
      var pages := Placement(layouts, 0, 33);
      && |pages| == 3
      && |pages[0]| == 18 && layouts[0].elements == 15.0
      && |pages[1]| == 15 && layouts[1].elements == 15.0
      && |pages[2]| == 0 && layouts[2].elements == 3.0
  {
    ResolvedCapacityOverflows();
    var layouts := CreateLayouts(33, 1.0, 2.0, 1, 3);
    var pages := Placement(layouts, 0, 33);
    assert pages[0] == PageCells(0, layouts[0], 33);
    var rest := Placement(layouts[1..], 18, 33);
    assert pages[1..] == rest;
    assert rest[0] == PageCells(18, layouts[1], 33);
    assert rest[1..] == Placement(layouts[2..], 33, 33);
    assert pages[2] == Placement(layouts[2..], 33, 33)[0];
  }

  /** Page `j` of a planned layout, started at counter `j * cap`, draws
      exactly the elements it was planned for. */
  lemma PlannedPageDraws(layouts: seq<Grid>, n: nat, cap: nat, j: nat)
    requires cap >= 1 && PlanShape(layouts, n, cap)
    requires forall i :: 0 <= i < |layouts| - 1 ==> layouts[i].Cells() == cap
    requires j < |layouts|
    ensures DrawnCount(j * cap, layouts[j], n) as real == layouts[j].elements
    ensures DrawnCount(j * cap, layouts[j], n) >= 1
    ensures j < |layouts| - 1 ==> DrawnCount(j * cap, layouts[j], n) == cap
  {
    PlanShapeRemainder(layouts, n, cap);
    MulMonotone(j, |layouts| - 1, cap);
    if j < |layouts| - 1 {
      MulMonotone(j + 1, |layouts| - 1, cap);
    }
  }

  /** Unfolds one page of `Placement`. */
  lemma PlacementStep(layouts: seq<Grid>, start: nat, n: nat)
    requires |layouts| > 0
    ensures Placement(layouts, start, n)[0] == PageCells(start, layouts[0], n)
    ensures Placement(layouts, start, n)[1..]
         == Placement(layouts[1..], start + DrawnCount(start, layouts[0], n), n)
  {
  }

  /** From page `j` on, started at counter `start == j * cap`, every page of
      a planned layout draws exactly its planned elements, at least one. */
  lemma {:induction false} PlannedPlacementFrom(layouts: seq<Grid>, n: nat, cap: nat, j: nat, start: nat)
    requires cap >= 1 && PlanShape(layouts, n, cap)
    requires forall i :: 0 <= i < |layouts| - 1 ==> layouts[i].Cells() == cap
    requires j <= |layouts| && start == j * cap
    ensures var pages := Placement(layouts[j..], start, n);
      forall k :: 0 <= k < |pages| ==>
        |pages[k]| as real == layouts[j + k].elements && |pages[k]| >= 1
    decreases |layouts| - j
  {
    if j < |layouts| {
      var pages := Placement(layouts[j..], start, n);
      PlannedPageDraws(layouts, n, cap, j);
      PlacementStep(layouts[j..], start, n);
      assert layouts[j..][1..] == layouts[j + 1..];
      if j < |layouts| - 1 {
        MulSucc(j, cap);
        PlannedPlacementFrom(layouts, n, cap, j + 1, start + cap);
        var rest := Placement(layouts[j + 1..], start + cap, n);
        assert pages[1..] == rest;
        forall k | 1 <= k < |pages|
          ensures |pages[k]| as real == layouts[j + k].elements && |pages[k]| >= 1
        {
          assert pages[k] == rest[k - 1];
        }
      }
    }
  }

  /** With the corrected plan every page draws exactly the elements it was
      planned for, at least one, and every element `0 .. elCount-1` is drawn
      exactly once, in increasing order. */
  lemma PlanPagesDrawExactly(elCount: nat, elWidth: real, elHeight: real, triggerSplitCount: nat, maxPagesCount: nat)
    requires ValidParams(elWidth, elHeight, triggerSplitCount, maxPagesCount)
    ensures var layouts := PlanPages(elCount, elWidth, elHeight, triggerSplitCount, maxPagesCount);
      var pages := Placement(layouts, 0, elCount);
      && (forall k :: 0 <= k < |pages| ==> |pages[k]| as real == layouts[k].elements && |pages[k]| >= 1)
      && |Flatten(pages)| == elCount
      && (forall k :: 0 <= k < elCount ==> Flatten(pages)[k].index == k)
  {
    PlanPagesDrawPlanned(elCount, elWidth, elHeight, triggerSplitCount, maxPagesCount);
    PlanPagesDrawEveryElement(elCount, elWidth, elHeight, triggerSplitCount, maxPagesCount);
  }

  /** With the corrected plan every page draws exactly the elements it was
      planned for, at least one. */
  lemma PlanPagesDrawPlanned(elCount: nat, elWidth: real, elHeight: real, triggerSplitCount: nat, maxPagesCount: nat)
    requires ValidParams(elWidth, elHeight, triggerSplitCount, maxPagesCount)
    ensures var layouts := PlanPages(elCount, elWidth, elHeight, triggerSplitCount, maxPagesCount);
      var pages := Placement(layouts, 0, elCount);
      forall k :: 0 <= k < |pages| ==> |pages[k]| as real == layouts[k].elements && |pages[k]| >= 1
  {
    var layouts := PlanPages(elCount, elWidth, elHeight, triggerSplitCount, maxPagesCount);
    var cap := Capacity(elCount, elWidth, elHeight, triggerSplitCount, maxPagesCount);
    PlanPagesShape(elCount, elWidth, elHeight, triggerSplitCount, maxPagesCount);
    PlannedPlacementFrom(layouts, elCount, cap, 0, 0);
    assert layouts[0..] == layouts;
  }

  /** With the corrected plan every element `0 .. elCount-1` is drawn
      exactly once, in increasing order. */
  lemma PlanPagesDrawEveryElement(elCount: nat, elWidth: real, elHeight: real, triggerSplitCount: nat, maxPagesCount: nat)
    requires ValidParams(elWidth, elHeight, triggerSplitCount, maxPagesCount)
    ensures var cells := Flatten(Placement(PlanPages(elCount, elWidth, elHeight, triggerSplitCount, maxPagesCount), 0, elCount));
      |cells| == elCount && forall k :: 0 <= k < |cells| ==> cells[k].index == k
  {
    var layouts := PlanPages(elCount, elWidth, elHeight, triggerSplitCount, maxPagesCount);
    PlanPagesShape(elCount, elWidth, elHeight, triggerSplitCount, maxPagesCount);
    PlanPagesSum(elCount, elWidth, elHeight, triggerSplitCount, maxPagesCount);
    TotalCellsCoverElements(layouts);
    PlacementIndices(layouts, 0, elCount);
  }
}
