/** The pagination planner of index.js (`createLayouts`): split `elCount`
    elements into pages, each laid out as a grid from the solver. */
module PaginationPlanner {
  import opened Numeric
  import opened GridSolver

  /** The ranges the model assumes: positive element sides, at least one
      page and one element per page. The code checks none of them; the
      constructor makes both counts 1, and with `maxPagesCount` 0 the share
      at index.js:18 is Infinity and the page count at line 22 is NaN. */
  predicate ValidParams(elWidth: real, elHeight: real, triggerSplitCount: nat, maxPagesCount: nat) {
    0.0 < elWidth && 0.0 < elHeight && triggerSplitCount >= 1 && maxPagesCount >= 1
  }

  /** The requested number of elements per page: an even share over
      `maxPagesCount` pages, raised to `triggerSplitCount` if smaller. */
  function Target(elCount: nat, triggerSplitCount: nat, maxPagesCount: nat): (t: real)
    requires maxPagesCount >= 1
    ensures t >= triggerSplitCount as real
    ensures t * maxPagesCount as real >= elCount as real
    ensures t == triggerSplitCount as real || t * maxPagesCount as real == elCount as real
  {
    var share := elCount as real / maxPagesCount as real;
    assert share * maxPagesCount as real == elCount as real;
    if share < triggerSplitCount as real then
      MulLe(share, triggerSplitCount as real, maxPagesCount as real);
      triggerSplitCount as real
    else share
  }

  /** The grid solved for the target, used only to fix the page capacity. */
  function Provisional(elCount: nat, elWidth: real, elHeight: real, triggerSplitCount: nat, maxPagesCount: nat): (g: Grid)
    requires ValidParams(elWidth, elHeight, triggerSplitCount, maxPagesCount)
    ensures g.Cells() as real >= Target(elCount, triggerSplitCount, maxPagesCount)
  {
    Solve(Target(elCount, triggerSplitCount, maxPagesCount), elWidth, elHeight)
  }

  /** Elements per full page: the target rounded up to a whole rectangle. */
  function Capacity(elCount: nat, elWidth: real, elHeight: real, triggerSplitCount: nat, maxPagesCount: nat): (cap: nat)
    requires ValidParams(elWidth, elHeight, triggerSplitCount, maxPagesCount)
    ensures cap >= triggerSplitCount >= 1
    ensures cap as real >= Target(elCount, triggerSplitCount, maxPagesCount)
    ensures cap * maxPagesCount >= elCount
  {
    var cells := Provisional(elCount, elWidth, elHeight, triggerSplitCount, maxPagesCount).Cells();
    ShareCovered(elCount, cells, triggerSplitCount, maxPagesCount);
    cells
  }

  lemma ShareCovered(elCount: nat, cap: nat, triggerSplitCount: nat, maxPagesCount: nat)
    requires maxPagesCount >= 1
    requires Target(elCount, triggerSplitCount, maxPagesCount) <= cap as real
    ensures cap * maxPagesCount >= elCount
    ensures cap >= triggerSplitCount
  {
    var t := Target(elCount, triggerSplitCount, maxPagesCount);
    MulLe(t, cap as real, maxPagesCount as real);
    IntMulAsReal(cap, maxPagesCount);
  }

  /** `Math.ceil(elCount / capacity)`: just enough pages for every element. */
  function PageCount(elCount: nat, cap: nat): (pages: nat)
    requires cap >= 1
    ensures pages * cap >= elCount
    ensures elCount > 0 ==> (pages - 1) * cap < elCount
    ensures elCount == 0 <==> pages == 0
  {
    CeilDivBounds(elCount as real, cap);
    IntMulAsReal(Ceil(elCount as real / cap as real), cap);
    IntMulAsReal(Ceil(elCount as real / cap as real) - 1, cap);
    Ceil(elCount as real / cap as real)
  }

  /** How many elements the last of `pages` pages holds when all the others
      hold `cap`. */
  function Remainder(elCount: int, cap: nat, pages: nat): int {
    elCount - (pages - 1) * cap
  }

  /** `pages` pages, all `full` except the last, which is `last`. */
  function PagesOf(pages: nat, full: Grid, last: Grid): (layouts: seq<Grid>)
    ensures |layouts| == pages
    ensures forall i :: 0 <= i < pages - 1 ==> layouts[i] == full
    ensures pages > 0 ==> layouts[pages - 1] == last
  {
    seq(pages, i requires 0 <= i < pages => if i == pages - 1 then last else full)
  }

  /** The grid of the last page: solved afresh for the elements left over,
      which are between one and a full capacity, and with room for them. */
  function LastPage(elCount: nat, elWidth: real, elHeight: real, triggerSplitCount: nat, maxPagesCount: nat): (g: Grid)
    requires ValidParams(elWidth, elHeight, triggerSplitCount, maxPagesCount)
    ensures var cap := Capacity(elCount, elWidth, elHeight, triggerSplitCount, maxPagesCount);
      elCount > 0 ==> 0 < Remainder(elCount, cap, PageCount(elCount, cap)) <= cap
    ensures var cap := Capacity(elCount, elWidth, elHeight, triggerSplitCount, maxPagesCount);
      elCount > 0 ==> g.elements == Remainder(elCount, cap, PageCount(elCount, cap)) as real
    ensures g.Cells() as real >= g.elements
  {
    var cap := Capacity(elCount, elWidth, elHeight, triggerSplitCount, maxPagesCount);
    var pages := PageCount(elCount, cap);
    Solve((if pages == 0 then 0 else Remainder(elCount, cap, pages)) as real, elWidth, elHeight)
  }

  /** `createLayouts` as written: every page but the last is the grid solved
      afresh for `cap` elements; the last is solved for what remains. */
  function CreateLayouts(elCount: nat, elWidth: real, elHeight: real, triggerSplitCount: nat, maxPagesCount: nat): (layouts: seq<Grid>)
    requires ValidParams(elWidth, elHeight, triggerSplitCount, maxPagesCount)
    ensures |layouts| <= maxPagesCount && (|layouts| == 0 <==> elCount == 0)
  {
    var cap := Capacity(elCount, elWidth, elHeight, triggerSplitCount, maxPagesCount);
    PageCountBound(elCount, cap, maxPagesCount);
    PagesOf(PageCount(elCount, cap), Solve(cap as real, elWidth, elHeight),
            LastPage(elCount, elWidth, elHeight, triggerSplitCount, maxPagesCount))
  }

  /** Total of the `elements` fields over a sequence of grids. */
  function SumElements(gs: seq<Grid>): real {
    if |gs| == 0 then 0.0 else gs[0].elements + SumElements(gs[1..])
  }

  /** The shape every plan has: `PageCount` pages, every page but the last
      assigned exactly `cap` elements, the last the remainder, and every
      grid large enough for what it is assigned. */
  predicate PlanShape(layouts: seq<Grid>, elCount: nat, cap: nat)
    requires cap >= 1
  {
    && |layouts| == PageCount(elCount, cap)
    && (forall i :: 0 <= i < |layouts| - 1 ==> layouts[i].elements == cap as real)
    && (|layouts| > 0 ==>
         layouts[|layouts| - 1].elements == Remainder(elCount, cap, |layouts|) as real)
    && (forall i :: 0 <= i < |layouts| ==> layouts[i].Cells() as real >= layouts[i].elements)
  }

  /** In any plan the pages' `elements` add up to the element count. */
  lemma PlanShapeSum(layouts: seq<Grid>, elCount: nat, cap: nat)
    requires cap >= 1 && PlanShape(layouts, elCount, cap)
    ensures SumElements(layouts) == elCount as real
  {
    if |layouts| > 0 {
      FullPagesSum(layouts, elCount, cap);
    }
  }

  /** Full pages of `cap` followed by a last page of what remains make
      `elCount`, whatever the number of pages: each full page taken off the
      front leaves a plan of the same form for `cap` fewer elements. */
  lemma {:induction false} FullPagesSum(layouts: seq<Grid>, elCount: int, cap: nat)
    requires |layouts| >= 1
    requires forall i :: 0 <= i < |layouts| - 1 ==> layouts[i].elements == cap as real
    requires layouts[|layouts| - 1].elements == Remainder(elCount, cap, |layouts|) as real
    ensures SumElements(layouts) == elCount as real
    decreases |layouts|
  {
    if |layouts| > 1 {
      var rest := layouts[1..];
      MulSucc(|rest| - 1, cap);
      assert Remainder(elCount - cap, cap, |rest|) == Remainder(elCount, cap, |layouts|);
      assert rest[|rest| - 1] == layouts[|layouts| - 1];
      FullPagesSum(rest, elCount - cap, cap);
    }
  }

  /** The last page of a plan holds between one element and a full page. */
  lemma PlanShapeRemainder(layouts: seq<Grid>, elCount: nat, cap: nat)
    requires cap >= 1 && PlanShape(layouts, elCount, cap) && |layouts| > 0
    ensures 0 < Remainder(elCount, cap, |layouts|) <= cap
  {
  }

  /** `createLayouts`, page by page: every page but the last is the grid
      solved for the capacity, the last the grid solved for the remainder,
      and the remainder is a non-empty part of a page. */
  lemma CreateLayoutsPages(elCount: nat, elWidth: real, elHeight: real, triggerSplitCount: nat, maxPagesCount: nat)
    requires ValidParams(elWidth, elHeight, triggerSplitCount, maxPagesCount)
    ensures var layouts := CreateLayouts(elCount, elWidth, elHeight, triggerSplitCount, maxPagesCount);
      var cap := Capacity(elCount, elWidth, elHeight, triggerSplitCount, maxPagesCount);
      && cap == Provisional(elCount, elWidth, elHeight, triggerSplitCount, maxPagesCount).Cells()
      && |layouts| == PageCount(elCount, cap)
      && (forall i :: 0 <= i < |layouts| - 1 ==> layouts[i] == Solve(cap as real, elWidth, elHeight))
      && (|layouts| > 0 ==>
           && 0 < Remainder(elCount, cap, |layouts|) <= cap
           && layouts[|layouts| - 1] == Solve(Remainder(elCount, cap, |layouts|) as real, elWidth, elHeight))
      && PlanShape(layouts, elCount, cap)
  {
  }

  lemma PageCountBound(elCount: nat, cap: nat, maxPagesCount: nat)
    requires cap >= 1 && cap * maxPagesCount >= elCount
    ensures PageCount(elCount, cap) <= maxPagesCount
  {
    var pages := PageCount(elCount, cap);
    if pages > maxPagesCount {
      MulMonotone(maxPagesCount, pages - 1, cap);
    }
  }

  lemma MulMonotone(a: nat, b: nat, c: nat)
    requires a <= b
    ensures a * c <= b * c
  {
  }

  /** At most one page's worth of elements needs exactly one page. */
  lemma SinglePage(elCount: nat, cap: nat)
    requires 1 <= elCount <= cap
    ensures PageCount(elCount, cap) == 1
  {
    var pages := PageCount(elCount, cap);
    if pages >= 2 {
      MulMonotone(1, pages - 1, cap);
    }
  }

  /** The `elements` fields of the pages add up to `elCount`. */
  lemma CreateLayoutsSum(elCount: nat, elWidth: real, elHeight: real, triggerSplitCount: nat, maxPagesCount: nat)
    requires ValidParams(elWidth, elHeight, triggerSplitCount, maxPagesCount)
    ensures SumElements(CreateLayouts(elCount, elWidth, elHeight, triggerSplitCount, maxPagesCount)) == elCount as real
  {
    var cap := Capacity(elCount, elWidth, elHeight, triggerSplitCount, maxPagesCount);
    CreateLayoutsPages(elCount, elWidth, elHeight, triggerSplitCount, maxPagesCount);
    PlanShapeSum(CreateLayouts(elCount, elWidth, elHeight, triggerSplitCount, maxPagesCount), elCount, cap);
  }

  /** At most `triggerSplitCount` elements give one page shaped for
      exactly those elements. */
  lemma CreateLayoutsSmallInput(elCount: nat, elWidth: real, elHeight: real, triggerSplitCount: nat, maxPagesCount: nat)
    requires ValidParams(elWidth, elHeight, triggerSplitCount, maxPagesCount)
    requires 1 <= elCount <= triggerSplitCount
    ensures CreateLayouts(elCount, elWidth, elHeight, triggerSplitCount, maxPagesCount)
      == [Solve(elCount as real, elWidth, elHeight)]
  {
    OnePageLayout(elCount, elWidth, elHeight, triggerSplitCount, maxPagesCount);
  }

  /** Re-solving the grid for the capacity can give a larger grid than the
      provisional one. For elements of size 1 x 2, 33 elements and at most 3
      pages, the target is 11, whose grid is 5 x 3 (capacity 15); the grid
      solved for 15 is 6 x 3, so every full page of `createLayouts` offers
      18 cells for its 15 elements. */
  lemma ResolvedCapacityOverflows()
    ensures Capacity(33, 1.0, 2.0, 1, 3) == 15
    ensures var layouts := CreateLayouts(33, 1.0, 2.0, 1, 3);
      && |layouts| == 3
      && layouts[0].elements == 15.0 && layouts[0].Cells() == 18
      && layouts[1].elements == 15.0 && layouts[1].Cells() == 18
      && layouts[2].elements == 3.0 && layouts[2].Cells() == 3
  {
    assert Target(33, 1, 3) == 11.0;
    TallGrids();
    assert Capacity(33, 1.0, 2.0, 1, 3) == 15;
    CeilUnique(33.0 / 15.0, 3);
    assert PageCount(33, 15) == 3;
    CreateLayoutsPages(33, 1.0, 2.0, 1, 3);
  }

  /** The three grids of that example, for elements of size 1 x 2. */
  lemma TallGrids()
    ensures Solve(11.0, 1.0, 2.0) == Grid(5, 3, 11.0)
    ensures Solve(15.0, 1.0, 2.0) == Grid(6, 3, 15.0)
    ensures Solve(3.0, 1.0, 2.0) == Grid(3, 1, 3.0)
  {
    assert Radicand(11.0, 1.0, 2.0) == 22.0;
    SolveIs(11.0, 1.0, 2.0, 5, 3);
    assert Radicand(15.0, 1.0, 2.0) == 30.0;
    SolveIs(15.0, 1.0, 2.0, 6, 3);
    assert Radicand(3.0, 1.0, 2.0) == 6.0;
    SolveIs(3.0, 1.0, 2.0, 3, 1);
  }

  /** Elements that need no split, because there are at most
      `triggerSplitCount` of them or only one page is allowed, give a single
      page solved for exactly those elements. */
  lemma OnePageLayout(elCount: nat, elWidth: real, elHeight: real, triggerSplitCount: nat, maxPagesCount: nat)
    requires ValidParams(elWidth, elHeight, triggerSplitCount, maxPagesCount)
    requires 1 <= elCount && (elCount <= triggerSplitCount || maxPagesCount == 1)
    ensures CreateLayouts(elCount, elWidth, elHeight, triggerSplitCount, maxPagesCount)
      == [Solve(elCount as real, elWidth, elHeight)]
  {
    var cap := Capacity(elCount, elWidth, elHeight, triggerSplitCount, maxPagesCount);
    SinglePage(elCount, cap);
    assert Remainder(elCount, cap, 1) == elCount;
  }

  /** Re-planning the remainder of the last page on its own, as a single
      page, reproduces that page's grid. */
  lemma LastPageReplans(elCount: nat, elWidth: real, elHeight: real, triggerSplitCount: nat, maxPagesCount: nat)
    requires ValidParams(elWidth, elHeight, triggerSplitCount, maxPagesCount)
    requires elCount > 0
    ensures var layouts := CreateLayouts(elCount, elWidth, elHeight, triggerSplitCount, maxPagesCount);
      var cap := Capacity(elCount, elWidth, elHeight, triggerSplitCount, maxPagesCount);
      var rem := Remainder(elCount, cap, |layouts|);
      rem > 0 && CreateLayouts(rem as nat, elWidth, elHeight, triggerSplitCount, 1) == [layouts[|layouts| - 1]]
  {
    var layouts := CreateLayouts(elCount, elWidth, elHeight, triggerSplitCount, maxPagesCount);
    var cap := Capacity(elCount, elWidth, elHeight, triggerSplitCount, maxPagesCount);
    CreateLayoutsPages(elCount, elWidth, elHeight, triggerSplitCount, maxPagesCount);
    assert |layouts| > 0;
    var rem := Remainder(elCount, cap, |layouts|) as nat;
    assert layouts[|layouts| - 1] == Solve(rem as real, elWidth, elHeight);
    OnePageLayout(rem, elWidth, elHeight, triggerSplitCount, 1);
  }

  /** 100 square elements over at most 4 pages: four identical 5 x 5 pages
      of 25 elements, the last re-solved for its 25 and coming out the same. */
  lemma HundredSquaresOnFourPages()
    ensures CreateLayouts(100, 1.0, 1.0, 1, 4) == [Grid(5, 5, 25.0), Grid(5, 5, 25.0), Grid(5, 5, 25.0), Grid(5, 5, 25.0)]
  {
    assert Target(100, 1, 4) == 25.0;
    assert Radicand(25.0, 1.0, 1.0) == 25.0;
    SolveIs(25.0, 1.0, 1.0, 5, 5);
    assert Capacity(100, 1.0, 1.0, 1, 4) == 25;
    CeilUnique(100.0 / 25.0, 4);
    assert PageCount(100, 25) == 4;
    CreateLayoutsPages(100, 1.0, 1.0, 1, 4);
  }

  /** The corrected planner, in which every full page reuses the
      provisional grid, whose cells are exactly the capacity; only the last
      page is solved afresh for its remainder. */
  function PlanPages(elCount: nat, elWidth: real, elHeight: real, triggerSplitCount: nat, maxPagesCount: nat): (layouts: seq<Grid>)
    requires ValidParams(elWidth, elHeight, triggerSplitCount, maxPagesCount)
    ensures |layouts| <= maxPagesCount && (|layouts| == 0 <==> elCount == 0)
  {
    var p := Provisional(elCount, elWidth, elHeight, triggerSplitCount, maxPagesCount);
    var cap := Capacity(elCount, elWidth, elHeight, triggerSplitCount, maxPagesCount);
    PageCountBound(elCount, cap, maxPagesCount);
    PagesOf(PageCount(elCount, cap), Grid(p.columns, p.rows, cap as real),
            LastPage(elCount, elWidth, elHeight, triggerSplitCount, maxPagesCount))
  }

  /** The corrected plan: every full page has exactly `capacity` cells for
      its `capacity` elements, and the last page is the remainder's own grid. */
  lemma PlanPagesShape(elCount: nat, elWidth: real, elHeight: real, triggerSplitCount: nat, maxPagesCount: nat)
    requires ValidParams(elWidth, elHeight, triggerSplitCount, maxPagesCount)
    ensures var layouts := PlanPages(elCount, elWidth, elHeight, triggerSplitCount, maxPagesCount);
      var cap := Capacity(elCount, elWidth, elHeight, triggerSplitCount, maxPagesCount);
      && PlanShape(layouts, elCount, cap)
      && (forall i :: 0 <= i < |layouts| - 1 ==> layouts[i].Cells() == cap)
      && (forall i :: 0 <= i < |layouts| ==> layouts[i].columns >= 1)
  {
  }

  /** The corrected planner differs from `createLayouts` only in the grids of
      the full pages: same number of pages, same `elements`, same last page. */
  lemma PlanPagesMatchesCreateLayouts(elCount: nat, elWidth: real, elHeight: real, triggerSplitCount: nat, maxPagesCount: nat)
    requires ValidParams(elWidth, elHeight, triggerSplitCount, maxPagesCount)
    ensures var planned := PlanPages(elCount, elWidth, elHeight, triggerSplitCount, maxPagesCount);
      var written := CreateLayouts(elCount, elWidth, elHeight, triggerSplitCount, maxPagesCount);
      && |planned| == |written|
      && (forall i :: 0 <= i < |planned| ==> planned[i].elements == written[i].elements)
      && (|planned| > 0 ==> planned[|planned| - 1] == written[|written| - 1])
  {
  }

  /** The corrected plan also distributes exactly `elCount` elements. */
  lemma PlanPagesSum(elCount: nat, elWidth: real, elHeight: real, triggerSplitCount: nat, maxPagesCount: nat)
    requires ValidParams(elWidth, elHeight, triggerSplitCount, maxPagesCount)
    ensures SumElements(PlanPages(elCount, elWidth, elHeight, triggerSplitCount, maxPagesCount)) == elCount as real
  {
    var cap := Capacity(elCount, elWidth, elHeight, triggerSplitCount, maxPagesCount);
    PlanPagesShape(elCount, elWidth, elHeight, triggerSplitCount, maxPagesCount);
    PlanShapeSum(PlanPages(elCount, elWidth, elHeight, triggerSplitCount, maxPagesCount), elCount, cap);
  }
}
