/** `Merger.merge` of index.js with its I/O taken out: from the number of
    input elements, their size and the resolved options, the plan of every
    output page, meaning its grid, its scaled geometry, its header, whether
    the background is drawn, and which element goes into which cell.
    `Merge` plans the pages with `createLayouts` as written; `MergeCorrected`
    plans them with `PlanPages`, in which every full page reuses the
    provisional grid, whose cells are exactly the capacity. */
module Merger {
  import opened Wrappers
  import opened Numeric
  import opened GridSolver
  import opened PaginationPlanner
  import opened HeaderRenderer
  import opened PageGeometry
  import opened Compositor

  /** The options of one `merge` call, defaults already applied. A missing
      header is the empty string: `null` and `""` are both falsy. Margins
      are fractions of the average element side. */
  datatype Config = Config(
    addBackground: bool,
    maxPagesCount: nat,
    triggerSplitCount: nat,
    maxOutDimension: real,
    headerCoef: real,
    elMargin: real,
    outerMargin: real,
    header: string)

  /** The constructor's defaults: no background, one page, one element per
      page, 2048 pixels, a header coefficient of 0.1, no margins, and a
      `null` header, which is the empty string here. They lie in the ranges
      the model assumes, and they set no header. */
  function DefaultConfig(): (cfg: Config)
    ensures ValidConfig(cfg) && !HasHeader(cfg)
  {
    Config(false, 1, 1, 2048.0, 0.1, 0.0, 0.0, "")
  }

  /** The ranges of the options the model assumes. The code checks none of
      them. With `maxPagesCount` 0 the share at index.js:18 is Infinity, the
      page count at line 22 is NaN and no page is produced; the constructor
      makes both counts 1. A non-positive output size or a negative margin
      or header coefficient gives no meaningful page. */
  predicate ValidConfig(cfg: Config) {
    && cfg.maxPagesCount >= 1 && cfg.triggerSplitCount >= 1
    && 0.0 < cfg.maxOutDimension && 0.0 <= cfg.headerCoef
    && 0.0 <= cfg.elMargin && 0.0 <= cfg.outerMargin
  }

  /** The header of one page: its text and the font size chosen for it. */
  datatype HeaderPlan = HeaderPlan(text: string, fontSize: real)

  /** Everything `merge` decides about one output page. */
  datatype PagePlan = PagePlan(
    grid: Grid,
    box: PageBox,
    background: bool,
    header: Option<HeaderPlan>,
    cells: seq<Cell>)

  /** The one failure `merge` reports: there is nothing to draw. */
  datatype MergeError = NoItems

  predicate HasHeader(cfg: Config) {
    |cfg.header| > 0
  }

  /** A grid with at least one column and one row has a positive size. */
  lemma NonEmptyGridHasArea(g: Grid, elWidth: real, elHeight: real, elMargin: nat, outerMargin: nat)
    requires 0.0 < elWidth && 0.0 < elHeight && g.columns >= 1 && g.rows >= 1
    ensures HasArea(g, elWidth, elHeight, elMargin, outerMargin)
  {
    MulLe(1.0, g.columns as real, elWidth + elMargin as real * 2.0);
    MulLe(1.0, g.rows as real, elHeight + elMargin as real * 2.0);
  }

  /** Whether every grid has at least one column and one row. */
  predicate GridsNonEmpty(layouts: seq<Grid>) {
    forall i :: 0 <= i < |layouts| ==> layouts[i].columns >= 1 && layouts[i].rows >= 1
  }

  /** In any plan every page is assigned at least one element, so every
      grid has at least one column and one row. */
  lemma ShapeGridsNonEmpty(layouts: seq<Grid>, count: nat, cap: nat)
    requires cap >= 1 && PlanShape(layouts, count, cap)
    ensures GridsNonEmpty(layouts)
  {
    if |layouts| > 0 {
      PlanShapeRemainder(layouts, count, cap);
    }
    forall i | 0 <= i < |layouts|
      ensures layouts[i].columns >= 1 && layouts[i].rows >= 1
    {
      assert layouts[i].elements >= 1.0;
    }
  }

  /** Every page of `createLayouts` has at least one column and one row. */
  lemma CreateLayoutsGridsNonEmpty(count: nat, elWidth: real, elHeight: real, cfg: Config)
    requires 0.0 < elWidth && 0.0 < elHeight && ValidConfig(cfg)
    ensures GridsNonEmpty(CreateLayouts(count, elWidth, elHeight, cfg.triggerSplitCount, cfg.maxPagesCount))
  {
    var cap := Capacity(count, elWidth, elHeight, cfg.triggerSplitCount, cfg.maxPagesCount);
    CreateLayoutsPages(count, elWidth, elHeight, cfg.triggerSplitCount, cfg.maxPagesCount);
    ShapeGridsNonEmpty(CreateLayouts(count, elWidth, elHeight, cfg.triggerSplitCount, cfg.maxPagesCount), count, cap);
  }

  /** Every page of the corrected planner has at least one column and one row. */
  lemma PlanPagesGridsNonEmpty(count: nat, elWidth: real, elHeight: real, cfg: Config)
    requires 0.0 < elWidth && 0.0 < elHeight && ValidConfig(cfg)
    ensures GridsNonEmpty(PlanPages(count, elWidth, elHeight, cfg.triggerSplitCount, cfg.maxPagesCount))
  {
    var cap := Capacity(count, elWidth, elHeight, cfg.triggerSplitCount, cfg.maxPagesCount);
    PlanPagesShape(count, elWidth, elHeight, cfg.triggerSplitCount, cfg.maxPagesCount);
    ShapeGridsNonEmpty(PlanPages(count, elWidth, elHeight, cfg.triggerSplitCount, cfg.maxPagesCount), count, cap);
  }

  /** The plan of page `index` of `layouts`. */
  function PlanPage(layouts: seq<Grid>, index: nat, count: nat, elWidth: real, elHeight: real,
                    elMargin: nat, outerMargin: nat, cfg: Config, backgroundReady: bool,
                    measure: (string, real) -> real): PagePlan
    requires index < |layouts| && layouts[index].columns >= 1 && layouts[index].rows >= 1
    requires 0.0 < elWidth && 0.0 < elHeight && ValidConfig(cfg)
  {
    var g := layouts[index];
    NonEmptyGridHasArea(g, elWidth, elHeight, elMargin, outerMargin);
    var box := LayoutPage(g, elWidth, elHeight, elMargin, outerMargin,
                          cfg.maxOutDimension, cfg.headerCoef, HasHeader(cfg));
    var text := HeaderText(cfg.header, index, |layouts|);
    var header := if HasHeader(cfg)
      then Some(HeaderPlan(text, FitFontSize(measure, text, box.width, box.headerHeight).size))
      else None;
    PagePlan(g, box, cfg.addBackground && backgroundReady, header, Placement(layouts, 0, count)[index])
  }

  /** The body of `merge` from the margins on, for given page grids: one
      plan per grid, the drawing counter shared across them. */
  function MergeWith(layouts: seq<Grid>, count: nat, elWidth: real, elHeight: real, cfg: Config,
                     backgroundReady: bool, measure: (string, real) -> real): (pages: seq<PagePlan>)
    requires GridsNonEmpty(layouts) && 0.0 < elWidth && 0.0 < elHeight && ValidConfig(cfg)
    ensures |pages| == |layouts|
  {
    var elMargin := MarginPixels(elWidth, elHeight, cfg.elMargin);
    var outerMargin := MarginPixels(elWidth, elHeight, cfg.outerMargin);
    seq(|layouts|, i requires 0 <= i < |layouts| =>
      PlanPage(layouts, i, count, elWidth, elHeight, elMargin, outerMargin, cfg, backgroundReady, measure))
  }

  /** `merge` as written: fail on an empty input, otherwise plan every page
      of `createLayouts`. The background is drawn only if requested and
      already loaded. */
  function Merge(count: nat, elWidth: real, elHeight: real, cfg: Config, backgroundReady: bool,
                 measure: (string, real) -> real): (r: Result<seq<PagePlan>, MergeError>)
    requires 0.0 < elWidth && 0.0 < elHeight && ValidConfig(cfg)
    ensures r.Failure? <==> count == 0
    ensures r.Failure? ==> r.error == NoItems
  {
    if count == 0 then Failure(NoItems)
    else
      var layouts := CreateLayouts(count, elWidth, elHeight, cfg.triggerSplitCount, cfg.maxPagesCount);
      CreateLayoutsGridsNonEmpty(count, elWidth, elHeight, cfg);
      Success(MergeWith(layouts, count, elWidth, elHeight, cfg, backgroundReady, measure))
  }

  /** `merge` with the corrected planner: the same, over `PlanPages`. */
  function MergeCorrected(count: nat, elWidth: real, elHeight: real, cfg: Config, backgroundReady: bool,
                          measure: (string, real) -> real): (r: Result<seq<PagePlan>, MergeError>)
    requires 0.0 < elWidth && 0.0 < elHeight && ValidConfig(cfg)
    ensures r.Failure? <==> count == 0
    ensures r.Failure? ==> r.error == NoItems
  {
    if count == 0 then Failure(NoItems)
    else
      var layouts := PlanPages(count, elWidth, elHeight, cfg.triggerSplitCount, cfg.maxPagesCount);
      PlanPagesGridsNonEmpty(count, elWidth, elHeight, cfg);
      Success(MergeWith(layouts, count, elWidth, elHeight, cfg, backgroundReady, measure))
  }

  /** Over any grids: page `i` is laid out on grid `i` and draws page `i`
      of the shared drawing walk. */
  lemma MergeWithPages(layouts: seq<Grid>, count: nat, elWidth: real, elHeight: real, cfg: Config,
                       backgroundReady: bool, measure: (string, real) -> real)
    requires GridsNonEmpty(layouts) && 0.0 < elWidth && 0.0 < elHeight && ValidConfig(cfg)
    ensures var pages := MergeWith(layouts, count, elWidth, elHeight, cfg, backgroundReady, measure);
      forall i :: 0 <= i < |pages| ==>
        pages[i].grid == layouts[i] && pages[i].cells == Placement(layouts, 0, count)[i]
  {
  }

  /** A non-empty merge succeeds with one page plan per grid of
      `createLayouts`, between one and `maxPagesCount` of them, each drawing
      its page of the shared walk. */
  lemma MergeShape(count: nat, elWidth: real, elHeight: real, cfg: Config, backgroundReady: bool,
                   measure: (string, real) -> real)
    requires 0.0 < elWidth && 0.0 < elHeight && ValidConfig(cfg)
    requires count > 0
    ensures var r := Merge(count, elWidth, elHeight, cfg, backgroundReady, measure);
      var layouts := CreateLayouts(count, elWidth, elHeight, cfg.triggerSplitCount, cfg.maxPagesCount);
      && r.Success?
      && |r.value| == |layouts|
      && 1 <= |r.value| <= cfg.maxPagesCount
      && (forall i :: 0 <= i < |r.value| ==>
            r.value[i].grid == layouts[i] && r.value[i].cells == Placement(layouts, 0, count)[i])
  {
    var layouts := CreateLayouts(count, elWidth, elHeight, cfg.triggerSplitCount, cfg.maxPagesCount);
    CreateLayoutsGridsNonEmpty(count, elWidth, elHeight, cfg);
    MergeWithPages(layouts, count, elWidth, elHeight, cfg, backgroundReady, measure);
  }

  /** A non-empty merge as written draws every element exactly once and in
      input order, and no page more elements than its grid has cells. */
  lemma MergeDrawsEveryElement(count: nat, elWidth: real, elHeight: real, cfg: Config, backgroundReady: bool,
                               measure: (string, real) -> real)
    requires 0.0 < elWidth && 0.0 < elHeight && ValidConfig(cfg)
    requires count > 0
    ensures var pages := Merge(count, elWidth, elHeight, cfg, backgroundReady, measure).value;
      && (forall i :: 0 <= i < |pages| ==> |pages[i].cells| <= pages[i].grid.Cells())
      && |FlattenCells(pages)| == count
      && (forall k :: 0 <= k < count ==> FlattenCells(pages)[k].index == k)
  {
    var pages := Merge(count, elWidth, elHeight, cfg, backgroundReady, measure).value;
    var layouts := CreateLayouts(count, elWidth, elHeight, cfg.triggerSplitCount, cfg.maxPagesCount);
    MergeShape(count, elWidth, elHeight, cfg, backgroundReady, measure);
    PlacementFitsGrids(layouts, 0, count);
    CreateLayoutsDrawsEveryElement(count, elWidth, elHeight, cfg.triggerSplitCount, cfg.maxPagesCount);
    FlattenCellsIsFlatten(pages, layouts, count);
  }

  /** A non-empty corrected merge succeeds with one page plan per grid of
      `PlanPages`, between one and `maxPagesCount` of them. */
  lemma MergeCorrectedShape(count: nat, elWidth: real, elHeight: real, cfg: Config, backgroundReady: bool,
                            measure: (string, real) -> real)
    requires 0.0 < elWidth && 0.0 < elHeight && ValidConfig(cfg)
    requires count > 0
    ensures var r := MergeCorrected(count, elWidth, elHeight, cfg, backgroundReady, measure);
      var layouts := PlanPages(count, elWidth, elHeight, cfg.triggerSplitCount, cfg.maxPagesCount);
      && r.Success?
      && |r.value| == |layouts|
      && 1 <= |r.value| <= cfg.maxPagesCount
      && (forall i :: 0 <= i < |r.value| ==>
            r.value[i].grid == layouts[i] && r.value[i].cells == Placement(layouts, 0, count)[i])
  {
    var layouts := PlanPages(count, elWidth, elHeight, cfg.triggerSplitCount, cfg.maxPagesCount);
    PlanPagesShape(count, elWidth, elHeight, cfg.triggerSplitCount, cfg.maxPagesCount);
    PlanPagesGridsNonEmpty(count, elWidth, elHeight, cfg);
    MergeWithPages(layouts, count, elWidth, elHeight, cfg, backgroundReady, measure);
  }

  /** A non-empty corrected merge draws every element exactly once and in
      input order, and every page exactly the elements planned for it. */
  lemma MergeCorrectedDrawsExactly(count: nat, elWidth: real, elHeight: real, cfg: Config, backgroundReady: bool,
                                   measure: (string, real) -> real)
    requires 0.0 < elWidth && 0.0 < elHeight && ValidConfig(cfg)
    requires count > 0
    ensures var pages := MergeCorrected(count, elWidth, elHeight, cfg, backgroundReady, measure).value;
      && (forall i :: 0 <= i < |pages| ==> |pages[i].cells| as real == pages[i].grid.elements && |pages[i].cells| >= 1)
      && |FlattenCells(pages)| == count
      && (forall k :: 0 <= k < count ==> FlattenCells(pages)[k].index == k)
  {
    var pages := MergeCorrected(count, elWidth, elHeight, cfg, backgroundReady, measure).value;
    var layouts := PlanPages(count, elWidth, elHeight, cfg.triggerSplitCount, cfg.maxPagesCount);
    MergeCorrectedShape(count, elWidth, elHeight, cfg, backgroundReady, measure);
    PlanPagesDrawPlanned(count, elWidth, elHeight, cfg.triggerSplitCount, cfg.maxPagesCount);
    PlanPagesDrawEveryElement(count, elWidth, elHeight, cfg.triggerSplitCount, cfg.maxPagesCount);
    FlattenCellsIsFlatten(pages, layouts, count);
  }

  /** The whole merge as written on 33 elements of size 1 x 2 over at most
      3 pages: the three pages draw 18, 15 and 0 elements, so the last page
      is blank. The corrected merge draws 15, 15 and 3. */
  lemma MergeOverdraws(measure: (string, real) -> real)
    ensures var cfg := Config(false, 3, 1, 500.0, 0.1, 0.0, 0.0, "");
      var written := Merge(33, 1.0, 2.0, cfg, false, measure).value;
      var corrected := MergeCorrected(33, 1.0, 2.0, cfg, false, measure).value;
      && |written| == 3
      && |written[0].cells| == 18 && |written[1].cells| == 15 && |written[2].cells| == 0
      && |corrected| == 3
      && |corrected[0].cells| == 15 && |corrected[1].cells| == 15 && |corrected[2].cells| == 3
  {
    var cfg := Config(false, 3, 1, 500.0, 0.1, 0.0, 0.0, "");
    MergeShape(33, 1.0, 2.0, cfg, false, measure);
    CreateLayoutsOverdraws();
    MergeCorrectedDrawsExactly(33, 1.0, 2.0, cfg, false, measure);
    MergeCorrectedShape(33, 1.0, 2.0, cfg, false, measure);
    ResolvedCapacityOverflows();
    PlanPagesMatchesCreateLayouts(33, 1.0, 2.0, 1, 3);
  }

  /** Every page of a non-empty merge as written: the grid area has its
      larger side at the maximum output dimension; the background is drawn
      exactly when requested and loaded; a header exists exactly when one
      is configured, labelled with page number and count when there are
      several pages and with the bare header text otherwise. */
  lemma MergePageDetails(count: nat, elWidth: real, elHeight: real, cfg: Config, backgroundReady: bool,
                         measure: (string, real) -> real, i: nat)
    requires 0.0 < elWidth && 0.0 < elHeight && ValidConfig(cfg)
    requires count > 0
    ensures var pages := Merge(count, elWidth, elHeight, cfg, backgroundReady, measure).value;
      i < |pages| ==>
      var p := pages[i];
      && MaxReal(p.box.width, p.box.height - p.box.headerHeight) == cfg.maxOutDimension
      && p.background == (cfg.addBackground && backgroundReady)
      && (p.header.Some? <==> HasHeader(cfg))
      && (p.header.Some? && |pages| > 1 ==> ParseHeaderText(p.header.value.text) == Some((cfg.header, i + 1, |pages|)))
      && (p.header.Some? && |pages| == 1 ==> p.header.value.text == cfg.header)
  {
    var layouts := CreateLayouts(count, elWidth, elHeight, cfg.triggerSplitCount, cfg.maxPagesCount);
    CreateLayoutsGridsNonEmpty(count, elWidth, elHeight, cfg);
    MergeWithPageDetails(layouts, count, elWidth, elHeight, cfg, backgroundReady, measure, i);
  }

  /** The same for every page of a non-empty corrected merge. */
  lemma MergeCorrectedPageDetails(count: nat, elWidth: real, elHeight: real, cfg: Config, backgroundReady: bool,
                                  measure: (string, real) -> real, i: nat)
    requires 0.0 < elWidth && 0.0 < elHeight && ValidConfig(cfg)
    requires count > 0
    ensures var pages := MergeCorrected(count, elWidth, elHeight, cfg, backgroundReady, measure).value;
      i < |pages| ==>
      var p := pages[i];
      && MaxReal(p.box.width, p.box.height - p.box.headerHeight) == cfg.maxOutDimension
      && p.background == (cfg.addBackground && backgroundReady)
      && (p.header.Some? <==> HasHeader(cfg))
      && (p.header.Some? && |pages| > 1 ==> ParseHeaderText(p.header.value.text) == Some((cfg.header, i + 1, |pages|)))
      && (p.header.Some? && |pages| == 1 ==> p.header.value.text == cfg.header)
  {
    var layouts := PlanPages(count, elWidth, elHeight, cfg.triggerSplitCount, cfg.maxPagesCount);
    PlanPagesGridsNonEmpty(count, elWidth, elHeight, cfg);
    MergeWithPageDetails(layouts, count, elWidth, elHeight, cfg, backgroundReady, measure, i);
  }

  /** The same over any non-empty grids. */
  lemma MergeWithPageDetails(layouts: seq<Grid>, count: nat, elWidth: real, elHeight: real, cfg: Config,
                             backgroundReady: bool, measure: (string, real) -> real, i: nat)
    requires GridsNonEmpty(layouts) && 0.0 < elWidth && 0.0 < elHeight && ValidConfig(cfg)
    ensures var pages := MergeWith(layouts, count, elWidth, elHeight, cfg, backgroundReady, measure);
      i < |pages| ==>
      var p := pages[i];
      && MaxReal(p.box.width, p.box.height - p.box.headerHeight) == cfg.maxOutDimension
      && p.background == (cfg.addBackground && backgroundReady)
      && (p.header.Some? <==> HasHeader(cfg))
      && (p.header.Some? && |pages| > 1 ==> ParseHeaderText(p.header.value.text) == Some((cfg.header, i + 1, |pages|)))
      && (p.header.Some? && |pages| == 1 ==> p.header.value.text == cfg.header)
  {
    if i < |layouts| {
      var elMargin := MarginPixels(elWidth, elHeight, cfg.elMargin);
      var outerMargin := MarginPixels(elWidth, elHeight, cfg.outerMargin);
      assert MergeWith(layouts, count, elWidth, elHeight, cfg, backgroundReady, measure)[i]
          == PlanPage(layouts, i, count, elWidth, elHeight, elMargin, outerMargin, cfg, backgroundReady, measure);
      PlanPageScaled(layouts, i, count, elWidth, elHeight, elMargin, outerMargin, cfg, backgroundReady, measure);
      PlanPageHeader(layouts, i, count, elWidth, elHeight, elMargin, outerMargin, cfg, backgroundReady, measure);
    }
  }

  /** The plan of page `index`: its grid area has the larger side at the
      maximum output dimension. */
  lemma PlanPageScaled(layouts: seq<Grid>, index: nat, count: nat, elWidth: real, elHeight: real,
                       elMargin: nat, outerMargin: nat, cfg: Config, backgroundReady: bool,
                       measure: (string, real) -> real)
    requires index < |layouts| && layouts[index].columns >= 1 && layouts[index].rows >= 1
    requires 0.0 < elWidth && 0.0 < elHeight && ValidConfig(cfg)
    ensures var p := PlanPage(layouts, index, count, elWidth, elHeight, elMargin, outerMargin, cfg, backgroundReady, measure);
      MaxReal(p.box.width, p.box.height - p.box.headerHeight) == cfg.maxOutDimension
  {
    NonEmptyGridHasArea(layouts[index], elWidth, elHeight, elMargin, outerMargin);
    LayoutPageScaling(layouts[index], elWidth, elHeight, elMargin, outerMargin,
                      cfg.maxOutDimension, cfg.headerCoef, HasHeader(cfg));
  }

  /** The plan of page `index`: background and header as configured, the
      header labelled with page number and count when there are several
      pages and bare otherwise. */
  lemma PlanPageHeader(layouts: seq<Grid>, index: nat, count: nat, elWidth: real, elHeight: real,
                       elMargin: nat, outerMargin: nat, cfg: Config, backgroundReady: bool,
                       measure: (string, real) -> real)
    requires index < |layouts| && layouts[index].columns >= 1 && layouts[index].rows >= 1
    requires 0.0 < elWidth && 0.0 < elHeight && ValidConfig(cfg)
    ensures var p := PlanPage(layouts, index, count, elWidth, elHeight, elMargin, outerMargin, cfg, backgroundReady, measure);
      && p.background == (cfg.addBackground && backgroundReady)
      && (p.header.Some? <==> HasHeader(cfg))
      && (p.header.Some? && |layouts| > 1 ==> ParseHeaderText(p.header.value.text) == Some((cfg.header, index + 1, |layouts|)))
      && (p.header.Some? && |layouts| == 1 ==> p.header.value.text == cfg.header)
  {
    HeaderTextRoundTrip(cfg.header, index, |layouts|);
  }

  /** Ten 100 x 100 elements, at least ten per page, one page, output at
      most 500 pixels, no margins, header or background: a single 4 x 3 page
      of 500 x 375 pixels drawing all ten elements. */
  lemma TenSquaresScenario(measure: (string, real) -> real)
    ensures var cfg := Config(false, 1, 10, 500.0, 0.1, 0.0, 0.0, "");
      var r := Merge(10, 100.0, 100.0, cfg, false, measure);
      && r.Success? && |r.value| == 1
      && r.value[0].grid == Grid(4, 3, 10.0)
      && r.value[0].box.width == 500.0 && r.value[0].box.height == 375.0
      && r.value[0].header.None? && !r.value[0].background
      && |r.value[0].cells| == 10
  {
    var cfg := Config(false, 1, 10, 500.0, 0.1, 0.0, 0.0, "");
    var layouts := [Grid(4, 3, 10.0)];
    TenSquaresPlan();
    MergeShape(10, 100.0, 100.0, cfg, false, measure);
    assert Placement(layouts, 0, 10)[0] == PageCells(0, Grid(4, 3, 10.0), 10);
    assert MarginPixels(100.0, 100.0, 0.0) == 0;
    var p := PlanPage(layouts, 0, 10, 100.0, 100.0, 0, 0, cfg, false, measure);
    assert Merge(10, 100.0, 100.0, cfg, false, measure).value[0] == p;
    TenSquaresBox();
  }

  /** The plan for that scenario: one 4 x 3 page for the ten elements. */
  lemma TenSquaresPlan()
    ensures CreateLayouts(10, 100.0, 100.0, 10, 1) == [Grid(4, 3, 10.0)]
  {
    assert Radicand(10.0, 100.0, 100.0) == 10.0;
    SolveIs(10.0, 100.0, 100.0, 4, 3);
    OnePageLayout(10, 100.0, 100.0, 10, 1);
  }

  /** The geometry of that page: 400 x 300 unscaled, 500 x 375 scaled. */
  lemma TenSquaresBox()
    ensures var box := LayoutPage(Grid(4, 3, 10.0), 100.0, 100.0, 0, 0, 500.0, 0.1, false);
      box.width == 500.0 && box.height == 375.0
  {
    assert PreWidth(Grid(4, 3, 10.0), 100.0, 0.0, 0.0) == 400.0;
    assert PreHeight(Grid(4, 3, 10.0), 100.0, 0.0, 0.0) == 300.0;
    assert 500.0 / (400.0 / 300.0) == 375.0;
  }

  /** All cells of all page plans, in drawing order. */
  function FlattenCells(pages: seq<PagePlan>): seq<Cell> {
    if |pages| == 0 then [] else pages[0].cells + FlattenCells(pages[1..])
  }

  lemma {:induction false} FlattenCellsIsFlatten(pages: seq<PagePlan>, layouts: seq<Grid>, count: nat)
    requires |pages| == |layouts|
    requires forall i :: 0 <= i < |pages| ==> pages[i].cells == Placement(layouts, 0, count)[i]
    ensures FlattenCells(pages) == Flatten(Placement(layouts, 0, count))
  {
    FlattenPointwise(pages, Placement(layouts, 0, count));
  }

  lemma {:induction false} FlattenPointwise(pages: seq<PagePlan>, placed: seq<seq<Cell>>)
    requires |pages| == |placed|
    requires forall i :: 0 <= i < |pages| ==> pages[i].cells == placed[i]
    ensures FlattenCells(pages) == Flatten(placed)
    decreases |pages|
  {
    if |pages| > 0 {
      FlattenPointwise(pages[1..], placed[1..]);
    }
  }
}
