/** The per-page geometry of index.js `merge`: margins in pixels, the
    unscaled size of a page, its uniform scaling to the maximum output
    dimension, the header band above the grid, and where each cell goes. */
module PageGeometry {
  import opened Numeric
  import opened GridSolver

  /** `Math.ceil((elWidth + elHeight) / 2 * fraction)`: a margin given as a
      fraction of the average element side, in whole pixels. */
  function MarginPixels(elWidth: real, elHeight: real, fraction: real): (m: nat)
    requires 0.0 < elWidth && 0.0 < elHeight && 0.0 <= fraction
    ensures m as real >= (elWidth + elHeight) / 2.0 * fraction
    ensures (m - 1) as real < (elWidth + elHeight) / 2.0 * fraction
    ensures fraction == 0.0 ==> m == 0
  {
    Ceil((elWidth + elHeight) / 2.0 * fraction)
  }

  /** Width of a page before scaling: outer margins on both sides and, per
      column, an element with its margin on both sides. */
  function PreWidth(g: Grid, elWidth: real, elMargin: real, outerMargin: real): real {
    outerMargin * 2.0 + g.columns as real * (elWidth + elMargin * 2.0)
  }

  /** Height of a page before scaling, likewise per row. */
  function PreHeight(g: Grid, elHeight: real, elMargin: real, outerMargin: real): real {
    outerMargin * 2.0 + g.rows as real * (elHeight + elMargin * 2.0)
  }

  /** A page scaled uniformly: its size and the factor applied to it. */
  datatype Scale = Scale(width: real, height: real, mult: real)

  /** Scale a `preWidth` x `preHeight` page so that its larger side becomes
      `maxOutDimension`, keeping its aspect ratio. */
  function ScaleToFit(preWidth: real, preHeight: real, maxOutDimension: real): (s: Scale)
    requires 0.0 < preWidth && 0.0 < preHeight && 0.0 < maxOutDimension
    ensures MaxReal(s.width, s.height) == maxOutDimension
    ensures preWidth >= preHeight ==> s.width == maxOutDimension
    ensures preWidth < preHeight ==> s.height == maxOutDimension
    ensures s.width * preHeight == s.height * preWidth
    ensures 0.0 < s.mult && s.mult * preWidth == s.width && s.mult * preHeight == s.height
  {
    var aspect := preWidth / preHeight;
    AspectCompare(preWidth, preHeight);
    if aspect >= 1.0 then
      WideScale(preWidth, preHeight, maxOutDimension);
      Scale(maxOutDimension, maxOutDimension / aspect, maxOutDimension / preWidth)
    else
      TallScale(preWidth, preHeight, maxOutDimension);
      Scale(maxOutDimension * aspect, maxOutDimension, maxOutDimension * aspect / preWidth)
  }

  /** The wide branch of `ScaleToFit`: the width becomes `side`. */
  lemma WideScale(preWidth: real, preHeight: real, side: real)
    requires 0.0 < preWidth && 0.0 < preHeight && 0.0 < side
    requires preWidth / preHeight >= 1.0
    ensures var s := Scale(side, side / (preWidth / preHeight), side / preWidth);
      && MaxReal(s.width, s.height) == side
      && s.width * preHeight == s.height * preWidth
      && 0.0 < s.mult && s.mult * preWidth == s.width && s.mult * preHeight == s.height
  {
    var aspect := preWidth / preHeight;
    var s := Scale(side, side / aspect, side / preWidth);
    WideSides(aspect, side);
    ScaleFacts(preWidth, preHeight, aspect, s);
  }

  /** The tall branch of `ScaleToFit`: the height becomes `side`. */
  lemma TallScale(preWidth: real, preHeight: real, side: real)
    requires 0.0 < preWidth && 0.0 < preHeight && 0.0 < side
    requires preWidth / preHeight < 1.0
    ensures var s := Scale(side * (preWidth / preHeight), side, side * (preWidth / preHeight) / preWidth);
      && MaxReal(s.width, s.height) == side
      && s.width * preHeight == s.height * preWidth
      && 0.0 < s.mult && s.mult * preWidth == s.width && s.mult * preHeight == s.height
  {
    var aspect := preWidth / preHeight;
    var s := Scale(side * aspect, side, side * aspect / preWidth);
    AspectCompare(preWidth, preHeight);
    TallSides(aspect, side);
    ScaleFacts(preWidth, preHeight, aspect, s);
  }

  /** A wide page keeps its width; its height shrinks by the aspect ratio. */
  lemma WideSides(aspect: real, side: real)
    requires 1.0 <= aspect && 0.0 < side
    ensures 0.0 < side / aspect <= side
    ensures (side / aspect) * aspect == side
  {
    assert (side / aspect) * aspect == side;
    MulLe(1.0, aspect, side / aspect);
  }

  /** A tall page keeps its height; its width shrinks by the aspect ratio. */
  lemma TallSides(aspect: real, side: real)
    requires 0.0 < aspect < 1.0 && 0.0 < side
    ensures 0.0 < side * aspect < side
  {
    MulLt(aspect, 1.0, side);
  }

  lemma AspectCompare(preWidth: real, preHeight: real)
    requires 0.0 < preWidth && 0.0 < preHeight
    ensures preWidth / preHeight >= 1.0 <==> preWidth >= preHeight
    ensures 0.0 < preWidth / preHeight
  {
    var a := preWidth / preHeight;
    DivMul(preWidth, preHeight);
    if a >= 1.0 {
      MulLe(1.0, a, preHeight);
    } else {
      MulLt(a, 1.0, preHeight);
      LessThroughEqual(a * preHeight, preWidth, preHeight);
    }
  }

  /** Carries a strict bound across an equality between two products. A
      solver hint kept as a lemma: inline, `AspectCompare` no longer
      verifies. */
  lemma LessThroughEqual(p: real, x: real, y: real)
    requires p == x && p < y
    ensures x < y
  {
  }

  lemma ScaleFacts(preWidth: real, preHeight: real, aspect: real, s: Scale)
    requires 0.0 < preWidth && 0.0 < preHeight && aspect == preWidth / preHeight
    requires 0.0 < s.width && 0.0 < s.height && s.width == s.height * aspect
    requires s.mult == s.width / preWidth
    ensures s.width * preHeight == s.height * preWidth
    ensures 0.0 < s.mult && s.mult * preWidth == s.width && s.mult * preHeight == s.height
  {
    assert aspect * preHeight == preWidth;
    assert s.mult * preWidth == s.width;
    assert s.width * preHeight == s.height * (aspect * preHeight);
  }

  /** The numbers `merge` hands to the canvas for one page: the output size
      (header band included), the scale factor, the scaled element and
      margins, the header band's height and where the grid area starts. */
  datatype PageBox = PageBox(
    width: real, height: real, mult: real,
    cellWidth: real, cellHeight: real,
    elMargin: real, outerMargin: real,
    headerHeight: real, areaTop: real, headerTop: real)

  /** Whether a page with this grid has a positive unscaled size, so that
      its aspect ratio exists. */
  predicate HasArea(g: Grid, elWidth: real, elHeight: real, elMargin: nat, outerMargin: nat) {
    && 0.0 < PreWidth(g, elWidth, elMargin as real, outerMargin as real)
    && 0.0 < PreHeight(g, elHeight, elMargin as real, outerMargin as real)
  }

  /** The geometry of one page: scale the unscaled page to the maximum
      output dimension, then lay the page out around that scale. */
  function LayoutPage(g: Grid, elWidth: real, elHeight: real, elMargin: nat, outerMargin: nat,
                      maxOutDimension: real, headerCoef: real, hasHeader: bool): (p: PageBox)
    requires 0.0 < elWidth && 0.0 < elHeight && 0.0 < maxOutDimension
    requires HasArea(g, elWidth, elHeight, elMargin, outerMargin)
    ensures MaxReal(p.width, p.height - p.headerHeight) == maxOutDimension
  {
    var s := ScaleToFit(PreWidth(g, elWidth, elMargin as real, outerMargin as real),
                        PreHeight(g, elHeight, elMargin as real, outerMargin as real),
                        maxOutDimension);
    BoxOf(s, elWidth, elHeight, elMargin, outerMargin, headerCoef, hasHeader)
  }

  /** The page around a scale `s`: the element and both margins scaled by
      `s.mult` and, if there is a header, a band of `headerCoef` times the
      average scaled side added above the grid. */
  function BoxOf(s: Scale, elWidth: real, elHeight: real, elMargin: nat, outerMargin: nat,
                 headerCoef: real, hasHeader: bool): PageBox
  {
    var currElMargin := s.mult * elMargin as real;
    var currOuterMargin := s.mult * outerMargin as real;
    var headerHeight := if hasHeader then (s.width + s.height) / 2.0 * headerCoef else 0.0;
    PageBox(s.width, s.height + headerHeight, s.mult,
            s.mult * elWidth, s.mult * elHeight,
            currElMargin, currOuterMargin,
            headerHeight, currOuterMargin + headerHeight, (currOuterMargin + currElMargin) / 2.0)
  }

  /** Left edge of the element drawn in column `col`. */
  function CellX(p: PageBox, col: nat): real {
    p.outerMargin + col as real * (p.cellWidth + p.elMargin * 2.0) + p.elMargin
  }

  /** Top edge of the element drawn in row `row`. */
  function CellY(p: PageBox, row: nat): real {
    p.areaTop + row as real * (p.cellHeight + p.elMargin * 2.0) + p.elMargin
  }

  /** The scaled page: the grid area keeps the larger side at the maximum
      output dimension and the unscaled aspect ratio, one factor scales the
      element and both margins, and the header band adds `headerCoef` times
      the average side on top. */
  lemma LayoutPageScaling(g: Grid, elWidth: real, elHeight: real, elMargin: nat, outerMargin: nat,
                          maxOutDimension: real, headerCoef: real, hasHeader: bool)
    requires 0.0 < elWidth && 0.0 < elHeight && 0.0 < maxOutDimension
    requires HasArea(g, elWidth, elHeight, elMargin, outerMargin)
    ensures var p := LayoutPage(g, elWidth, elHeight, elMargin, outerMargin, maxOutDimension, headerCoef, hasHeader);
      var preWidth := PreWidth(g, elWidth, elMargin as real, outerMargin as real);
      var preHeight := PreHeight(g, elHeight, elMargin as real, outerMargin as real);
      var gridHeight := p.height - p.headerHeight;
      && MaxReal(p.width, gridHeight) == maxOutDimension
      && p.width * preHeight == gridHeight * preWidth
      && 0.0 < p.mult && p.mult * preWidth == p.width && p.mult * preHeight == gridHeight
      && p.cellWidth == p.mult * elWidth && p.cellHeight == p.mult * elHeight
      && p.elMargin == p.mult * elMargin as real && p.outerMargin == p.mult * outerMargin as real
      && p.headerHeight == (if hasHeader then (p.width + gridHeight) / 2.0 * headerCoef else 0.0)
      && p.areaTop == p.outerMargin + p.headerHeight
  {
    LayoutPageAspect(g, elWidth, elHeight, elMargin, outerMargin, maxOutDimension, headerCoef, hasHeader);
    LayoutPageMult(g, elWidth, elHeight, elMargin, outerMargin, maxOutDimension, headerCoef, hasHeader);
    LayoutPageParts(g, elWidth, elHeight, elMargin, outerMargin, maxOutDimension, headerCoef, hasHeader);
  }

  /** The grid area of the scaled page has its larger side at the maximum
      output dimension and the unscaled page's aspect ratio. */
  lemma LayoutPageAspect(g: Grid, elWidth: real, elHeight: real, elMargin: nat, outerMargin: nat,
                         maxOutDimension: real, headerCoef: real, hasHeader: bool)
    requires 0.0 < elWidth && 0.0 < elHeight && 0.0 < maxOutDimension
    requires HasArea(g, elWidth, elHeight, elMargin, outerMargin)
    ensures var p := LayoutPage(g, elWidth, elHeight, elMargin, outerMargin, maxOutDimension, headerCoef, hasHeader);
      var preWidth := PreWidth(g, elWidth, elMargin as real, outerMargin as real);
      var preHeight := PreHeight(g, elHeight, elMargin as real, outerMargin as real);
      var gridHeight := p.height - p.headerHeight;
      && MaxReal(p.width, gridHeight) == maxOutDimension
      && p.width * preHeight == gridHeight * preWidth
  {
  }

  /** One positive factor scales the unscaled page to the grid area. */
  lemma LayoutPageMult(g: Grid, elWidth: real, elHeight: real, elMargin: nat, outerMargin: nat,
                       maxOutDimension: real, headerCoef: real, hasHeader: bool)
    requires 0.0 < elWidth && 0.0 < elHeight && 0.0 < maxOutDimension
    requires HasArea(g, elWidth, elHeight, elMargin, outerMargin)
    ensures var p := LayoutPage(g, elWidth, elHeight, elMargin, outerMargin, maxOutDimension, headerCoef, hasHeader);
      var preWidth := PreWidth(g, elWidth, elMargin as real, outerMargin as real);
      var preHeight := PreHeight(g, elHeight, elMargin as real, outerMargin as real);
      var gridHeight := p.height - p.headerHeight;
      && 0.0 < p.mult && p.mult * preWidth == p.width && p.mult * preHeight == gridHeight
  {
  }

  /** The element and both margins are scaled by that factor, and the
      header band, if any, sits between the top margin and the grid. */
  lemma LayoutPageParts(g: Grid, elWidth: real, elHeight: real, elMargin: nat, outerMargin: nat,
                        maxOutDimension: real, headerCoef: real, hasHeader: bool)
    requires 0.0 < elWidth && 0.0 < elHeight && 0.0 < maxOutDimension
    requires HasArea(g, elWidth, elHeight, elMargin, outerMargin)
    ensures var p := LayoutPage(g, elWidth, elHeight, elMargin, outerMargin, maxOutDimension, headerCoef, hasHeader);
      var gridHeight := p.height - p.headerHeight;
      && p.cellWidth == p.mult * elWidth && p.cellHeight == p.mult * elHeight
      && p.elMargin == p.mult * elMargin as real && p.outerMargin == p.mult * outerMargin as real
      && p.headerHeight == (if hasHeader then (p.width + gridHeight) / 2.0 * headerCoef else 0.0)
      && p.areaTop == p.outerMargin + p.headerHeight
  {
  }

  /** How the fields of a page box relate to the unscaled page: one factor
      `mult` scales the page, the element and both margins, and the grid
      area starts one outer margin below the header band. */
  predicate Consistent(p: PageBox, g: Grid, elWidth: real, elHeight: real, elMargin: real, outerMargin: real) {
    && 0.0 < p.mult
    && p.width == p.mult * PreWidth(g, elWidth, elMargin, outerMargin)
    && p.height - p.headerHeight == p.mult * PreHeight(g, elHeight, elMargin, outerMargin)
    && p.cellWidth == p.mult * elWidth && p.cellHeight == p.mult * elHeight
    && p.elMargin == p.mult * elMargin && p.outerMargin == p.mult * outerMargin
    && p.areaTop == p.outerMargin + p.headerHeight
  }

  lemma LayoutPageConsistent(g: Grid, elWidth: real, elHeight: real, elMargin: nat, outerMargin: nat,
                             maxOutDimension: real, headerCoef: real, hasHeader: bool)
    requires 0.0 < elWidth && 0.0 < elHeight && 0.0 < maxOutDimension
    requires HasArea(g, elWidth, elHeight, elMargin, outerMargin)
    ensures Consistent(LayoutPage(g, elWidth, elHeight, elMargin, outerMargin, maxOutDimension, headerCoef, hasHeader),
                       g, elWidth, elHeight, elMargin as real, outerMargin as real)
  {
    LayoutPageScaling(g, elWidth, elHeight, elMargin, outerMargin, maxOutDimension, headerCoef, hasHeader);
  }

  /** In a consistent page box the scaled margins and elements fill the
      scaled grid area exactly. */
  lemma ConsistentFillsArea(p: PageBox, g: Grid, elWidth: real, elHeight: real, elMargin: real, outerMargin: real)
    requires Consistent(p, g, elWidth, elHeight, elMargin, outerMargin)
    ensures p.width == p.outerMargin * 2.0 + g.columns as real * (p.cellWidth + p.elMargin * 2.0)
    ensures p.height - p.headerHeight == p.outerMargin * 2.0 + g.rows as real * (p.cellHeight + p.elMargin * 2.0)
  {
    ScaledBand(p.mult, outerMargin, g.columns as real, elWidth, elMargin,
               PreWidth(g, elWidth, elMargin, outerMargin), p.width,
               p.outerMargin, p.cellWidth, p.elMargin);
    ScaledBand(p.mult, outerMargin, g.rows as real, elHeight, elMargin,
               PreHeight(g, elHeight, elMargin, outerMargin), p.height - p.headerHeight,
               p.outerMargin, p.cellHeight, p.elMargin);
  }

  lemma ScaledBand(mult: real, outer: real, n: real, side: real, margin: real, pre: real, scaled: real,
                   outer': real, side': real, margin': real)
    requires pre == outer * 2.0 + n * (side + margin * 2.0)
    requires scaled == mult * pre
    requires outer' == mult * outer && side' == mult * side && margin' == mult * margin
    ensures scaled == outer' * 2.0 + n * (side' + margin' * 2.0)
  {
  }

  /** A band of `n` slots of size `size` with `margin` on either side,
      between two outer margins of `outer`: slot `k` lies inside it. */
  lemma SlotInsideBand(outer: real, margin: real, size: real, k: nat, n: nat, total: real)
    requires 0.0 <= outer && 0.0 <= margin && 0.0 <= size && k < n
    requires total == outer * 2.0 + n as real * (size + margin * 2.0)
    ensures 0.0 <= outer + k as real * (size + margin * 2.0) + margin
    ensures outer + k as real * (size + margin * 2.0) + margin + size <= total
  {
    var step := size + margin * 2.0;
    MulLe(k as real, (n - 1) as real, step);
    MulLe(0.0, k as real, step);
    assert (n - 1) as real * step + step == n as real * step;
  }

  /** Every cell of the grid lies inside the page, below the header band. */
  lemma CellInsidePage(g: Grid, elWidth: real, elHeight: real, elMargin: nat, outerMargin: nat,
                       maxOutDimension: real, headerCoef: real, hasHeader: bool, row: nat, col: nat)
    requires 0.0 < elWidth && 0.0 < elHeight && 0.0 < maxOutDimension && 0.0 <= headerCoef
    requires HasArea(g, elWidth, elHeight, elMargin, outerMargin)
    requires row < g.rows && col < g.columns
    ensures var p := LayoutPage(g, elWidth, elHeight, elMargin, outerMargin, maxOutDimension, headerCoef, hasHeader);
      && 0.0 <= CellX(p, col) && CellX(p, col) + p.cellWidth <= p.width
      && p.headerHeight <= CellY(p, row) && CellY(p, row) + p.cellHeight <= p.height
  {
    var p := LayoutPage(g, elWidth, elHeight, elMargin, outerMargin, maxOutDimension, headerCoef, hasHeader);
    LayoutPageConsistent(g, elWidth, elHeight, elMargin, outerMargin, maxOutDimension, headerCoef, hasHeader);
    assert 0.0 <= p.headerHeight by {
      assert 0.0 < p.width && 0.0 < p.height - p.headerHeight by {
        LayoutPageScaling(g, elWidth, elHeight, elMargin, outerMargin, maxOutDimension, headerCoef, hasHeader);
      }
    }
    ConsistentCellInside(p, g, elWidth, elHeight, elMargin as real, outerMargin as real, row, col);
  }

  /** The header band, drawn from `headerTop` down by `headerHeight`,
      starts inside the page and ends above the first row of cells. */
  lemma HeaderBandAboveGrid(g: Grid, elWidth: real, elHeight: real, elMargin: nat, outerMargin: nat,
                            maxOutDimension: real, headerCoef: real, hasHeader: bool)
    requires 0.0 < elWidth && 0.0 < elHeight && 0.0 < maxOutDimension
    requires HasArea(g, elWidth, elHeight, elMargin, outerMargin)
    ensures var p := LayoutPage(g, elWidth, elHeight, elMargin, outerMargin, maxOutDimension, headerCoef, hasHeader);
      0.0 <= p.headerTop && p.headerTop + p.headerHeight <= CellY(p, 0)
  {
    var p := LayoutPage(g, elWidth, elHeight, elMargin, outerMargin, maxOutDimension, headerCoef, hasHeader);
    LayoutPageScaling(g, elWidth, elHeight, elMargin, outerMargin, maxOutDimension, headerCoef, hasHeader);
    MulLe(0.0, elMargin as real, p.mult);
    MulLe(0.0, outerMargin as real, p.mult);
    assert p.headerTop == (p.outerMargin + p.elMargin) / 2.0;
  }

  lemma ConsistentCellInside(p: PageBox, g: Grid, elWidth: real, elHeight: real, elMargin: real, outerMargin: real,
                             row: nat, col: nat)
    requires Consistent(p, g, elWidth, elHeight, elMargin, outerMargin)
    requires 0.0 <= elWidth && 0.0 <= elHeight && 0.0 <= elMargin && 0.0 <= outerMargin && 0.0 <= p.headerHeight
    requires row < g.rows && col < g.columns
    ensures 0.0 <= CellX(p, col) && CellX(p, col) + p.cellWidth <= p.width
    ensures p.headerHeight <= CellY(p, row) && CellY(p, row) + p.cellHeight <= p.height
  {
    ConsistentFillsArea(p, g, elWidth, elHeight, elMargin, outerMargin);
    MulLe(0.0, elMargin, p.mult);
    MulLe(0.0, outerMargin, p.mult);
    MulLe(0.0, elWidth, p.mult);
    MulLe(0.0, elHeight, p.mult);
    FilledCellInside(p, g.columns, g.rows, row, col);
  }

  lemma FilledCellInside(p: PageBox, columns: nat, rows: nat, row: nat, col: nat)
    requires p.width == p.outerMargin * 2.0 + columns as real * (p.cellWidth + p.elMargin * 2.0)
    requires p.height - p.headerHeight == p.outerMargin * 2.0 + rows as real * (p.cellHeight + p.elMargin * 2.0)
    requires 0.0 <= p.outerMargin && 0.0 <= p.elMargin && 0.0 <= p.cellWidth && 0.0 <= p.cellHeight
    requires 0.0 <= p.headerHeight && p.areaTop == p.outerMargin + p.headerHeight
    requires row < rows && col < columns
    ensures 0.0 <= CellX(p, col) && CellX(p, col) + p.cellWidth <= p.width
    ensures p.headerHeight <= CellY(p, row) && CellY(p, row) + p.cellHeight <= p.height
  {
    SlotInsideBand(p.outerMargin, p.elMargin, p.cellWidth, col, columns, p.width);
    SlotInsideBand(p.outerMargin, p.elMargin, p.cellHeight, row, rows, p.height - p.headerHeight);
  }

  /** Cells in different columns, or in different rows, do not overlap. */
  lemma CellsDisjoint(p: PageBox, a: nat, b: nat)
    requires 0.0 <= p.elMargin && 0.0 <= p.cellWidth && 0.0 <= p.cellHeight
    requires a < b
    ensures CellX(p, a) + p.cellWidth <= CellX(p, b)
    ensures CellY(p, a) + p.cellHeight <= CellY(p, b)
  {
    SlotsOrdered(p.outerMargin, p.elMargin, p.cellWidth, a, b);
    SlotsOrdered(p.areaTop, p.elMargin, p.cellHeight, a, b);
  }

  /** In a band of slots of size `size` with `margin` on either side, slot
      `a` ends before a later slot `b` begins. */
  lemma SlotsOrdered(origin: real, margin: real, size: real, a: nat, b: nat)
    requires 0.0 <= margin && 0.0 <= size && a < b
    ensures origin + a as real * (size + margin * 2.0) + margin + size
         <= origin + b as real * (size + margin * 2.0) + margin
  {
    var step := size + margin * 2.0;
    MulLe(a as real + 1.0, b as real, step);
    assert (a as real + 1.0) * step == a as real * step + step;
  }
}
