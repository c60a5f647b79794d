# fixed-merge, modelled in Dafny

fixed-merge tiles a list of same-size images ("elements") onto one or more
output pages. For each page it picks a near-square grid and splits the input
over several pages when there are many elements. It scales every page's grid
area so that its larger side is `maxOutDimension` pixels, and it can put a
background and an auto-shrinking text header on each page. A header band adds
to the page's height above the grid area (index.js:139).

This project models the arithmetic core of `index.js`:

- `GridSolver`: `getWidthAndHeightEl`. It chooses the column count by rounding
  or ceiling a square root, depending on the element's shape, and then just
  enough rows. The square root is replaced by an exact characterisation: the
  least column count passing a polynomial test.
- `PaginationPlanner`: `createLayouts`. It computes the per-page target, the
  capacity of the provisional grid, the page count and the grid of every
  page. `PlanPages` is the corrected planner (see Findings).
- `HeaderRenderer`: the font-size loop of `createHeader`, and the page label
  `header [k/n]` built in `merge`, with a parser that reads it back.
- `PageGeometry`: the margin conversion, the unscaled page size, the uniform
  scaling to `maxOutDimension`, the header band, and where each cell is drawn.
- `Compositor`: the drawing walk of `merge`. One counter shared by all pages
  hands the next element to each cell in row-major order.
- `Merger`: `merge` with its I/O taken out. From the element count, element
  size, options and whether the background has loaded, it computes every
  page's plan, or fails with `NoItems` when there are no elements. `Merge`
  plans the pages with `createLayouts` as written; `MergeCorrected` is the
  same merge over the corrected planner.
- `Numeric` holds `Math.ceil` and small arithmetic facts; `Wrappers` holds
  `Option` and `Result`.

Lengths and counts are exact: `real` for sizes and for the possibly fractional
per-page target, `nat` for grid dimensions and element indices.

The header font loop (index.js:40-43) tests its floor of 4 only after a
reduction of 2. So when the text does not fit at the start size, a start of 5
ends at 3, and a start of 4 or less is still reduced once.
`HeaderRenderer.FitFontSizeLowerBound` states the bound that does hold, and
`HeaderRenderer.FloorCanBeUndershot` shows the case of a start of 5.

## Model

| member | source | states |
|---|---|---|
| Numeric.Ceil | index.js:9 | `Math.ceil`: the result is the integer `r` with `x <= r < x + 1` |
| Numeric.CeilUnique | index.js:9 | only one integer lies in `[x, x + 1)`, so any such integer is `Ceil(x)` |
| Numeric.CeilDivBounds | index.js:9 | `rows = ceil(count / columns)` rows cover `count` elements, and one row fewer does not |
| GridSolver.CeilSqrt | index.js:7 | `Math.ceil(Math.sqrt(x))` is the least `c` with `c*c >= x` |
| GridSolver.RoundSqrt | index.js:7 | `Math.round(Math.sqrt(x))` is the least `c` with `(2c+1)^2 > 4x`, that is `floor(sqrt(x) + 1/2)` |
| GridSolver.Radicand | index.js:6-7 | the square-root argument `count / aspectRatio` satisfies `x * elWidth == count * elHeight` |
| GridSolver.AspectAboveOne | index.js:6-7 | `aspectRatio > 1` exactly when the element is wider than tall |
| GridSolver.Columns | index.js:6-8 | the column count is at least 1; it is the rounded root for wide elements and the ceiled root otherwise, clamped from 0 to 1 |
| GridSolver.ColumnsUnique | index.js:6-8 | only one column count meets that characterisation, so the choice depends on count and shape alone |
| GridSolver.Solve | index.js:5-15 | the grid keeps the count it was solved for; `columns*rows >= count`, and for a positive count `columns*(rows-1) < count`; a count of 0 gives a 1 x 0 grid |
| GridSolver.SolveIs | index.js:5-15 | any column and row count meeting the column characterisation and the row ceiling is the solver's answer |
| PaginationPlanner.Target | index.js:18-19 | the target per page is at least `triggerSplitCount` and covers the even share `elCount / maxPagesCount`; it is one of the two |
| PaginationPlanner.Provisional | index.js:19-20 | the provisional grid, solved for the target, has at least as many cells as the target |
| PaginationPlanner.Capacity | index.js:20-21 | the capacity is at least the target, at least `triggerSplitCount`, and `maxPagesCount` pages of it hold every element |
| PaginationPlanner.PageCount | index.js:22 | `ceil(elCount / capacity)` pages hold every element, one page fewer does not, and there are no pages exactly when there are no elements |
| PaginationPlanner.Remainder | index.js:26 | the elements left for the last page, `elCount - i * preElementsPerPage` with `i` the last page's index; `LastPage` and `PlanShapeRemainder` bound it in `(0, capacity]` |
| PaginationPlanner.LastPage | index.js:26 | for a non-empty input the last page is the grid for the remainder, which lies in `(0, capacity]`, and the grid has a cell for each of those elements |
| PaginationPlanner.CreateLayouts | index.js:17-31 | never more than `maxPagesCount` pages, and none exactly when there are no elements; `CreateLayoutsPages` states the grid of every page |
| PaginationPlanner.CreateLayoutsPages | index.js:17-31 | the capacity is the provisional grid's cell count; every page but the last is the grid solved for the capacity; the last is the grid solved for the remainder |
| PaginationPlanner.PageCountBound | index.js:22 | a capacity that covers every element over `maxPagesCount` pages needs at most that many pages |
| PaginationPlanner.SinglePage | index.js:22 | at most one capacity's worth of elements needs exactly one page |
| PaginationPlanner.PlanShapeSum | index.js:24-28 | in any plan of that shape the pages' `elements` add up to the element count |
| PaginationPlanner.FullPagesSum | index.js:24-28 | pages of `cap` elements each, followed by one page holding what is left, add up to the element count |
| PaginationPlanner.PlanShapeRemainder | index.js:26 | in any plan of that shape the last page holds between one element and a full capacity |
| PaginationPlanner.CreateLayoutsSum | index.js:22-28 | the `elements` fields of the pages of `createLayouts` add up to `elCount` |
| PaginationPlanner.CreateLayoutsSmallInput | index.js:17-28 | no more than `triggerSplitCount` elements give one page whose grid is solved for exactly those elements |
| PaginationPlanner.OnePageLayout | index.js:17-28 | at most `triggerSplitCount` elements, or a limit of one page, give a single page whose grid is solved for exactly those elements |
| PaginationPlanner.LastPageReplans | index.js:26 | planning the last page's remainder alone, on one page, gives back the last page's grid |
| PaginationPlanner.HundredSquaresOnFourPages | index.js:17-31 | 100 square elements on at most 4 pages give four identical 5 x 5 pages of 25 elements |
| PaginationPlanner.ResolvedCapacityOverflows | index.js:20-27 | for 33 elements of size 1 x 2 on at most 3 pages, the capacity is 15, but each full page is re-solved to 18 cells |
| PaginationPlanner.TallGrids | index.js:5-15 | for elements of size 1 x 2 the grids solved for 11, 15 and 3 are 5 x 3, 6 x 3 and 3 x 1 |
| PaginationPlanner.PlanPages | index.js:17-31 | the corrected planner keeps the page bound: at most `maxPagesCount` pages, and none exactly when there are no elements |
| PaginationPlanner.PlanPagesShape | index.js:20-28 | in the corrected planner every page but the last has `capacity` elements and exactly `capacity` cells, the last holds the remainder, and every grid has a column and enough cells for its elements |
| PaginationPlanner.PlanPagesMatchesCreateLayouts | index.js:24-28 | the corrected planner has the same page count, the same `elements` per page and the same last page as `createLayouts` |
| PaginationPlanner.PlanPagesSum | index.js:24-28 | the corrected plan also distributes exactly `elCount` elements |
| HeaderRenderer.StartSize | index.js:36 | the size the loop starts from, 70% of the header's height; `FitFontSize` states what becomes of it |
| HeaderRenderer.Fits | index.js:40 | the loop's exit test: the text measured at a size is at most 80% of the header's width |
| HeaderRenderer.Step | index.js:41 | the size after a number of reductions by 2 from the start size |
| HeaderRenderer.ShrinkFrom | index.js:40-44 | the loop stops at the first size where the text fits, or right after a reduction to 4 or below; every earlier size was too wide |
| HeaderRenderer.FitFontSize | index.js:36-44 | the start size is kept exactly when the text fits at `0.7 * height`; otherwise the size drops by 2 per step until the text fits within `0.8 * width` or the size is at most 4 |
| HeaderRenderer.FitFontSizeLowerBound | index.js:40-43 | the chosen size is above 2, or within one step of the start size |
| HeaderRenderer.FloorCanBeUndershot | index.js:40-43 | text that never fits, with a start size of 5, ends at size 3, below the floor |
| HeaderRenderer.DigitChar | index.js:140 | the character for a digit is a decimal digit of that value |
| HeaderRenderer.NatToString | index.js:140 | a page number as the label prints it: a non-empty run of decimal digits, starting with `0` exactly when the number is 0 |
| HeaderRenderer.NatToStringRoundTrip | index.js:140 | a page number printed in decimal is a non-empty digit string, without a leading zero from 10 on, that reads back as the number |
| HeaderRenderer.DigitsValueRoundTrip | index.js:140 | a digit string without a leading zero is the printed form of the number it denotes, so the printed page numbers are the only digit strings without a leading zero that read back as them |
| HeaderRenderer.SplitDigits | index.js:140 | a string splits into a part not ending in a digit and its trailing digits, which rejoin to the string |
| HeaderRenderer.SplitDigitsOfAppend | index.js:140 | digits appended to text that does not end in a digit split off again unchanged |
| HeaderRenderer.HeaderText | index.js:140 | the label starts with the header, and is longer than it exactly when there are several pages; `HeaderTextRoundTrip` states what follows the header |
| HeaderRenderer.ParseLabel | index.js:140 | a label of the form `header [a/b]`, for any two non-empty digit strings, reads back as the header and the numbers `a` and `b` denote |
| HeaderRenderer.HeaderTextRoundTrip | index.js:140 | with several pages the label parses back to header, page number `index + 1` and page count; with one page it is the bare header |
| PageGeometry.MarginPixels | index.js:107-108 | a margin is the average element side times its fraction, rounded up to whole pixels; a fraction of 0 gives 0 |
| PageGeometry.PreWidth | index.js:116 | the unscaled width: two outer margins and, per column, an element with a margin on each side; `ConsistentFillsArea` states that, scaled, these fill the page width exactly |
| PageGeometry.PreHeight | index.js:117 | the unscaled height, likewise per row; `ConsistentFillsArea` states that, scaled, these fill the grid area's height exactly |
| PageGeometry.AspectCompare | index.js:118-120 | `preWidth / preHeight >= 1` exactly when the page is at least as wide as tall |
| PageGeometry.ScaleToFit | index.js:118-128 | the larger side becomes `maxOutDimension` (the width when wide, the height when tall), the aspect ratio is kept, and `mult` scales both sides |
| PageGeometry.WideScale | index.js:120-123 | the wide branch (width set to the maximum, height divided by the aspect ratio) has its larger side at the maximum, keeps the aspect ratio, and `mult` scales both sides |
| PageGeometry.TallScale | index.js:124-127 | the tall branch (height set to the maximum, width multiplied by the aspect ratio) has its larger side at the maximum, keeps the aspect ratio, and `mult` scales both sides |
| PageGeometry.LayoutPage | index.js:116-141 | the page's grid area, the page without its header band, has its larger side at `maxOutDimension` |
| PageGeometry.BoxOf | index.js:128-139 | the page built from a scale: `LayoutPageParts` states each of its fields in terms of `mult` |
| PageGeometry.LayoutPageAspect | index.js:116-127 | the grid area has its larger side at `maxOutDimension` and the unscaled aspect ratio |
| PageGeometry.LayoutPageMult | index.js:128 | `mult` is positive and scales the unscaled width and height to the grid area's |
| PageGeometry.LayoutPageParts | index.js:129-139 | the element and both margins are scaled by `mult`; the header band is `headerCoef` times the grid area's average side, or 0 without a header; the grid starts one outer margin below the band |
| PageGeometry.LayoutPageScaling | index.js:116-139 | the conjunction of `LayoutPageAspect`, `LayoutPageMult` and `LayoutPageParts` |
| PageGeometry.LayoutPageConsistent | index.js:116-139 | every scaled quantity is the unscaled one times `mult`, and the grid area starts one outer margin below the header band |
| PageGeometry.ConsistentFillsArea | index.js:116-132 | the scaled margins and elements fill the scaled grid area exactly, across and down |
| PageGeometry.CellX | index.js:155 | the left edge of a column's cell; `CellInsidePage` and `CellsDisjoint` state where it lies |
| PageGeometry.CellY | index.js:156 | the top edge of a row's cell; `CellInsidePage` and `CellsDisjoint` state where it lies |
| PageGeometry.HeaderBandAboveGrid | index.js:137-156 | the header image, drawn at `(outerMargin + elMargin) / 2`, starts inside the page and ends above the first row of cells |
| PageGeometry.CellInsidePage | index.js:134-156 | every cell of the grid is drawn inside the page and below the header band |
| PageGeometry.CellsDisjoint | index.js:155-156 | cells in different columns, or in different rows, do not overlap |
| Compositor.DrawnCount | index.js:150-153 | a page draws as many elements as it has cells or as remain, whichever is fewer |
| Compositor.PageCells | index.js:150-156 | a page draws the next elements in row-major order, element `start + k` at row `k / columns` and column `k % columns` |
| Compositor.PageCellsInGrid | index.js:150-151 | every drawn cell lies inside the page's grid |
| Compositor.DrawPage | index.js:150-156 | the nested row and column loops, with the counter test and `break`, draw exactly the cells of `PageCells` and advance the counter by their number |
| Compositor.Placement | index.js:113-156 | one list of drawn cells per grid; `PlacementIndices`, `PlacementInGrid` and `PlacementFitsGrids` state what the lists hold |
| Compositor.Place | index.js:113-156 | the page loop, carrying one counter across pages from 0, draws exactly `Placement` |
| Compositor.PlacementIndices | index.js:113-153 | the shared counter hands out consecutive elements: never one twice, never out of order, never past the input; as many as remain or as the grids have cells |
| Compositor.PlacementInGrid | index.js:150-156 | every cell of every page lies inside that page's grid |
| Compositor.PlacementFitsGrids | index.js:150-153 | no page draws more elements than its grid has cells |
| Compositor.TotalCellsCoverElements | index.js:24-28 | grids that each hold their assigned count hold, in total, at least the total count |
| Compositor.CreateLayoutsDrawsEveryElement | index.js:112-153 | with `createLayouts` every element is drawn exactly once, in input order |
| Compositor.CreateLayoutsOverdraws | index.js:112-153 | with `createLayouts`, 33 elements of size 1 x 2 on at most 3 pages are drawn 18, 15 and 0 per page, against 15, 15 and 3 planned |
| Compositor.PlannedPlacementFrom | index.js:113-153 | with the corrected plan, from any page on, every page draws exactly its planned elements, at least one |
| Compositor.PlanPagesDrawExactly | index.js:113-156 | the conjunction of `PlanPagesDrawPlanned` and `PlanPagesDrawEveryElement` |
| Compositor.PlanPagesDrawPlanned | index.js:113-153 | with the corrected plan every page draws exactly its planned elements, at least one |
| Compositor.PlanPagesDrawEveryElement | index.js:113-153 | with the corrected plan every element is drawn exactly once, in input order |
| Merger.HasHeader | index.js:136-148 | the truthiness tests `if (header)`: a header is drawn exactly when its text is non-empty, as both `null` and `""` are falsy |
| Merger.NonEmptyGridHasArea | index.js:116-118 | a page with at least one column and one row has a positive unscaled size, so its aspect ratio exists |
| Merger.ShapeGridsNonEmpty | index.js:24-28 | in a plan of the planner's shape every page is assigned at least one element, so every grid has at least one column and one row |
| Merger.CreateLayoutsGridsNonEmpty | index.js:17-31 | every page of `createLayouts` has at least one column and one row |
| Merger.PlanPagesGridsNonEmpty | index.js:17-31 | every page of the corrected planner has at least one column and one row |
| Merger.DefaultConfig | index.js:65-74 | the constructor's defaults (no background, one page, one element per page, 2048 pixels, header coefficient 0.1, no margins, `null` header) lie in the assumed option ranges and set no header |
| Merger.PlanPage | index.js:116-160 | the plan of one page; `PlanPageScaled` and `PlanPageHeader` state its size, background and header |
| Merger.MergeWith | index.js:106-160 | one page plan per grid |
| Merger.Merge | index.js:103-112 | the merge as written fails, with `NoItems`, exactly when there are no elements |
| Merger.MergeCorrected | index.js:103-112 | the corrected merge fails, with `NoItems`, exactly when there are no elements |
| Merger.MergeWithPages | index.js:113-156 | page `i` is laid out on grid `i` and draws page `i` of the shared drawing walk |
| Merger.MergeShape | index.js:112-156 | a non-empty merge as written has one page plan per grid of `createLayouts`, between 1 and `maxPagesCount` of them, each drawing its page of the walk |
| Merger.MergeDrawsEveryElement | index.js:112-156 | a non-empty merge as written draws every element exactly once and in input order, and no page more elements than its grid has cells |
| Merger.MergeCorrectedShape | index.js:112-156 | a non-empty corrected merge has one page plan per grid of `PlanPages`, between 1 and `maxPagesCount` of them, each drawing its page of the walk |
| Merger.MergeCorrectedDrawsExactly | index.js:112-156 | a non-empty corrected merge draws every element exactly once and in input order, each page exactly its planned elements and at least one |
| Merger.MergeOverdraws | index.js:112-156 | 33 elements of size 1 x 2 on at most 3 pages: the merge as written draws 18, 15 and 0 per page, the corrected merge 15, 15 and 3 |
| Merger.MergePageDetails | index.js:106-148 | per page of the merge as written: grid area's larger side at `maxOutDimension`; background exactly when requested and loaded; a header exactly when one is set, labelled `k/n` only when there are several pages |
| Merger.MergeCorrectedPageDetails | index.js:106-148 | the same per page of the corrected merge |
| Merger.MergeWithPageDetails | index.js:106-148 | the same per page over any grids with at least one column and one row |
| Merger.PlanPageScaled | index.js:116-139 | one page's grid area, below any header band, has its larger side at `maxOutDimension` |
| Merger.PlanPageHeader | index.js:106-141 | one page draws the background exactly when requested and loaded, and has a header exactly when one is set, labelled `k/n` only when there are several pages |
| Merger.TenSquaresScenario | index.js:103-156 | ten 100 x 100 elements with trigger 10, one page and 500 pixels give, with `createLayouts`, one 4 x 3 page of 500 x 375 pixels drawing all ten |
| Merger.TenSquaresPlan | index.js:17-31 | that scenario is planned as one 4 x 3 page for the ten elements |
| Merger.TenSquaresBox | index.js:116-127 | that page is 400 x 300 unscaled and 500 x 375 scaled |
| Merger.FlattenCellsIsFlatten | index.js:150-156 | the cells of the page plans, in order, are the cells of the drawing walk |

## Left out

- Canvas drawing is not modelled: `createCanvas`, `drawImage`, `fillText`, the text shadow and colours (index.js:34-38, 45-47, 144-161). The model stops at the numbers passed to these calls. Per-cell draw failures, which the code logs and skips, are not modelled either.
- Canvas sizes are not truncated. `createCanvas` takes whole-pixel sizes, while the model keeps the exact real width and height.
- Image loading, font registration and JPEG encoding (`loadImage`, `registerFont`, `toBuffer`) are external library I/O.
- `loadArray` (index.js:51-60) is concurrent promise fan-out. The model takes the element count to be the input length, which is what the `No items` check at line 104 tests. As written, line 55 stores the promise itself in the array and line 58 discards the filtered result. Elements that fail to load, or that are passed as sources rather than canvases, are therefore not modelled as blank cells.
- The constructor's asynchronous background and font loading (index.js:76-87) is a race. The model replaces it with the `backgroundReady` parameter of `Merger.Merge`.
- Option defaulting by `Object.assign` and by destructuring (index.js:65-74, 90-99) is replaced by a resolved `Merger.Config`. `Merger.DefaultConfig` holds the defaults. A `null` header and an empty header are both the empty string, since both are falsy at lines 136 and 148.
- `measureText` is the parameter `measure`. The model assumes nothing about it, not even monotonicity.
- `console.log` diagnostics are left out.
- IEEE floating point is left out: the model uses exact reals, and `Math.sqrt`/`Math.round` are stated through the inequalities of `GridSolver.CeilSqrt` and `GridSolver.RoundSqrt`.
- PaginationPlanner.ValidParams requires `maxPagesCount >= 1`, `triggerSplitCount >= 1` and positive element sizes. The code checks none of these. The constructor's defaults make both counts 1 (index.js:67-68). With `maxPagesCount` 0 the share at line 18 is Infinity, the page count at line 22 is NaN, and no page is produced; that case is not modelled.
- PaginationPlanner.ValidParams also excludes `triggerSplitCount` 0, with which the code still works whenever `elCount / maxPagesCount` is positive. The model does not cover that setting.
- Merger.ValidConfig requires a positive `maxOutDimension` and non-negative margins and `headerCoef`, the ranges the model assumes. The code checks none of them, and other values give no meaningful page.
- The merge as written, `Merger.Merge`, plans with `createLayouts`, as the code does. `Merger.MergeCorrected` is the same merge over `PaginationPlanner.PlanPages`, the corrected planner (see Findings).

## Findings

| source | as written | input that shows it | evidently intended | confidence | as-written member | corrected member |
|---|---|---|---|---|---|---|
| index.js:27 | each full page is `getWidthAndHeightEl(preElementsPerPage, …)`, solving the grid again for the capacity; that grid can have more cells than the capacity, and the shared counter (lines 150-153) fills every cell, so the pages draw 18, 15 and 0 elements and the last page is blank | 33 elements of size 1 x 2, `maxPagesCount` 3, `triggerSplitCount` 1: target 11 gives 5 x 3, so the capacity is 15, but the grid solved for 15 is 6 x 3 | every full page reuses the provisional grid, whose cells are exactly the capacity, so each page draws exactly the elements planned for it | not executed | Merger.MergeOverdraws | Merger.MergeCorrectedDrawsExactly |
