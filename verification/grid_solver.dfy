/** The grid solver of index.js (`getWidthAndHeightEl`): given how many
    elements a page should hold and the size of one element, choose a
    near-square number of columns and as many rows as that count needs.

    The source computes `Math.round(Math.sqrt(x))` or `Math.ceil(Math.sqrt(x))`
    with `x = count / aspect`. Here the square root never appears: both are
    characterised as the least natural number passing a polynomial test. */
module GridSolver {
  import opened Numeric

  /** One page's arrangement. `columns` and `rows` are the source's `width`
      and `height` (counted in elements); `elements` is the count the grid
      was solved for, which may be fractional for a provisional grid. */
  datatype Grid = Grid(columns: nat, rows: nat, elements: real)
  {
    /** How many elements the grid can hold. */
    function Cells(): nat {
      columns * rows
    }
  }

  /** `c >= sqrt(x)`, stated without a square root. */
  predicate CoversSqrt(x: real, c: nat) {
    (c * c) as real >= x
  }

  /** `c + 1/2 > sqrt(x)`, stated without a square root. */
  predicate ExceedsHalfSqrt(x: real, c: nat) {
    ((2 * c + 1) * (2 * c + 1)) as real > 4.0 * x
  }

  lemma CoversSqrtMonotone(x: real, a: nat, b: nat)
    requires a <= b && CoversSqrt(x, a)
    ensures CoversSqrt(x, b)
  {
    assert a * a <= a * b <= b * b;
  }

  lemma ExceedsHalfSqrtMonotone(x: real, a: nat, b: nat)
    requires a <= b && ExceedsHalfSqrt(x, a)
    ensures ExceedsHalfSqrt(x, b)
  {
    var p, q := 2 * a + 1, 2 * b + 1;
    assert p * p <= p * q <= q * q;
  }

  /** Search upwards from `c` for the least natural number covering `sqrt(x)`. */
  function CeilSqrtFrom(x: real, c: nat): (r: nat)
    requires 0.0 <= x
    requires forall k: nat :: k < c ==> !CoversSqrt(x, k)
    ensures CoversSqrt(x, r)
    ensures forall k: nat :: k < r ==> !CoversSqrt(x, k)
    decreases x.Floor + 1 - c
  {
    if CoversSqrt(x, c) then c
    else
      assert c <= c * c;
      CeilSqrtFrom(x, c + 1)
  }

  /** `Math.ceil(Math.sqrt(x))`: the least `c` with `c*c >= x`. */
  function CeilSqrt(x: real): (r: nat)
    requires 0.0 <= x
    ensures CoversSqrt(x, r)
    ensures r == 0 || !CoversSqrt(x, r - 1)
  {
    CeilSqrtFrom(x, 0)
  }

  /** Search upwards from `c` for the least natural number with `c + 1/2 > sqrt(x)`. */
  function RoundSqrtFrom(x: real, c: nat): (r: nat)
    requires 0.0 <= x
    requires forall k: nat :: k < c ==> !ExceedsHalfSqrt(x, k)
    ensures ExceedsHalfSqrt(x, r)
    ensures forall k: nat :: k < r ==> !ExceedsHalfSqrt(x, k)
    decreases x.Floor + 1 - c
  {
    if ExceedsHalfSqrt(x, c) then c
    else
      assert 4 * c < (2 * c + 1) * (2 * c + 1);
      RoundSqrtFrom(x, c + 1)
  }

  /** `Math.round(Math.sqrt(x))`, which for a non-negative argument is
      `floor(sqrt(x) + 1/2)`: the least `c` with `(2c+1)^2 > 4x`. */
  function RoundSqrt(x: real): (r: nat)
    requires 0.0 <= x
    ensures ExceedsHalfSqrt(x, r)
    ensures r == 0 || !ExceedsHalfSqrt(x, r - 1)
  {
    RoundSqrtFrom(x, 0)
  }

  /** The quantity whose square root `getWidthAndHeightEl` takes: `count / aspectRatio`. */
  function Radicand(count: real, elWidth: real, elHeight: real): (x: real)
    requires 0.0 <= count && 0.0 < elWidth && 0.0 < elHeight
    ensures 0.0 <= x
    ensures x * elWidth == count * elHeight
  {
    count / (elWidth / elHeight)
  }

  lemma AspectAboveOne(elWidth: real, elHeight: real)
    requires 0.0 < elWidth && 0.0 < elHeight
    ensures elWidth / elHeight > 1.0 <==> elWidth > elHeight
  {
    var a := elWidth / elHeight;
    assert (elWidth / elHeight) * elHeight == elWidth;
    if a > 1.0 {
      MulLt(1.0, a, elHeight);
    } else {
      MulLe(a, 1.0, elHeight);
    }
  }

  /** The column count: rounded for elements wider than tall, ceiled
      otherwise, and never below one. */
  function Columns(count: real, elWidth: real, elHeight: real): (c: nat)
    requires 0.0 <= count && 0.0 < elWidth && 0.0 < elHeight
    ensures c >= 1
    ensures elWidth > elHeight ==>
      ExceedsHalfSqrt(Radicand(count, elWidth, elHeight), c) &&
      (c == 1 || !ExceedsHalfSqrt(Radicand(count, elWidth, elHeight), c - 1))
    ensures elWidth <= elHeight ==>
      CoversSqrt(Radicand(count, elWidth, elHeight), c) &&
      (c == 1 || !CoversSqrt(Radicand(count, elWidth, elHeight), c - 1))
  {
    var x := Radicand(count, elWidth, elHeight);
    AspectAboveOne(elWidth, elHeight);
    var raw := if elWidth / elHeight > 1.0 then RoundSqrt(x) else CeilSqrt(x);
    if raw == 0 then 1 else raw
  }

  /** The column count is the only number meeting the characterisation of
      `Columns`: the solver's choice is a function of the element's shape. */
  lemma ColumnsUnique(count: real, elWidth: real, elHeight: real, k: nat)
    requires 0.0 <= count && 0.0 < elWidth && 0.0 < elHeight && k >= 1
    requires elWidth > elHeight ==>
      ExceedsHalfSqrt(Radicand(count, elWidth, elHeight), k) &&
      (k == 1 || !ExceedsHalfSqrt(Radicand(count, elWidth, elHeight), k - 1))
    requires elWidth <= elHeight ==>
      CoversSqrt(Radicand(count, elWidth, elHeight), k) &&
      (k == 1 || !CoversSqrt(Radicand(count, elWidth, elHeight), k - 1))
    ensures Columns(count, elWidth, elHeight) == k
  {
    var x := Radicand(count, elWidth, elHeight);
    var c := Columns(count, elWidth, elHeight);
    if c < k {
      if elWidth > elHeight {
        ExceedsHalfSqrtMonotone(x, c, k - 1);
      } else {
        CoversSqrtMonotone(x, c, k - 1);
      }
    } else if c > k {
      if elWidth > elHeight {
        ExceedsHalfSqrtMonotone(x, k, c - 1);
      } else {
        CoversSqrtMonotone(x, k, c - 1);
      }
    }
  }

  /** `getWidthAndHeightEl`: the grid for `count` elements of the given size. */
  function Solve(count: real, elWidth: real, elHeight: real): (g: Grid)
    requires 0.0 <= count && 0.0 < elWidth && 0.0 < elHeight
    ensures g.columns == Columns(count, elWidth, elHeight)
    ensures g.elements == count
    ensures g.Cells() as real >= count
    ensures count > 0.0 ==> ((g.columns * (g.rows - 1)) as real) < count
    ensures count == 0.0 ==> g.columns == 1 && g.rows == 0
  {
    var columns := Columns(count, elWidth, elHeight);
    var rows := Ceil(count / columns as real);
    CeilDivBounds(count, columns);
    assert rows * columns == columns * rows;
    assert (rows - 1) * columns == columns * (rows - 1);
    Grid(columns, rows as nat, count)
  }

  /** The grid is determined by the column characterisation and the row
      count `Math.ceil(count / columns)`. */
  lemma SolveIs(count: real, elWidth: real, elHeight: real, columns: nat, rows: nat)
    requires 0.0 <= count && 0.0 < elWidth && 0.0 < elHeight && columns >= 1
    requires elWidth > elHeight ==>
      ExceedsHalfSqrt(Radicand(count, elWidth, elHeight), columns) &&
      (columns == 1 || !ExceedsHalfSqrt(Radicand(count, elWidth, elHeight), columns - 1))
    requires elWidth <= elHeight ==>
      CoversSqrt(Radicand(count, elWidth, elHeight), columns) &&
      (columns == 1 || !CoversSqrt(Radicand(count, elWidth, elHeight), columns - 1))
    requires count / columns as real <= rows as real < count / columns as real + 1.0
    ensures Solve(count, elWidth, elHeight) == Grid(columns, rows, count)
  {
    ColumnsUnique(count, elWidth, elHeight, columns);
    CeilUnique(count / columns as real, rows);
  }
}
