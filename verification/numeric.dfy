/** Exact-arithmetic stand-ins for the few JavaScript `Math` functions the
    layout code relies on. Numbers are modelled as mathematical reals, so no
    floating-point rounding is involved. */
module Numeric {

  /** `Math.ceil` on an exact real: the least integer that is not below `x`. */
  function Ceil(x: real): (r: int)
    ensures x <= r as real < x + 1.0
  {
    -((-x).Floor)
  }

  function Min(a: int, b: int): (m: int)
    ensures m <= a && m <= b
    ensures m == a || m == b
  {
    if a <= b then a else b
  }

  function MaxReal(a: real, b: real): (m: real)
    ensures a <= m && b <= m
    ensures m == a || m == b
  {
    if a >= b then a else b
  }

  /** A ceiling is pinned down by its two defining inequalities. */
  lemma CeilUnique(x: real, k: int)
    requires x <= k as real < x + 1.0
    ensures Ceil(x) == k
  {
  }

  /** `Math.ceil(count / columns)` groups of `columns` hold `count` items, and
      one group fewer would not. */
  lemma CeilDivBounds(count: real, columns: nat)
    requires 0.0 <= count && columns >= 1
    ensures var rows := Ceil(count / columns as real);
      rows >= 0 &&
      (rows * columns) as real >= count &&
      ((rows - 1) * columns) as real < count
  {
    var c := columns as real;
    var q := count / c;
    assert (count / c) * c == count;
    var rows := Ceil(q);
    CeilDivCover(count, c, q, rows, columns);
    CeilDivCover(count, c, q, rows - 1, columns);
  }

  /** With `q * c == count`, the integer `n` times `c` lies on the same side
      of `count` as `n` lies of `q`. */
  lemma CeilDivCover(count: real, c: real, q: real, n: int, columns: int)
    requires c > 0.0 && q * c == count && c == columns as real
    ensures q <= n as real ==> (n * columns) as real >= count
    ensures n as real < q ==> (n * columns) as real < count
  {
    IntMulAsReal(n, columns);
    if q <= n as real {
      MulLe(q, n as real, c);
    } else {
      MulLt(n as real, q, c);
    }
  }

  // Small arithmetic facts, kept in lemmas of their own so that the
  // solver meets each product in isolation.

  lemma MulLe(a: real, b: real, c: real)
    requires a <= b && 0.0 <= c
    ensures a * c <= b * c
  {
  }

  lemma MulLt(a: real, b: real, c: real)
    requires a < b && 0.0 < c
    ensures a * c < b * c
  {
  }

  lemma IntMulAsReal(a: int, b: int)
    ensures (a * b) as real == a as real * b as real
  {
  }

  /** A solver hint kept as a lemma: written as an inline assert instead,
      the proof of `Compositor.PlannedPlacementFrom` runs out of resource. */
  lemma MulSucc(a: int, b: int)
    ensures (a + 1) * b == a * b + b
  {
  }

  /** A solver hint kept as a lemma: written as an inline assert instead,
      `PageGeometry.AspectCompare` no longer verifies. */
  lemma DivMul(x: real, c: real)
    requires c != 0.0
    ensures (x / c) * c == x
  {
  }
}
