/** The few facts about multiplication and division the counting arguments need. */
module Arithmetic {

  lemma MulMonotone(d: int, x: int, y: int)
    requires d >= 0 && x <= y
    ensures d * x <= d * y
  {
    assert d * y == d * x + d * (y - x);
  }

  lemma MulCancel(d: int, x: int, y: int)
    requires d > 0 && d * x < d * y + d
    ensures x <= y
  {
    if x > y {
      MulMonotone(d, y + 1, x);
    }
  }

  lemma DivBounds(a: int, d: int)
    requires d > 0
    ensures d * (a / d) <= a < d * (a / d) + d
  {
  }

  lemma DivMonotone(a: int, b: int, d: int)
    requires d > 0 && a <= b
    ensures a / d <= b / d
  {
    DivBounds(a, d);
    DivBounds(b, d);
    MulCancel(d, a / d, b / d);
  }

  lemma DivUnique(a: int, d: int, q: int)
    requires d > 0 && d * q <= a < d * q + d
    ensures a / d == q
  {
    DivBounds(a, d);
    MulCancel(d, a / d, q);
    MulCancel(d, q, a / d);
  }

  lemma DivShift(a: int, d: int)
    requires d > 0
    ensures (a - d) / d == a / d - 1
  {
    DivBounds(a, d);
    assert d * (a / d - 1) == d * (a / d) - d;
    DivUnique(a - d, d, a / d - 1);
  }

  /** Rounded up. */
  function CeilDiv(a: int, d: int): int
    requires d > 0
  {
    (a + d - 1) / d
  }

  lemma CeilDivNonNegative(a: nat, d: int)
    requires d > 0
    ensures CeilDiv(a, d) >= 0
  {
    DivMonotone(0, a + d - 1, d);
  }

  /** Fewer than n + 1 whole steps of d fit where n - 1 of them leave room. */
  lemma CeilDivBounds(a: int, d: int, n: int)
    requires d > 0 && d * (n - 1) < a
    ensures n <= CeilDiv(a, d)
  {
    DivBounds(a + d - 1, d);
    assert d * (n - 1) == d * n - d;
    MulCancel(d, n, CeilDiv(a, d));
  }
}
