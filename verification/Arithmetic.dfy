/** Division and remainder with a variable divisor. */
module Arithmetic {

  lemma MulBound(m: int, d: int)
    requires m > 0
    ensures d <= 0 ==> m * d <= 0
    ensures d >= 1 ==> m * d >= m
    ensures d <= -1 ==> m * d <= -m
  {
    if d >= 1 {
      assert m * d == m * (d - 1) + m;
    } else if d <= -1 {
      assert m * d == m * (d + 1) - m;
    }
  }

  /** Quotient and remainder are determined by the division equation. */
  lemma DivModUnique(x: int, m: int, q: int, r: int)
    requires m > 0 && x == m * q + r && 0 <= r < m
    ensures x / m == q && x % m == r
  {
    var d := x / m - q;
    assert x == m * (x / m) + x % m;
    assert m * d == r - x % m by {
      assert m * d == m * (x / m) - m * q;
    }
    MulBound(m, d);
  }

  lemma AddMultiple(r: int, m: int, q: int)
    requires m > 0
    ensures (m * q + r) % m == r % m && (m * q + r) / m == q + r / m
  {
    var x := m * q + r;
    assert x == m * (q + r / m) + r % m by {
      assert m * (q + r / m) == m * q + m * (r / m);
    }
    DivModUnique(x, m, q + r / m, r % m);
  }
}
