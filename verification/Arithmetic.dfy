/** The few facts on quotients and remainders that the models need. */
module Arithmetic {

  lemma MultipleBounds(d: int, m: int)
    requires m > 0
    ensures d >= 1 ==> d * m >= m
    ensures d <= -1 ==> d * m <= -m
    ensures d == 0 ==> d * m == 0
  {
    if d >= 1 {
      assert (d - 1) * m >= 0;
    } else if d <= -1 {
      assert (-d - 1) * m >= 0;
    }
  }

  /** Quotient and remainder are unique. */
  lemma ModuloOf(q: int, r: int, m: int)
    requires 0 <= r < m
    ensures (q * m + r) % m == r && (q * m + r) / m == q
  {
    var x := q * m + r;
    var d := x / m - q;
    assert x == x / m * m + x % m;
    assert d * m == r - x % m;
    MultipleBounds(d, m);
  }

  lemma AddOneModulo(x: int, m: int)
    requires m > 0
    ensures (x % m + 1) % m == (x + 1) % m
  {
    var q := x / m;
    assert x == q * m + x % m;
    if x % m + 1 < m {
      ModuloOf(q, x % m + 1, m);
      ModuloOf(0, x % m + 1, m);
    } else {
      ModuloOf(q + 1, 0, m);
      assert x + 1 == (q + 1) * m;
      ModuloOf(1, 0, m);
    }
  }

  lemma QuotientOf(x: int, m: int, r: int) returns (q: int)
    requires m > 0 && r == x % m
    ensures x == q * m + r
  {
    q := x / m;
  }

  lemma SmallModulo(x: int, m: int)
    requires 0 <= x < m
    ensures x % m == x
  {
  }

  lemma WholeModulo(m: int)
    requires m > 0
    ensures m % m == 0
  {
    ModuloOf(1, 0, m);
  }
}
