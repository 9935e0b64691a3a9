/** Division with remainder, where the solver should not have to search for it. */
module Arithmetic {
  lemma AtLeast(m: int, k: int)
    requires m > 0 && k != 0
    ensures m * k >= m || m * k <= -m
  {
  }

  /** Quotient and remainder are what they look like. */
  lemma Euclid(q: int, r: int, m: int)
    requires 0 <= r < m
    ensures (q * m + r) / m == q && (q * m + r) % m == r
  {
    var x := q * m + r;
    var k := q - x / m;
    assert m * k == q * m - m * (x / m) == x % m - r;
    if k != 0 {
      AtLeast(m, k);
    }
  }

  /** Whole multiples of the modulus do not matter. */
  lemma Shifted(x: int, k: int, m: int)
    requires m > 0
    ensures (x - m * k) % m == x % m
  {
    var q, r := x / m, x % m;
    assert x == m * q + r;
    assert x - m * k == (q - k) * m + r;
    Euclid(q - k, r, m);
  }

  /** Neither does reducing before adding. */
  lemma ReducedSum(x: int, y: int, m: int)
    requires m > 0
    ensures (x % m + y) % m == (x + y) % m
  {
    var q := x / m;
    assert x % m + y == x + y - m * q;
    Shifted(x + y, q, m);
  }
}
