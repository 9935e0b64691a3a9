/** The divisors of 32767 = 7 * 31 * 151, the order of x (see Order.dfy). */
module Divisors {
  import opened Arithmetic

  const ORDER: nat := 32767

  /** Up to k, only 1, 7, 31 and 151 divide 32767. */
  predicate OnlyKnown(k: nat) {
    k == 0 || ((ORDER % k == 0 ==> k in {1, 7, 31, 151}) && OnlyKnown(k - 1))
  }

  lemma {:induction false} Known(k: nat, d: nat)
    requires OnlyKnown(k) && 0 < d <= k && ORDER % d == 0
    ensures d in {1, 7, 31, 151}
  {
    if d < k {
      Known(k - 1, d);
    }
  }

  lemma KnownTo60()
    ensures OnlyKnown(60)
  {
    assert OnlyKnown(10); assert OnlyKnown(20); assert OnlyKnown(30); assert OnlyKnown(40);
    assert OnlyKnown(50);
  }

  lemma KnownTo120()
    ensures OnlyKnown(120)
  {
    KnownTo60();
    assert OnlyKnown(70); assert OnlyKnown(80); assert OnlyKnown(90); assert OnlyKnown(100);
    assert OnlyKnown(110);
  }

  lemma KnownTo181()
    ensures OnlyKnown(181)
  {
    KnownTo120();
    assert OnlyKnown(130); assert OnlyKnown(140); assert OnlyKnown(150); assert OnlyKnown(160);
    assert OnlyKnown(170); assert OnlyKnown(180);
  }

  lemma SmallDivisors(d: nat)
    requires 0 < d <= 181 && ORDER % d == 0
    ensures d in {1, 7, 31, 151}
  {
    hide OnlyKnown;
    KnownTo181();
    Known(181, d);
  }

  lemma LargeProduct(p: nat, m: nat)
    requires p >= 182 && m >= 182
    ensures p * m > ORDER
  {
    assert p * m >= 182 * m;
  }

  lemma Divides(p: nat, m: nat)
    requires p > 0 && m > 0 && p * m == ORDER
    ensures ORDER % p == 0 && ORDER % m == 0
  {
    Multiple(p, m, ORDER);
    Multiple(m, p, ORDER);
  }

  lemma Multiple(p: nat, m: nat, n: nat)
    requires p > 0 && p * m == n
    ensures n % p == 0
  {
    Euclid(m, 0, p);
    assert m * p + 0 == n;
  }

  /** A proper divisor of 32767 divides 4681, 1057 or 217. */
  lemma ProperDivisor(p: nat, m: nat) returns (n: nat, q: nat)
    requires 0 < p < ORDER && p * m == ORDER
    ensures n in {4681, 1057, 217} && n == q * p
  {
    Divides(p, m);
    if p <= 181 {
      SmallDivisors(p);
      n, q := if p == 151 then 1057 else if p == 1 then 4681 else 217,
              if p == 1 then 4681 else if p == 7 then 31 else 7;
    } else {
      if m > 181 {
        LargeProduct(p, m);
      }
      SmallDivisors(m);
      n, q := p, 1;
    }
  }
}
