/** Which error patterns have a remainder other than zero modulo P. */
module ErrorDetection {
  import opened Divisors
  import opened Order
  import opened Polynomial
  import opened ShiftRegister

  /** All the flipped bits lie within sixteen consecutive places from `lo`, a flipped bit. */
  ghost predicate BurstFrom(e: seq<bool>, lo: nat) {
    lo < |e| && e[lo] && forall i :: 0 <= i < |e| && e[i] ==> lo <= i < lo + 16
  }

  /** At least one bit is flipped, and no two flipped bits are more than fifteen places apart. */
  ghost predicate IsBurst(e: seq<bool>) {
    exists lo: nat :: BurstFrom(e, lo)
  }

  function Weight(e: seq<bool>): nat {
    if e == [] then 0 else Weight(e[..|e| - 1]) + (if e[|e| - 1] then 1 else 0)
  }

  /** Exactly the bits i and j are flipped. */
  ghost predicate IsPair(e: seq<bool>, i: nat, j: nat) {
    i < j < |e| && forall k :: 0 <= k < |e| ==> (e[k] <==> k == i || k == j)
  }

  lemma BurstRemainder(e: seq<bool>)
    requires IsBurst(e)
    ensures Poly(e) != 0
  {
    hide Shift, Shifts, Poly, Below, Within;
    var lo: nat :| BurstFrom(e, lo);
    var hi := if lo + 16 <= |e| then lo + 16 else |e|;
    var w := e[lo..hi];
    assert e == Zeros(lo) + w + Zeros(|e| - hi);
    PolyPadded(lo, w, |e| - hi);
    assert w[0];
    ShortPoly(w);
    ShiftsZero(|e| - hi, Poly(w));
  }

  // ---- Odd weight ----

  function Carry(w: bv16): bv16 {
    w >> 15
  }

  /** The sum of the first n coefficients; over all sixteen, the value of the polynomial at x = 1. */
  function Sum(w: bv16, n: nat): bv16
    decreases n
  {
    if n == 0 then 0 else Xor(Carry(w), Sum(Up(w), n - 1))
  }

  lemma CarryXor(a: bv16, b: bv16)
    ensures Carry(Xor(a, b)) == Xor(Carry(a), Carry(b))
    ensures Up(Xor(a, b)) == Xor(Up(a), Up(b))
  {
  }

  lemma {:induction false} SumXor(a: bv16, b: bv16, n: nat)
    ensures Sum(Xor(a, b), n) == Xor(Sum(a, n), Sum(b, n))
    decreases n
  {
    hide Carry, Up, Xor;
    if n == 0 {
      XorZero(0);
    } else {
      CarryXor(a, b);
      SumXor(Up(a), Up(b), n - 1);
      XorSwap(Carry(a), Carry(b), Sum(Up(a), n - 1), Sum(Up(b), n - 1));
    }
  }

  lemma {:induction false} SumLast(w: bv16, n: nat)
    ensures Sum(w, n + 1) == Xor(Sum(w, n), Carry(Rest(w, n)))
    decreases n
  {
    hide Carry, Up, Xor;
    if n == 0 {
      XorCommutes(Carry(w), 0);
    } else {
      SumLast(Up(w), n - 1);
      XorAssociates(Carry(w), Sum(Up(w), n - 1), Carry(Rest(w, n)));
    }
  }

  function Taps(w: bv16): bv16 {
    Carry(w) * 0x1021
  }

  lemma ShiftParts(w: bv16)
    ensures Shift(w) == Xor(Up(w), Taps(w))
    ensures Carry(w) == 0 || Carry(w) == 1
  {
  }

  /** The polynomial P has an even number of terms, so its taps repay the carry. */
  lemma SumTaps(w: bv16)
    ensures Sum(Taps(w), 16) == Carry(w)
  {
    assert Sum(0, 4) == 0 && Sum(0, 8) == 0 && Sum(0, 12) == 0;
    assert Sum(0, 16) == 0;
    assert Sum(0x1000, 4) == 1 && Sum(0x2100, 8) == 0 && Sum(0x0210, 12) == 0;
    assert Sum(0x1021, 16) == 1;
    ShiftParts(w);
  }

  lemma SumShift(w: bv16)
    ensures Sum(Shift(w), 16) == Sum(w, 16)
  {
    hide Shift, Sum, Carry, Up, Xor, Taps, Rest;
    var rest := Sum(Up(w), 15);
    ShiftParts(w);
    SumXor(Up(w), Taps(w), 16);
    SumTaps(w);
    SumLast(Up(w), 15);
    RestIsZero(w);
    SumFirst(w, 15);
    XorZero(rest);
    CarryZero();
    XorCommutes(rest, Carry(w));
  }

  lemma SumFirst(w: bv16, n: nat)
    ensures Sum(w, n + 1) == Xor(Carry(w), Sum(Up(w), n))
  {
  }

  lemma RestIsZero(w: bv16)
    ensures Rest(Up(w), 15) == 0
  {
    AllOut(w);
    hide Up;
    assert Rest(w, 16) == Rest(Up(w), 15);
  }

  lemma CarryZero()
    ensures Carry(0) == 0
  {
  }

  lemma SumOne(b: bool)
    ensures Sum(One(b), 16) == One(b)
  {
    assert Sum(0, 4) == 0 && Sum(0, 8) == 0 && Sum(0, 12) == 0;
    assert Sum(0x1000, 4) == 1 && Sum(0x0100, 8) == 1 && Sum(0x0010, 12) == 1;
    assert Sum(0x0001, 16) == 1 && Sum(0, 16) == 0;
  }

  lemma OneXor(a: bool, b: bool)
    ensures Xor(One(a), One(b)) == One(a != b)
  {
  }

  /** Division by P keeps the parity of the number of terms. */
  lemma {:induction false} WeightParity(e: seq<bool>)
    ensures Sum(Poly(e), 16) == One(Weight(e) % 2 == 1)
  {
    hide Shift, Xor, Sum, One;
    if e == [] {
      SumOne(false);
      ZeroIsOneOfFalse();
    } else {
      var n := |e| - 1;
      var p := Poly(e[..n]);
      WeightParity(e[..n]);
      SumXor(Shift(p), One(e[n]), 16);
      SumShift(p);
      SumOne(e[n]);
      OneXor(Weight(e[..n]) % 2 == 1, e[n]);
    }
  }

  lemma ZeroIsOneOfFalse()
    ensures One(false) == 0 && One(true) == 1
  {
  }

  lemma OddRemainder(e: seq<bool>)
    requires Weight(e) % 2 == 1
    ensures Poly(e) != 0
  {
    hide Poly, Sum, One;
    WeightParity(e);
    SumOne(false);
    ZeroIsOneOfFalse();
  }

  // ---- Two flipped bits ----

  lemma PolyOne()
    ensures Poly([true]) == 1
  {
    assert [true][..0] == [];
    assert Poly([]) == 0;
  }

  /** Two flipped bits cancel exactly when their distance is a multiple of the order of x. */
  lemma PairRemainder(e: seq<bool>, i: nat, j: nat)
    requires IsPair(e, i, j)
    ensures Poly(e) == 0 <==> (j - i) % ORDER == 0
  {
    hide Shift, Shifts, Poly, Xor;
    var k := j - i;
    var w := [true] + Zeros(k - 1) + [true];
    assert e == Zeros(i) + w + Zeros(|e| - 1 - j);
    PolyPadded(i, w, |e| - 1 - j);
    ShiftsZero(|e| - 1 - j, Poly(w));
    PolyOne();
    PolyAppend([true] + Zeros(k - 1), [true]);
    assert [true] + Zeros(k - 1) == Zeros(0) + [true] + Zeros(k - 1);
    PolyPadded(0, [true], k - 1);
    ShiftsAdd(1, k - 1, 1);
    XorEqual(Shifts(k, 1), 1);
    OrderExact(k);
  }
}
