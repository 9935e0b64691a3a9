/** Messages as polynomials over GF(2), and what a remainder of zero modulo
    P(x) = x^16 + x^12 + x^5 + 1 says about an error pattern. */
module Polynomial {
  import opened ShiftRegister

  /** The polynomial whose coefficients are the bits of `s`, highest power first, modulo P. */
  function Poly(s: seq<bool>): bv16 {
    if s == [] then 0 else Xor(Shift(Poly(s[..|s| - 1])), One(s[|s| - 1]))
  }

  function Zeros(n: nat): (s: seq<bool>)
    ensures |s| == n
  {
    seq(n, _ => false)
  }

  /** The bits that differ between two messages. */
  function Flip(s: seq<bool>, t: seq<bool>): (e: seq<bool>)
    requires |s| == |t|
    ensures |e| == |s|
  {
    seq(|s|, i requires 0 <= i < |s| => s[i] != t[i])
  }

  lemma OneShifted()
    ensures Shifts(16, 1) == Shift(0x8000) == 0x1021
    ensures Shift(0x8000) == Shifts(16, 1)
  {
    ShiftsAdd(8, 8, 1);
    assert Shifts(4, 1) == 0x10 && Shifts(4, 0x10) == 0x100;
    ShiftsAdd(4, 4, 1);
    assert Shifts(4, 0x100) == 0x1000 && Shifts(4, 0x1000) == 0x1021;
    ShiftsAdd(4, 4, 0x100);
  }

  lemma TopIsOneShifted(b: bool)
    ensures Shift(Top(b)) == Shifts(16, One(b))
  {
    OneShifted();
    ShiftsZero(16, 0);
    ShiftZero();
  }

  /** The register after a message is the message's polynomial times x^16: the CRC divides. */
  lemma {:induction false} FeedIsPoly(s: seq<bool>)
    ensures Feed(0, s) == Shifts(16, Poly(s))
  {
    hide Shift, Xor, Top, One;
    if s == [] {
      ShiftsZero(16, 0);
    } else {
      var n := |s| - 1;
      var p, b := Poly(s[..n]), s[n];
      FeedIsPoly(s[..n]);
      ShiftLinear(Shifts(16, p), Top(b));
      TopIsOneShifted(b);
      ShiftsLinear(16, Shift(p), One(b));
      ShiftsAdd(16, 1, p);
      ShiftsAdd(1, 16, p);
      assert Shifts(1, p) == Shift(Shifts(0, p));
      assert Shifts(1, Shifts(16, p)) == Shift(Shifts(0, Shifts(16, p)));
    }
  }

  lemma TopOfDifference(a: bool, b: bool)
    ensures Top(a != b) == Xor(Top(a), Top(b))
  {
  }

  /** The register is linear in the start value and the message together. */
  lemma {:induction false} FeedLinear(c: bv16, d: bv16, s: seq<bool>, t: seq<bool>)
    requires |s| == |t|
    ensures Feed(Xor(c, d), Flip(s, t)) == Xor(Feed(c, s), Feed(d, t))
  {
    hide Shift, Xor, Top;
    if s != [] {
      var n := |s| - 1;
      var u, v := Feed(c, s[..n]), Feed(d, t[..n]);
      assert Flip(s, t)[..n] == Flip(s[..n], t[..n]);
      FeedLinear(c, d, s[..n], t[..n]);
      TopOfDifference(s[n], t[n]);
      XorSwap(u, v, Top(s[n]), Top(t[n]));
      ShiftLinear(Xor(u, Top(s[n])), Xor(v, Top(t[n])));
    }
  }

  lemma {:induction false} PolyAppend(s: seq<bool>, t: seq<bool>)
    ensures Poly(s + t) == Xor(Shifts(|t|, Poly(s)), Poly(t))
  {
    hide Shift, Xor, One;
    if t == [] {
      assert s + t == s;
      XorZero(Poly(s));
    } else {
      var n := |t| - 1;
      assert (s + t)[..|s + t| - 1] == s + t[..n];
      PolyAppend(s, t[..n]);
      ShiftLinear(Shifts(n, Poly(s)), Poly(t[..n]));
      XorAssociates(Shifts(|t|, Poly(s)), Shift(Poly(t[..n])), One(t[n]));
    }
  }

  lemma {:induction false} PolyZeros(n: nat)
    ensures Poly(Zeros(n)) == 0
  {
    hide Shift, Xor;
    if n > 0 {
      assert Zeros(n)[..n - 1] == Zeros(n - 1);
      PolyZeros(n - 1);
      ShiftZero();
      XorZero(0);
    }
  }

  /** Leading zeros add nothing, trailing zeros multiply by a power of x. */
  lemma PolyPadded(i: nat, s: seq<bool>, j: nat)
    ensures Poly(Zeros(i) + s + Zeros(j)) == Shifts(j, Poly(s))
  {
    hide Shift, Xor, Shifts, Poly, Zeros;
    PolyAppend(Zeros(i), s);
    PolyZeros(i);
    ShiftsZero(|s|, 0);
    XorZero(Poly(s));
    PolyAppend(Zeros(i) + s, Zeros(j));
    PolyZeros(j);
    XorZero(Shifts(j, Poly(s)));
  }

  // ---- Bursts ----

  function Grow(m: bv16): bv16 {
    (m << 1) | 1
  }

  /** The word with the n low bits set. */
  function Below(n: nat): bv16 {
    if n == 0 then 0 else Grow(Below(n - 1))
  }

  predicate Within(w: bv16, m: bv16) {
    w & !m == 0
  }

  predicate HasRoom(m: bv16) {
    m & 0x8000 == 0
  }

  lemma RoomIsNoReduction(w: bv16, m: bv16)
    requires Within(w, m) && HasRoom(m)
    ensures Shift(w) == w << 1
  {
    assert w & 0x8000 == 0;
    ShiftBranches(w);
  }

  lemma WithinOne(w: bv16, m: bv16)
    requires Within(w, m) && HasRoom(m)
    ensures Within((w << 1) ^ 1, Grow(m)) && (w << 1) ^ 1 != 0
  {
  }

  lemma WithinZero(w: bv16, m: bv16)
    requires Within(w, m) && HasRoom(m)
    ensures Within(w << 1, Grow(m)) && (w << 1 == 0 ==> w == 0)
  {
  }

  lemma StepOne(w: bv16, m: bv16)
    requires Within(w, m) && HasRoom(m)
    ensures Within(Xor(Shift(w), One(true)), Grow(m)) && Xor(Shift(w), One(true)) != 0
  {
    hide Within, HasRoom, Grow, Shift;
    RoomIsNoReduction(w, m);
    WithinOne(w, m);
  }

  lemma StepZero(w: bv16, m: bv16)
    requires Within(w, m) && HasRoom(m)
    ensures Within(Xor(Shift(w), One(false)), Grow(m))
    ensures Xor(Shift(w), One(false)) == 0 ==> w == 0
  {
    hide Within, HasRoom, Grow, Shift, Xor;
    RoomIsNoReduction(w, m);
    WithinZero(w, m);
    XorZero(w << 1);
  }

  lemma BelowHasRoom(n: nat)
    requires n <= 15
    ensures HasRoom(Below(n))
  {
    assert Below(4) == 0xF by { assert Below(2) == 3; }
    assert Below(8) == 0xFF by { assert Below(6) == 0x3F; }
    assert Below(12) == 0xFFF by { assert Below(10) == 0x3FF; }
    assert Below(15) == 0x7FFF by { assert Below(14) == 0x3FFF; }
  }

  lemma NothingWithin()
    ensures Within(0, 0)
  {
  }

  /** Sixteen bits are too few to be reduced, so they are zero modulo P only if all are zero. */
  lemma {:induction false} ShortPoly(s: seq<bool>)
    requires |s| <= 16
    ensures Within(Poly(s), Below(|s|))
    ensures Poly(s) == 0 ==> forall i :: 0 <= i < |s| ==> !s[i]
  {
    hide Shift, Xor, Within, HasRoom, Grow, One;
    if s == [] {
      NothingWithin();
    } else {
      var n := |s| - 1;
      ShortPoly(s[..n]);
      BelowHasRoom(n);
      if s[n] {
        StepOne(Poly(s[..n]), Below(n));
      } else {
        StepZero(Poly(s[..n]), Below(n));
        assert forall i :: 0 <= i < n ==> s[i] == s[..n][i];
      }
    }
  }
}
