/** The 16-bit shift register behind the packet error control field (src/crc16.c:26-35) as an
    algebraic object: a word is a polynomial over GF(2) of degree below 16, and one shift
    multiplies it by x modulo P(x) = x^16 + x^12 + x^5 + 1.

    The facts about single words are settled bit by bit; everything above them hides the
    definitions of `Xor` and `Shift` and reasons from those facts alone. */
module ShiftRegister {
  function Xor(a: bv16, b: bv16): bv16 {
    a ^ b
  }

  /** One turn of the inner loop, without the branch. */
  function Shift(c: bv16): bv16 {
    (c << 1) ^ ((c >> 15) * 0x1021)
  }

  /** The two branches of the flight loop. */
  lemma ShiftBranches(c: bv16)
    ensures c & 0x8000 != 0 ==> Shift(c) == (c << 1) ^ 0x1021
    ensures c & 0x8000 == 0 ==> Shift(c) == c << 1
  {
  }

  // ---- Facts about single words ----

  lemma XorCommutes(a: bv16, b: bv16)
    ensures Xor(a, b) == Xor(b, a)
  {
  }

  lemma XorAssociates(a: bv16, b: bv16, c: bv16)
    ensures Xor(Xor(a, b), c) == Xor(a, Xor(b, c))
  {
  }

  lemma XorZero(a: bv16)
    ensures Xor(a, 0) == a == Xor(0, a)
  {
  }

  lemma XorSelf(a: bv16)
    ensures Xor(a, a) == 0
  {
  }

  lemma XorApart(a: bv16, b: bv16)
    requires Xor(a, b) == 0
    ensures a == b
  {
  }

  lemma XorEqual(a: bv16, b: bv16)
    ensures Xor(a, b) == 0 <==> a == b
  {
    hide Xor;
    XorSelf(a);
    if Xor(a, b) == 0 {
      XorApart(a, b);
    }
  }

  /** (a + b) + (c + d) = (a + c) + (b + d). */
  lemma XorSwap(a: bv16, b: bv16, c: bv16, d: bv16)
    ensures Xor(Xor(a, b), Xor(c, d)) == Xor(Xor(a, c), Xor(b, d))
  {
    hide Xor;
    XorAssociates(a, b, Xor(c, d));
    XorAssociates(b, c, d);
    XorCommutes(b, c);
    XorAssociates(c, b, d);
    XorAssociates(a, c, Xor(b, d));
  }

  lemma ShiftDistributes(a: bv16, b: bv16)
    ensures Shift(a ^ b) == Shift(a) ^ Shift(b)
  {
  }

  lemma ShiftLinear(a: bv16, b: bv16)
    ensures Shift(Xor(a, b)) == Xor(Shift(a), Shift(b))
  {
    hide Shift;
    ShiftDistributes(a, b);
  }

  lemma ShiftInjective(a: bv16)
    requires Shift(a) == 0
    ensures a == 0
  {
  }

  lemma ShiftZero()
    ensures Shift(0) == 0
  {
  }

  // ---- Repeated shifts ----

  function Shifts(n: nat, c: bv16): bv16 {
    if n == 0 then c else Shift(Shifts(n - 1, c))
  }

  lemma {:induction false} ShiftsLinear(n: nat, a: bv16, b: bv16)
    ensures Shifts(n, Xor(a, b)) == Xor(Shifts(n, a), Shifts(n, b))
  {
    hide Shift, Xor;
    if n > 0 {
      ShiftsLinear(n - 1, a, b);
      ShiftLinear(Shifts(n - 1, a), Shifts(n - 1, b));
    }
  }

  /** Only zero goes to zero. */
  lemma {:induction false} ShiftsZero(n: nat, a: bv16)
    ensures Shifts(n, a) == 0 <==> a == 0
  {
    hide Shift;
    ShiftZero();
    if n > 0 {
      ShiftsZero(n - 1, a);
      if Shifts(n, a) == 0 {
        ShiftInjective(Shifts(n - 1, a));
      }
    }
  }

  lemma ShiftsInjective(n: nat, a: bv16, b: bv16)
    ensures Shifts(n, a) == Shifts(n, b) <==> a == b
  {
    hide Shift, Shifts, Xor;
    ShiftsLinear(n, a, b);
    XorEqual(Shifts(n, a), Shifts(n, b));
    ShiftsZero(n, Xor(a, b));
    XorEqual(a, b);
  }

  lemma {:induction false} ShiftsAdd(m: nat, n: nat, a: bv16)
    ensures Shifts(m + n, a) == Shifts(m, Shifts(n, a))
  {
    hide Shift;
    if m > 0 {
      ShiftsAdd(m - 1, n, a);
    }
  }

  // ---- The register fed one bit at a time ----

  function Top(b: bool): bv16 {
    if b then 0x8000 else 0
  }

  function One(b: bool): bv16 {
    if b then 1 else 0
  }

  function HighBit(w: bv16): bool {
    w & 0x8000 != 0
  }

  function Up(w: bv16): bv16 {
    w << 1
  }

  /** The first `n` bits of a word, most significant first: the order of transmission. */
  function Bits(w: bv16, n: nat): (s: seq<bool>)
    ensures |s| == n
    decreases n
  {
    if n == 0 then [] else [HighBit(w)] + Bits(Up(w), n - 1)
  }

  /** What is left of a word after its first `n` bits have gone. */
  function Rest(w: bv16, n: nat): bv16
    decreases n
  {
    if n == 0 then w else Rest(Up(w), n - 1)
  }

  /** Feeding a bit adds it at the top of the register and shifts. */
  function Feed(c: bv16, s: seq<bool>): bv16 {
    if s == [] then c else Shift(Xor(Feed(c, s[..|s| - 1]), Top(s[|s| - 1])))
  }

  lemma {:induction false} FeedAppend(c: bv16, s: seq<bool>, t: seq<bool>)
    ensures Feed(c, s + t) == Feed(Feed(c, s), t)
  {
    hide Shift, Xor, Top;
    if t == [] {
      assert s + t == s;
    } else {
      var n := |t| - 1;
      assert (s + t)[..|s + t| - 1] == s + t[..n];
      FeedAppend(c, s, t[..n]);
    }
  }

  lemma FeedOne(c: bv16, b: bool)
    ensures Feed(c, [b]) == Shift(Xor(c, Top(b)))
  {
    hide Shift, Xor, Top;
    assert [b][..0] == [];
  }

  lemma TopOfHighBit(w: bv16)
    ensures Top(HighBit(w)) == w & 0x8000
  {
  }

  lemma ShiftSplits(c: bv16, w: bv16)
    ensures Shift(c ^ w) == Shift(c ^ (w & 0x8000)) ^ (w << 1)
  {
  }

  lemma ShiftSplit(c: bv16, w: bv16)
    ensures Shift(Xor(c, w)) == Xor(Shift(Xor(c, Top(HighBit(w)))), Up(w))
  {
    hide Shift, Top, HighBit;
    ShiftSplits(c, w);
    TopOfHighBit(w);
  }

  /** Adding a word to the register and shifting n times feeds its first n bits one by one. */
  lemma {:induction false} FeedBits(c: bv16, w: bv16, n: nat)
    ensures Shifts(n, Xor(c, w)) == Xor(Feed(c, Bits(w, n)), Rest(w, n))
    decreases n
  {
    hide Shift, Xor, Top, HighBit, Up;
    if n > 0 {
      var c' := Shift(Xor(c, Top(HighBit(w))));
      ShiftSplit(c, w);
      ShiftsAdd(n - 1, 1, Xor(c, w));
      assert Shifts(1, Xor(c, w)) == Shift(Shifts(0, Xor(c, w)));
      FeedBits(c', Up(w), n - 1);
      FeedOne(c, HighBit(w));
      FeedAppend(c, [HighBit(w)], Bits(Up(w), n - 1));
    }
  }

  /** An octet enters the register at the top. */
  function Aligned(v: bv8): bv16 {
    (v as bv16) << 8
  }

  function OctetBits(v: bv8): (s: seq<bool>)
    ensures |s| == 8
  {
    Bits(Aligned(v), 8)
  }

  /** One turn of the outer loop. */
  function Absorb(c: bv16, v: bv8): bv16 {
    Shifts(8, Xor(c, Aligned(v)))
  }

  lemma NothingLeft(v: bv8)
    ensures Rest(Aligned(v), 8) == 0
  {
    hide Aligned, Up;
    var w := Aligned(v);
    assert Rest(w, 8) == Rest(Up(Up(w)), 6) == Rest(Up(Up(Up(Up(w)))), 4);
    assert Rest(Up(Up(Up(Up(w)))), 4) == Up(Up(Up(Up(Up(Up(Up(Up(w))))))));
    EightUps(v);
  }

  lemma EightUps(v: bv8)
    ensures Up(Up(Up(Up(Up(Up(Up(Up(Aligned(v))))))))) == 0
  {
  }

  lemma AbsorbIsFeed(c: bv16, v: bv8)
    ensures Absorb(c, v) == Feed(c, OctetBits(v))
  {
    hide Shift, Shifts, Feed, Bits, Rest, Xor, Aligned;
    FeedBits(c, Aligned(v), 8);
    NothingLeft(v);
    XorZero(Feed(c, OctetBits(v)));
  }
}
