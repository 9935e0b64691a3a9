/** The powers of x modulo P(x) = x^16 + x^12 + x^5 + 1: x^n = 1 exactly when 32767 divides n. */
module Order {
  import opened Divisors
  import opened ShiftRegister

  function Power(n: nat): bv16 {
    Shifts(n, 1)
  }

  function Pick(b: bool, a: bv16): bv16 {
    if b then a else 0
  }

  /** Horner's rule: acc * x^n plus a times the first n bits of w. */
  function Horner(a: bv16, acc: bv16, w: bv16, n: nat): bv16
    decreases n
  {
    if n == 0 then acc else Horner(a, Xor(Shift(acc), Pick(HighBit(w), a)), Up(w), n - 1)
  }

  /** The product of two polynomials modulo P. */
  function Times(a: bv16, b: bv16): bv16 {
    Horner(a, 0, b, 16)
  }

  lemma PickShift(b: bool, a: bv16)
    ensures Shift(Pick(b, a)) == Pick(b, Shift(a))
  {
    ShiftZero();
    hide Shift;
  }

  lemma {:induction false} HornerShift(a: bv16, acc: bv16, w: bv16, n: nat)
    ensures Horner(Shift(a), Shift(acc), w, n) == Shift(Horner(a, acc, w, n))
    decreases n
  {
    hide Shift, Xor, Pick, HighBit, Up;
    if n > 0 {
      PickShift(HighBit(w), a);
      ShiftLinear(Shift(acc), Pick(HighBit(w), a));
      HornerShift(a, Xor(Shift(acc), Pick(HighBit(w), a)), Up(w), n - 1);
    }
  }

  lemma {:induction false} TimesPower(m: nat, a: bv16, b: bv16)
    ensures Times(Shifts(m, a), b) == Shifts(m, Times(a, b))
  {
    hide Shift, Horner;
    if m > 0 {
      TimesPower(m - 1, a, b);
      ShiftZero();
      HornerShift(Shifts(m - 1, a), 0, b, 16);
    }
  }

  lemma TopShifted(b: bool)
    ensures Shift(Top(b)) == Pick(b, 0x1021)
  {
    ShiftZero();
    assert Shift(0x8000) == 0x1021;
    hide Shift;
  }

  /** Feeding a word's bits multiplies it by x^16 = x^12 + x^5 + 1. */
  lemma {:induction false} FeedIsHorner(c: bv16, w: bv16, n: nat)
    ensures Feed(c, Bits(w, n)) == Horner(0x1021, c, w, n)
    decreases n
  {
    hide Shift, Xor, Pick, Top, HighBit, Up;
    if n > 0 {
      var b := HighBit(w);
      FeedAppend(c, [b], Bits(Up(w), n - 1));
      FeedOne(c, b);
      ShiftLinear(c, Top(b));
      TopShifted(b);
      FeedIsHorner(Shift(Xor(c, Top(b))), Up(w), n - 1);
    }
  }

  lemma AllOut(w: bv16)
    ensures Rest(w, 16) == 0
  {
    var v := Up(Up(Up(Up(w))));
    assert Rest(w, 16) == Rest(Up(Up(w)), 14) == Rest(v, 12);
    var u := Up(Up(Up(Up(v))));
    assert Rest(v, 12) == Rest(Up(Up(v)), 10) == Rest(u, 8);
    var t := Up(Up(Up(Up(u))));
    assert Rest(u, 8) == Rest(Up(Up(u)), 6) == Rest(t, 4);
    assert Rest(t, 4) == Rest(Up(Up(t)), 2) == Up(Up(Up(Up(t))));
  }

  lemma TimesOne(b: bv16)
    ensures Times(1, b) == b
  {
    hide Shift, Shifts, Horner, Feed, Bits, Rest, Xor;
    FeedBits(0, b, 16);
    AllOut(b);
    XorZero(b);
    XorZero(Feed(0, Bits(b, 16)));
    FeedIsHorner(0, b, 16);
    PowerSixteen();
    TimesPower(16, 1, b);
    ShiftsInjective(16, b, Times(1, b));
  }

  lemma PowerSixteen()
    ensures Shifts(16, 1) == 0x1021
  {
    assert Shifts(4, 1) == 0x10 && Shifts(4, 0x10) == 0x100;
    assert Shifts(4, 0x100) == 0x1000 && Shifts(4, 0x1000) == 0x1021;
    ShiftsAdd(4, 4, 1);
    ShiftsAdd(4, 8, 1);
    ShiftsAdd(4, 12, 1);
  }

  /** x^m * x^n = x^(m + n). */
  lemma PowersMultiply(m: nat, n: nat)
    ensures Times(Power(m), Power(n)) == Power(m + n)
  {
    hide Shift, Times, Shifts;
    TimesPower(m, 1, Power(n));
    TimesOne(Power(n));
    ShiftsAdd(m, n, 1);
  }

  // ---- Selected powers, by repeated squaring ----

  function Turn(a: bv16, acc: bv16, w: bv16): bv16 {
    Xor(Shift(acc), Pick(HighBit(w), a))
  }

  function FourTurns(a: bv16, acc: bv16, w: bv16): bv16 {
    Turn(a, Turn(a, Turn(a, Turn(a, acc, w), Up(w)), Up(Up(w))), Up(Up(Up(w))))
  }

  function FourUp(w: bv16): bv16 {
    Up(Up(Up(Up(w))))
  }

  function Product(a: bv16, b: bv16): bv16 {
    var c := FourTurns(a, 0, b);
    var d := FourTurns(a, c, FourUp(b));
    var e := FourTurns(a, d, FourUp(FourUp(b)));
    FourTurns(a, e, FourUp(FourUp(FourUp(b))))
  }

  lemma HornerFour(a: bv16, acc: bv16, w: bv16, n: nat)
    ensures Horner(a, acc, w, n + 4) == Horner(a, FourTurns(a, acc, w), FourUp(w), n)
  {
    hide Shift, Xor, Pick, HighBit, Up;
    var acc1 := Turn(a, acc, w);
    var acc2 := Turn(a, acc1, Up(w));
    var acc3 := Turn(a, acc2, Up(Up(w)));
    assert Horner(a, acc, w, n + 4) == Horner(a, acc1, Up(w), n + 3) == Horner(a, acc2, Up(Up(w)), n + 2);
    assert Horner(a, acc2, Up(Up(w)), n + 2) == Horner(a, acc3, Up(Up(Up(w))), n + 1);
  }

  lemma TimesUnrolled(a: bv16, b: bv16)
    ensures Times(a, b) == Product(a, b)
  {
    hide FourTurns, FourUp;
    var c := FourTurns(a, 0, b);
    var d := FourTurns(a, c, FourUp(b));
    var e := FourTurns(a, d, FourUp(FourUp(b)));
    HornerFour(a, 0, b, 12);
    HornerFour(a, c, FourUp(b), 8);
    HornerFour(a, d, FourUp(FourUp(b)), 4);
    HornerFour(a, e, FourUp(FourUp(FourUp(b))), 0);
  }

  lemma Double(k: nat, w: bv16)
    requires Power(k) == w
    ensures Power(2 * k) == Product(w, w) && Power(2 * k + 1) == Shift(Product(w, w))
  {
    hide Shift, Product, Times;
    PowersMultiply(k, k);
    TimesUnrolled(w, w);
    assert Power(2 * k + 1) == Shift(Shifts(2 * k, 1));
  }

  lemma PowerOne()
    ensures Power(1) == 2
  {
    assert Shifts(1, 1) == Shift(Shifts(0, 1));
  }

  lemma Power16()
    ensures Power(16) == 0x1021
  {
    hide Power;
    PowerOne();
    Double(1, 0x0002); Double(2, 0x0004); Double(4, 0x0010); Double(8, 0x0100);
  }

  lemma Power256()
    ensures Power(256) == 0x8E29
  {
    hide Power;
    Power16();
    Double(16, 0x1021); Double(32, 0x3730); Double(64, 0xB861); Double(128, 0xAEFC);
  }

  lemma Power4096()
    ensures Power(4096) == 0xAA9E
  {
    hide Power;
    Power256();
    Double(256, 0x8E29); Double(512, 0x13FC); Double(1024, 0x36C4); Double(2048, 0xFD50);
  }

  lemma Power32768()
    ensures Power(32768) == 0x0002
  {
    hide Power;
    Power4096();
    Double(4096, 0xAA9E); Double(8192, 0x881C); Double(16384, 0x4458);
  }

  lemma PowerOrder()
    ensures Power(ORDER) == 1
  {
    hide Power;
    PowerOne();
    Power32768();
    ShiftBack(ORDER);
  }

  lemma ShiftBack(n: nat)
    requires Power(n + 1) == Power(1)
    ensures Power(n) == 1
  {
    hide Shift;
    ShiftsAdd(1, n, 1);
    ShiftsInjective(1, Shifts(n, 1), 1);
  }

  lemma Power18()
    ensures Power(18) == 0x4084
  {
    hide Power;
    PowerOne();
    Double(1, 0x0002); Double(2, 0x0004); Double(4, 0x0010); Double(9, 0x0200);
  }

  lemma Power292()
    ensures Power(292) == 0x1396
  {
    hide Power;
    Power18();
    Double(18, 0x4084); Double(36, 0x4363); Double(73, 0x8FA6); Double(146, 0x4388);
  }

  /** 32767 = 7 * 4681. */
  lemma Power4681()
    ensures Power(4681) == 0x2C42
  {
    hide Power;
    Power292();
    Double(292, 0x1396); Double(585, 0x4500); Double(1170, 0x0163); Double(2340, 0x0424);
  }

  lemma Power264()
    ensures Power(264) == 0x5946
  {
    hide Power;
    Power16();
    Double(16, 0x1021); Double(33, 0x6E60); Double(66, 0xC1C6); Double(132, 0x4E8A);
  }

  /** 32767 = 31 * 1057. */
  lemma Power1057()
    ensures Power(1057) == 0xF2AF
  {
    hide Power;
    Power264();
    Double(264, 0x5946); Double(528, 0x78B3);
  }

  lemma Power27()
    ensures Power(27) == 0x89A9
  {
    hide Power;
    PowerOne();
    Double(1, 0x0002); Double(3, 0x0008); Double(6, 0x0040); Double(13, 0x2000);
  }

  /** 32767 = 151 * 217. */
  lemma Power217()
    ensures Power(217) == 0x48E3
  {
    hide Power;
    Power27();
    Double(27, 0x89A9); Double(54, 0x1168); Double(108, 0x3750);
  }

  // ---- The order of x ----

  lemma {:induction false} PowerReduced(q: nat, d: nat, r: nat)
    requires Power(d) == 1
    ensures Power(q * d + r) == Power(r)
  {
    hide Shifts;
    if q > 0 {
      assert q * d + r == ((q - 1) * d + r) + d;
      ShiftsAdd((q - 1) * d + r, d, 1);
      PowerReduced(q - 1, d, r);
    }
  }

  lemma {:induction false} LeastPeriod(n: nat) returns (p: nat)
    requires n > 0 && Power(n) == 1
    ensures 0 < p <= n && Power(p) == 1
    ensures forall q :: 0 < q < p ==> Power(q) != 1
  {
    hide Power;
    if q: nat :| 0 < q < n && Power(q) == 1 {
      p := LeastPeriod(q);
    } else {
      p := n;
    }
  }

  lemma PowerZero()
    ensures Power(0) == 1
  {
  }

  lemma NoSmallerPeriod(p: nat, m: nat)
    requires 0 < p < ORDER && p * m == ORDER
    ensures Power(p) != 1
  {
    hide Power;
    if Power(p) == 1 {
      var n, q := ProperDivisor(p, m);
      PowerReduced(q, p, 0);
      PowerZero();
      Power4681();
      Power1057();
      Power217();
      assert false;
    }
  }

  /** The order of x: a power of x is 1 exactly when the exponent is a multiple of 32767. */
  lemma OrderExact(n: nat)
    ensures Power(n) == 1 <==> n % ORDER == 0
  {
    hide Power;
    PowerOrder();
    PowerZero();
    var r := n % ORDER;
    PowerReduced(n / ORDER, ORDER, r);
    if r > 0 && Power(r) == 1 {
      var p := LeastPeriod(r);
      PowerReduced(ORDER / p, p, ORDER % p);
      assert ORDER == ORDER / p * p + ORDER % p;
      NoSmallerPeriod(p, ORDER / p);
    }
  }
}
