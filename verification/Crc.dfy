/** The packet error control field: CRC-16-CCITT, polynomial 0x1021, seed 0xFFFF, computed bit by
    bit on board (src/crc16.c) and once more on the ground (tests/integration/gsw/packets.py). */
module Crc {
  import opened Binary
  import opened Octets
  import opened Polynomial
  import opened ShiftRegister

  const SEED: bv16 := 0xFFFF

  /** The register after some octets. */
  function Register(c: bv16, data: seq<octet>): bv16 {
    if data == [] then c else Absorb(Register(c, data[..|data| - 1]), Word(data[|data| - 1]))
  }

  function Crc16(data: seq<octet>): u16 {
    Register(SEED, data) as int
  }

  method ComputeCrc16(data: seq<octet>) returns (r: u16)
    ensures r == Crc16(data)
  {
    hide Shift;
    var crc := SEED;
    for i := 0 to |data|
      invariant crc == Register(SEED, data[..i])
    {
      ghost var start := Xor(crc, Aligned(Word(data[i])));
      crc := crc ^ ((Word(data[i]) as bv16) << 8);
      for bit := 0 to 8
        invariant crc == Shifts(bit, start)
      {
        ShiftBranches(crc);
        if crc & 0x8000 != 0 {
          crc := (crc << 1) ^ 0x1021;
        } else {
          crc := crc << 1;
        }
      }
      assert data[..i + 1][..i] == data[..i];
    }
    assert data[..|data|] == data;
    r := crc as int;
  }

  // ---- The ground's loop: unbounded integers, masked to sixteen bits after every turn ----

  function Wide(c: bv16): bv32 {
    c as bv32
  }

  lemma GroundTest(c: bv16)
    ensures Wide(c) & 0x8000 != 0 <==> c & 0x8000 != 0
  {
  }

  lemma GroundTurns(c: bv16)
    ensures ((Wide(c) << 1) ^ 0x1021) & 0xFFFF == Wide((c << 1) ^ 0x1021)
    ensures (Wide(c) << 1) & 0xFFFF == Wide(c << 1)
  {
  }

  lemma GroundFeed(c: bv16, v: bv8)
    ensures Wide(c) ^ ((v as bv32) << 8) == Wide(Xor(c, Aligned(v)))
  {
  }

  lemma Widened(c: bv16)
    ensures (c as bv32) as int == c as int
  {
  }

  lemma Narrow(c: bv16)
    ensures Wide(c) as int == c as int
  {
    Widened(c);
  }

  method GroundBit(crc: bv32, ghost flight: bv16) returns (r: bv32)
    requires crc == Wide(flight)
    ensures r == Wide(Shift(flight))
  {
    hide Wide, Shift;
    GroundTest(flight);
    GroundTurns(flight);
    ShiftBranches(flight);
    if crc & 0x8000 != 0 {
      r := ((crc << 1) ^ 0x1021) & 0xFFFF;
    } else {
      r := (crc << 1) & 0xFFFF;
    }
  }

  method GroundOctet(crc: bv32, byte: octet, ghost flight: bv16) returns (r: bv32)
    requires crc == Wide(flight)
    ensures r == Wide(Absorb(flight, Word(byte)))
  {
    hide Wide, Shift, Xor, Aligned;
    ghost var start := Xor(flight, Aligned(Word(byte)));
    GroundFeed(flight, Word(byte));
    r := crc ^ ((Word(byte) as bv32) << 8);
    for bit := 0 to 8
      invariant r == Wide(Shifts(bit, start))
    {
      r := GroundBit(r, Shifts(bit, start));
    }
  }

  method GroundCrc16(data: seq<octet>) returns (r: u16)
    ensures r == Crc16(data)
  {
    hide Wide, Absorb;
    WideSeed();
    var crc: bv32 := 0xFFFF;
    for i := 0 to |data|
      invariant crc == Wide(Register(SEED, data[..i]))
    {
      crc := GroundOctet(crc, data[i], Register(SEED, data[..i]));
      assert data[..i + 1][..i] == data[..i];
    }
    assert data[..|data|] == data;
    Narrow(Register(SEED, data));
    assert crc as int == Crc16(data);
    r := crc as int;
  }

  lemma WideSeed()
    ensures Wide(SEED) == 0xFFFF
  {
  }

  // ---- Messages as bits ----

  function MessageBits(data: seq<octet>): (s: seq<bool>)
    ensures |s| == 8 * |data|
  {
    if data == [] then [] else MessageBits(data[..|data| - 1]) + OctetBits(Word(data[|data| - 1]))
  }

  lemma {:induction false} RegisterIsFeed(c: bv16, data: seq<octet>)
    ensures Register(c, data) == Feed(c, MessageBits(data))
  {
    hide Absorb, Feed, Shift, Xor;
    if data == [] {
      FeedNothing(c);
    } else {
      var n := |data| - 1;
      RegisterIsFeed(c, data[..n]);
      AbsorbIsFeed(Register(c, data[..n]), Word(data[n]));
      FeedAppend(c, MessageBits(data[..n]), OctetBits(Word(data[n])));
    }
  }

  lemma FeedNothing(c: bv16)
    ensures Feed(c, []) == c
  {
  }

  /** Between two messages of one length the registers differ by the error polynomial alone. */
  lemma DifferenceIsPoly(p: seq<octet>, q: seq<octet>)
    requires |p| == |q|
    ensures Register(SEED, p) == Register(SEED, q) <==> Poly(Flip(MessageBits(p), MessageBits(q))) == 0
  {
    hide Register, MessageBits, Feed, Poly, Flip, Xor, Shifts, Shift;
    var s, t := MessageBits(p), MessageBits(q);
    RegisterIsFeed(SEED, p);
    RegisterIsFeed(SEED, q);
    FeedLinear(SEED, SEED, s, t);
    XorEqual(SEED, SEED);
    XorEqual(Feed(SEED, s), Feed(SEED, t));
    FeedIsPoly(Flip(s, t));
    ShiftsZero(16, Poly(Flip(s, t)));
  }

  // ---- The field at the end of a packet ----

  function Low(v: bv8): bv16 {
    v as bv16
  }

  lemma NoCarry(w: bv16)
    requires w & 0x8000 == 0
    ensures Shift(w) == Up(w)
  {
    ShiftBranches(w);
  }

  lemma LowStaysLow(v: bv8)
    ensures Low(v) & 0x8000 == 0 && Up(Low(v)) & 0x8000 == 0 && Up(Up(Low(v))) & 0x8000 == 0
    ensures Up(Up(Up(Low(v)))) & 0x8000 == 0 && Up(Up(Up(Up(Low(v))))) & 0x8000 == 0
    ensures Up(Up(Up(Up(Up(Low(v)))))) & 0x8000 == 0 && Up(Up(Up(Up(Up(Up(Low(v))))))) & 0x8000 == 0
    ensures Up(Up(Up(Up(Up(Up(Up(Low(v)))))))) & 0x8000 == 0
    ensures Up(Up(Up(Up(Up(Up(Up(Up(Low(v))))))))) == Aligned(v)
  {
  }

  lemma LowShifted(v: bv8)
    ensures Shifts(8, Low(v)) == Aligned(v)
  {
    LowStaysLow(v);
    hide Shift, Up, Low, Aligned;
    var w1 := Up(Low(v));
    var w3 := Up(Up(w1));
    var w5 := Up(Up(w3));
    NoCarry(Low(v));
    NoCarry(w1);
    NoCarry(Up(w1));
    NoCarry(w3);
    NoCarry(Up(w3));
    NoCarry(w5);
    NoCarry(Up(w5));
    NoCarry(Up(Up(w5)));
    assert Shifts(1, Low(v)) == Shift(Low(v)) == w1;
    assert Shifts(2, Low(v)) == Up(w1);
    assert Shifts(3, Low(v)) == w3;
    assert Shifts(4, Low(v)) == Up(w3);
    assert Shifts(5, Low(v)) == w5;
    assert Shifts(6, Low(v)) == Up(w5);
    assert Shifts(7, Low(v)) == Up(Up(w5));
  }

  lemma AbsorbTwo(c: bv16, h: bv8, l: bv8)
    ensures Absorb(Absorb(c, h), l) == 0 <==> c == Xor(Aligned(h), Low(l))
  {
    hide Shift, Shifts, Xor, Aligned, Low;
    var d := Xor(c, Aligned(h));
    LowShifted(l);
    ShiftsLinear(8, d, Low(l));
    ShiftsAdd(8, 8, Xor(d, Low(l)));
    ShiftsZero(16, Xor(d, Low(l)));
    XorAssociates(c, Aligned(h), Low(l));
    XorEqual(c, Xor(Aligned(h), Low(l)));
  }

  lemma JoinedBytes(h: bv8, l: bv8)
    ensures (((h as bv16) << 8) ^ (l as bv16)) as int == 0x100 * (h as int) + (l as int)
  {
  }

  lemma JoinedOctets(h: octet, l: octet)
    ensures Xor(Aligned(Word(h)), Low(Word(l))) as int == 0x100 * (h as int) + l
  {
    hide Word;
    JoinedBytes(Word(h), Word(l));
    WordValue(h);
    WordValue(l);
  }

  lemma SameInteger(a: bv16, b: bv16)
    requires a as int == b as int
    ensures a == b
  {
    assert (a as int) as bv16 == a;
    assert (b as int) as bv16 == b;
  }

  /** The receiver's comparison is a division without remainder over the whole packet. */
  lemma FieldMatches(data: seq<octet>)
    requires |data| >= 2
    ensures Crc16(data[..|data| - 2]) == GetU16(data, |data| - 2) <==> Register(SEED, data) == 0
  {
    hide Absorb, Xor, Aligned, Low, Word;
    var n := |data| - 2;
    var h, l := data[n], data[n + 1];
    var c := Register(SEED, data[..n]);
    assert data[..n + 1][..n] == data[..n];
    assert Register(SEED, data) == Absorb(Absorb(c, Word(h)), Word(l));
    AbsorbTwo(c, Word(h), Word(l));
    JoinedOctets(h, l);
    CompareIntegers(c, Xor(Aligned(Word(h)), Low(Word(l))));
  }

  lemma CompareIntegers(a: bv16, b: bv16)
    ensures a as int == b as int <==> a == b
  {
    if a as int == b as int {
      SameInteger(a, b);
    }
  }

  // ---- The standard's check value ----

  /** Octets 0x31 to 0x39, the text "123456789". */
  const CHECK_TEXT: seq<octet> := [0x31, 0x32, 0x33, 0x34, 0x35, 0x36, 0x37, 0x38, 0x39]

  lemma DigitWords()
    ensures Word(0x31) == 0x31 && Word(0x32) == 0x32 && Word(0x33) == 0x33
    ensures Word(0x34) == 0x34 && Word(0x35) == 0x35 && Word(0x36) == 0x36
    ensures Word(0x37) == 0x37 && Word(0x38) == 0x38 && Word(0x39) == 0x39
  {
    assert Word(6) == 6 && Word(7) == 7;
    assert Word(0xC) == 0xC && Word(0xD) == 0xD && Word(0xE) == 0xE;
    assert Word(0x18) == 0x18 && Word(0x19) == 0x19 && Word(0x1A) == 0x1A && Word(0x1B) == 0x1B && Word(0x1C) == 0x1C;
  }

  function EightShifts(c: bv16): bv16 {
    Shift(Shift(Shift(Shift(Shift(Shift(Shift(Shift(c))))))))
  }

  lemma AbsorbEvaluated(c: bv16, v: bv8)
    ensures Absorb(c, v) == EightShifts(Xor(c, Aligned(v)))
  {
    hide Shift, Xor, Aligned;
    var d := Xor(c, Aligned(v));
    assert Shifts(1, d) == Shift(Shifts(0, d));
    assert Shifts(3, d) == Shift(Shifts(2, d)) == Shift(Shift(Shifts(1, d)));
    assert Shifts(5, d) == Shift(Shifts(4, d)) == Shift(Shift(Shifts(3, d)));
    assert Shifts(7, d) == Shift(Shifts(6, d)) == Shift(Shift(Shifts(5, d)));
  }

  lemma AbsorbDigits()
    ensures Absorb(0xFFFF, 0x31) == 0xC782
    ensures Absorb(0xC782, 0x32) == 0x3DBA
    ensures Absorb(0x3DBA, 0x33) == 0x5BCE
    ensures Absorb(0x5BCE, 0x34) == 0x5349
    ensures Absorb(0x5349, 0x35) == 0x4560
    ensures Absorb(0x4560, 0x36) == 0x2EF4
    ensures Absorb(0x2EF4, 0x37) == 0x7718
    ensures Absorb(0x7718, 0x38) == 0xA12B
    ensures Absorb(0xA12B, 0x39) == 0x29B1
  {
    hide Absorb;
    AbsorbEvaluated(0xFFFF, 0x31);
    AbsorbEvaluated(0xC782, 0x32);
    AbsorbEvaluated(0x3DBA, 0x33);
    AbsorbEvaluated(0x5BCE, 0x34);
    AbsorbEvaluated(0x5349, 0x35);
    AbsorbEvaluated(0x4560, 0x36);
    AbsorbEvaluated(0x2EF4, 0x37);
    AbsorbEvaluated(0x7718, 0x38);
    AbsorbEvaluated(0xA12B, 0x39);
  }

  lemma RegisterStep(data: seq<octet>, i: nat)
    requires i < |data|
    ensures Register(SEED, data[..i + 1]) == Absorb(Register(SEED, data[..i]), Word(data[i]))
  {
    hide Absorb, Word;
    assert data[..i + 1][..i] == data[..i];
  }

  /** Annex B of ECSS-E-ST-70-41C: the checksum of "123456789" is 0x29B1. */
  lemma CheckValue()
    ensures Crc16(CHECK_TEXT) == 0x29B1
  {
    hide Absorb, Word;
    var t := CHECK_TEXT;
    DigitWords();
    AbsorbDigits();
    assert |t| == 9;
    assert t[..0] == [];
    assert t[..|t|] == t;
    assert Register(SEED, t[..0]) == SEED;
    hide Register;
    RegisterStep(t, 0);
    RegisterStep(t, 1);
    RegisterStep(t, 2);
    RegisterStep(t, 3);
    RegisterStep(t, 4);
    RegisterStep(t, 5);
    RegisterStep(t, 6);
    RegisterStep(t, 7);
    RegisterStep(t, 8);
  }
}
