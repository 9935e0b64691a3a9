/** What the acceptance checks catch when bits of an accepted telecommand are flipped on the link. */
module LinkErrors {
  import opened Binary
  import opened Crc
  import opened Divisors
  import opened ErrorDetection
  import opened Octets
  import opened Polynomial
  import opened ShiftRegister
  import opened Status
  import opened Telecommand

  /** The damage is recognised as damage: no header field was believed. */
  predicate Caught(buf: seq<octet>) {
    Parse(buf) in {Refused(BadLength), Refused(BadCrc)}
  }

  function Error(p: seq<octet>, q: seq<octet>): (e: seq<bool>)
    requires |p| == |q|
    ensures |e| == 8 * |p|
  {
    Flip(MessageBits(p), MessageBits(q))
  }

  /** Damage goes unnoticed exactly when it spares the length field and P divides it. */
  lemma CaughtExactly(p: seq<octet>, q: seq<octet>)
    requires Parse(p).Parsed? && |p| == |q|
    ensures Caught(q) <==> GetU16(q, 4) != GetU16(p, 4) || Poly(Error(p, q)) != 0
  {
    hide Register, Crc16, Poly, Flip, MessageBits;
    FieldMatches(p);
    FieldMatches(q);
    DifferenceIsPoly(p, q);
  }

  /** Any burst of at most sixteen bits, in a packet of any length. */
  lemma BurstCaught(p: seq<octet>, q: seq<octet>)
    requires Parse(p).Parsed? && |p| == |q| && IsBurst(Error(p, q))
    ensures Caught(q)
  {
    hide Poly, IsBurst, Error, Caught;
    CaughtExactly(p, q);
    BurstRemainder(Error(p, q));
  }

  /** Any odd number of flipped bits, in a packet of any length. */
  lemma OddCaught(p: seq<octet>, q: seq<octet>)
    requires Parse(p).Parsed? && |p| == |q| && Weight(Error(p, q)) % 2 == 1
    ensures Caught(q)
  {
    hide Poly, Error, Caught;
    CaughtExactly(p, q);
    OddRemainder(Error(p, q));
  }

  // ---- Flipped bits and changed octets ----

  lemma {:induction false} MessageBitsAt(data: seq<octet>, k: nat)
    requires k < |data|
    ensures MessageBits(data)[8 * k..8 * k + 8] == OctetBits(Word(data[k]))
  {
    hide OctetBits, Word;
    var n := |data| - 1;
    if k < n {
      MessageBitsAt(data[..n], k);
      assert MessageBits(data)[8 * k..8 * k + 8] == MessageBits(data[..n])[8 * k..8 * k + 8];
    }
  }

  lemma AlignedInjective(v: bv8, w: bv8)
    requires Aligned(v) == Aligned(w)
    ensures v == w
  {
  }

  lemma OctetBitsInjective(a: octet, b: octet)
    requires OctetBits(Word(a)) == OctetBits(Word(b))
    ensures a == b
  {
    hide Shifts, Xor, Aligned, Feed, OctetBits, Word;
    var v, w := Word(a), Word(b);
    AbsorbIsFeed(0, v);
    AbsorbIsFeed(0, w);
    XorZero(Aligned(v));
    XorZero(Aligned(w));
    ShiftsInjective(8, Aligned(v), Aligned(w));
    AlignedInjective(v, w);
    WordValue(a);
    WordValue(b);
  }

  /** An octet changed exactly when one of its eight bits was flipped. */
  lemma OctetChanged(p: seq<octet>, q: seq<octet>, k: nat)
    requires |p| == |q| && k < |p|
    ensures p[k] != q[k] <==> exists i :: 8 * k <= i < 8 * k + 8 && Error(p, q)[i]
  {
    hide OctetBits, Word;
    MessageBitsAt(p, k);
    MessageBitsAt(q, k);
    var s, t := MessageBits(p), MessageBits(q);
    if forall i :: 8 * k <= i < 8 * k + 8 ==> !Error(p, q)[i] {
      assert forall i :: 8 * k <= i < 8 * k + 8 ==> s[i] == t[i] by {
        forall i | 8 * k <= i < 8 * k + 8
          ensures s[i] == t[i]
        {
          assert !Error(p, q)[i];
        }
      }
      assert s[8 * k..8 * k + 8] == t[8 * k..8 * k + 8];
      OctetBitsInjective(p[k], q[k]);
    } else {
      var i :| 8 * k <= i < 8 * k + 8 && Error(p, q)[i];
      assert s[8 * k..8 * k + 8][i - 8 * k] == s[i] && t[8 * k..8 * k + 8][i - 8 * k] == t[i];
    }
  }

  /** The places of the packet data length field, in bits. */
  predicate InLengthField(i: nat) {
    32 <= i < 48
  }

  lemma LengthFieldChanged(p: seq<octet>, q: seq<octet>, i: nat, j: nat)
    requires |p| == |q| && |p| >= 6 && IsPair(Error(p, q), i, j)
    ensures GetU16(p, 4) != GetU16(q, 4) <==> InLengthField(i) || InLengthField(j)
  {
    hide Error;
    OctetChanged(p, q, 4);
    OctetChanged(p, q, 5);
    var e := Error(p, q);
    assert e[i] && e[j];
  }

  /** Two flipped bits, in a packet of any length: they are caught unless both lie outside the
      length field at a distance that is a multiple of 32767. */
  lemma PairCaughtExactly(p: seq<octet>, q: seq<octet>, i: nat, j: nat)
    requires Parse(p).Parsed? && |p| == |q| && IsPair(Error(p, q), i, j)
    ensures Caught(q) <==> InLengthField(i) || InLengthField(j) || (j - i) % ORDER != 0
  {
    hide Poly, Error, Caught, IsPair;
    CaughtExactly(p, q);
    LengthFieldChanged(p, q, i, j);
    PairRemainder(Error(p, q), i, j);
  }

  /** Within the unit's own packet size, and up to 4095 octets, every pair is caught. */
  lemma PairCaught(p: seq<octet>, q: seq<octet>, i: nat, j: nat)
    requires Parse(p).Parsed? && |p| == |q| && IsPair(Error(p, q), i, j)
    requires |p| <= 4095
    ensures Caught(q)
  {
    PairCaughtExactly(p, q, i, j);
    hide Caught;
    assert 0 < j - i < ORDER;
  }
}
