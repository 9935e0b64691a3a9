/** Octets and big-endian fields (include/pus/pus_bytes.h). */
module Octets {
  type octet = x: int | 0 <= x < 0x100
  type u16 = x: int | 0 <= x < 0x1_0000
  type u32 = x: int | 0 <= x < 0x1_0000_0000
  type i16 = x: int | -0x8000 <= x < 0x8000

  datatype Option<T> = None | Some(value: T)

  function PutU16(v: u16): (s: seq<octet>)
    ensures |s| == 2
  {
    [v / 0x100, v % 0x100]
  }

  function PutU32(v: u32): (s: seq<octet>)
    ensures |s| == 4
  {
    PutU16(v / 0x1_0000) + PutU16(v % 0x1_0000)
  }

  function GetU16(s: seq<octet>, at: nat): u16
    requires at + 2 <= |s|
  {
    (s[at] as int) * 0x100 + s[at + 1]
  }

  function GetU32(s: seq<octet>, at: nat): u32
    requires at + 4 <= |s|
  {
    (GetU16(s, at) as int) * 0x1_0000 + GetU16(s, at + 2)
  }

  /** The C conversion from int16_t to uint16_t. */
  function Unsigned(v: i16): u16 {
    if v < 0 then v + 0x1_0000 else v
  }

  /** The C conversion from uint16_t to int16_t. */
  function Signed(v: u16): i16 {
    if v < 0x8000 then v else v - 0x1_0000
  }

  function Bit(b: bool): octet {
    if b then 1 else 0
  }

  /** A field written at any place inside a string reads back. */
  lemma U16RoundTrip(before: seq<octet>, v: u16, after: seq<octet>)
    ensures GetU16(before + PutU16(v) + after, |before|) == v
  {
    var s := before + PutU16(v) + after;
    assert s[|before|] == v / 0x100 && s[|before| + 1] == v % 0x100;
  }

  lemma U32RoundTrip(before: seq<octet>, v: u32, after: seq<octet>)
    ensures GetU32(before + PutU32(v) + after, |before|) == v
  {
    var n: int := v;
    var hi, lo := PutU16(n / 0x1_0000), PutU16(n % 0x1_0000);
    U16RoundTrip(before, n / 0x1_0000, lo + after);
    U16RoundTrip(before + hi, n % 0x1_0000, after);
    assert before + PutU32(v) + after == before + hi + (lo + after) == before + hi + lo + after;
  }

  /** Writing back a field that was read restores the octets. */
  lemma U16Canonical(s: seq<octet>, at: nat)
    requires at + 2 <= |s|
    ensures PutU16(GetU16(s, at)) == s[at..at + 2]
  {
  }

  lemma U32Canonical(s: seq<octet>, at: nat)
    requires at + 4 <= |s|
    ensures PutU32(GetU32(s, at)) == s[at..at + 4]
  {
    var hi, lo := GetU16(s, at), GetU16(s, at + 2);
    assert GetU32(s, at) / 0x1_0000 == hi && GetU32(s, at) % 0x1_0000 == lo;
    U16Canonical(s, at);
    U16Canonical(s, at + 2);
  }

  lemma SignedRoundTrip(v: i16, w: u16)
    ensures Signed(Unsigned(v)) == v && Unsigned(Signed(w)) == w
  {
  }
}
