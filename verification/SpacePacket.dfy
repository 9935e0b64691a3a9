/** The space packet primary header: section 4.1.3 of CCSDS 133.0-B-2 (src/ccsds.c). */
module SpacePacket {
  import opened Arithmetic
  import opened Octets
  import opened Status

  const HEADER_LEN: nat := 6
  const CRC_LEN: nat := 2
  const UNSEGMENTED: octet := 3
  const APID: u16 := 0x00C
  const PUS_VERSION_C: octet := 2

  datatype PrimaryHeader = PrimaryHeader(
    version: octet,
    packetType: octet,
    secHdrFlag: octet,
    apid: u16,
    seqFlags: octet,
    seqCount: u16,
    dataLength: u16)
  {
    /** Every field fits the bits the header has for it. */
    predicate Fits() {
      && version < 8 && packetType < 2 && secHdrFlag < 2 && apid < 0x800
      && seqFlags < 4 && seqCount < 0x4000
    }

    /** The header as a receiver will see it: excess high bits are cut off. */
    function Masked(): (h: PrimaryHeader)
      ensures h.Fits()
      ensures Fits() ==> h == this
    {
      PrimaryHeader(version % 8, packetType % 2, secHdrFlag % 2, apid % 0x800,
                    seqFlags % 4, seqCount % 0x4000, dataLength)
    }

    function TotalLength(): nat {
      HEADER_LEN + dataLength + 1
    }
  }

  function FirstWord(h: PrimaryHeader): u16 {
    var m := h.Masked();
    (m.version as int) * 0x2000 + (m.packetType as int) * 0x1000 + (m.secHdrFlag as int) * 0x800 + m.apid
  }

  function SecondWord(h: PrimaryHeader): u16 {
    var m := h.Masked();
    (m.seqFlags as int) * 0x4000 + m.seqCount
  }

  function Pack(h: PrimaryHeader): (s: seq<octet>)
    ensures |s| == HEADER_LEN
  {
    PutU16(FirstWord(h)) + PutU16(SecondWord(h)) + PutU16(h.dataLength)
  }

  function Unpack(buf: seq<octet>): (h: PrimaryHeader)
    requires |buf| >= HEADER_LEN
    ensures h.Fits()
  {
    var w0 := GetU16(buf, 0);
    var w1 := GetU16(buf, 2);
    PrimaryHeader(w0 / 0x2000, w0 / 0x1000 % 2, w0 / 0x800 % 2, w0 % 0x800,
                  w1 / 0x4000, w1 % 0x4000, GetU16(buf, 4))
  }

  /** `ccsds_pack_primary`: writes the header in place, or reports a short buffer. */
  method PackInto(h: PrimaryHeader, buf: array<octet>) returns (st: Status)
    modifies buf
    ensures st == if buf.Length < HEADER_LEN then BufferTooSmall else Ok
    ensures st == Ok ==> buf[..HEADER_LEN] == Pack(h) && buf[HEADER_LEN..] == old(buf[HEADER_LEN..])
    ensures st != Ok ==> buf[..] == old(buf[..])
  {
    if buf.Length < HEADER_LEN {
      return BufferTooSmall;
    }
    var w0: int := FirstWord(h);
    var w1: int := SecondWord(h);
    buf[0], buf[1] := w0 / 0x100, w0 % 0x100;
    buf[2], buf[3] := w1 / 0x100, w1 % 0x100;
    buf[4], buf[5] := h.dataLength / 0x100, h.dataLength % 0x100;
    st := Ok;
  }

  lemma FieldsOfSum(v: int, t: int, f: int, a: int)
    requires 0 <= v && 0 <= t < 2 && 0 <= f < 2 && 0 <= a < 0x800
    ensures var w := v * 0x2000 + t * 0x1000 + f * 0x800 + a;
      w / 0x2000 == v && w / 0x1000 % 2 == t && w / 0x800 % 2 == f && w % 0x800 == a
  {
    Euclid(v * 4 + t * 2 + f, a, 0x800);
    Euclid(v * 2 + t, f * 0x800 + a, 0x1000);
    Euclid(v, t * 0x1000 + f * 0x800 + a, 0x2000);
    Euclid(v * 2 + t, f, 2);
    Euclid(v, t, 2);
  }

  lemma FirstWordFields(h: PrimaryHeader)
    ensures var w, m := FirstWord(h), h.Masked();
      w / 0x2000 == m.version && w / 0x1000 % 2 == m.packetType && w / 0x800 % 2 == m.secHdrFlag && w % 0x800 == m.apid
  {
    var m := h.Masked();
    FieldsOfSum(m.version, m.packetType, m.secHdrFlag, m.apid);
  }

  /** What is packed is read back, whatever follows it. */
  lemma UnpackPack(h: PrimaryHeader, rest: seq<octet>)
    ensures Unpack(Pack(h) + rest) == h.Masked()
  {
    var a, b, c := PutU16(FirstWord(h)), PutU16(SecondWord(h)), PutU16(h.dataLength);
    U16RoundTrip([], FirstWord(h), b + c + rest);
    U16RoundTrip(a, SecondWord(h), c + rest);
    U16RoundTrip(a + b, h.dataLength, rest);
    var s := Pack(h) + rest;
    assert s == [] + a + (b + c + rest) == a + b + (c + rest) == (a + b) + c + rest;
    FirstWordFields(h);
  }

  /** What is read packs back to the same six octets. */
  lemma PackUnpack(buf: seq<octet>)
    requires |buf| >= HEADER_LEN
    ensures Pack(Unpack(buf)) == buf[..HEADER_LEN]
  {
    var h := Unpack(buf);
    FirstWordOfUnpacked(buf);
    U16Canonical(buf, 0);
    U16Canonical(buf, 2);
    U16Canonical(buf, 4);
    assert Pack(h) == buf[0..2] + buf[2..4] + buf[4..6];
  }

  lemma FirstWordOfUnpacked(buf: seq<octet>)
    requires |buf| >= HEADER_LEN
    ensures FirstWord(Unpack(buf)) == GetU16(buf, 0) && SecondWord(Unpack(buf)) == GetU16(buf, 2)
  {
    var w: int := GetU16(buf, 0);
    assert w / 0x1000 / 2 == w / 0x2000;
    assert w / 0x800 / 2 == w / 0x1000;
  }
}
