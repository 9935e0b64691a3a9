/** The telemetry packet (src/pus_tm.c:64-118) and the ground's decoder of it
    (tests/integration/gsw/packets.py:124-156). */
module Telemetry {
  import opened Crc
  import opened Octets
  import opened SpacePacket

  const TM_MIN_LEN: nat := 21
  const MAX_PACKET: nat := 256
  const DESTINATION: u16 := 1

  /** The on-board time: whole seconds and units of 1/65536 s (section 3.2 of CCSDS 301.0-B-4). */
  datatype Cuc = Cuc(coarse: u32, fine: u16)

  /** What varies from one telemetry packet to the next. */
  datatype TmPacket = TmPacket(
    seqCount: u16,
    service: octet,
    subtype: octet,
    msgCounter: u16,
    time: Cuc,
    data: seq<octet>)
  {
    /** The packet can be built at all: its length and count fit their fields. */
    predicate Valid() {
      seqCount < 0x4000 && TM_MIN_LEN + |data| <= MAX_PACKET
    }

    function Header(): PrimaryHeader
      requires Valid()
    {
      PrimaryHeader(0, 0, 1, APID, UNSEGMENTED, seqCount, TM_MIN_LEN + |data| - HEADER_LEN - 1)
    }

    function SecondaryHeader(): (s: seq<octet>)
      ensures |s| == 13
    {
      [0x20, service, subtype] + PutU16(msgCounter) + PutU16(DESTINATION) + PutU32(time.coarse) + PutU16(time.fine)
    }

    function Protected(): (s: seq<octet>)
      requires Valid()
      ensures |s| == 19 + |data|
    {
      Pack(Header()) + SecondaryHeader() + data
    }

    function Octets(): (s: seq<octet>)
      requires Valid()
      ensures |s| == TM_MIN_LEN + |data|
    {
      Protected() + PutU16(Crc16(Protected()))
    }
  }

  datatype TmError = TooShort | PacketTypeBitSet | LengthMismatch | CrcMismatch | UnexpectedVersion

  /** The ground's decoded telemetry packet. */
  datatype GroundTm = GroundTm(apid: u16, packet: TmPacket, destination: u16, raw: seq<octet>)

  datatype TmResult = Decoded(tm: GroundTm) | Invalid(error: TmError)

  /** `parse_tm`. */
  function ParseTm(raw: seq<octet>): TmResult {
    if |raw| < TM_MIN_LEN then Invalid(TooShort) else
    var word0 := GetU16(raw, 0);
    var word1 := GetU16(raw, 2);
    var lengthField := GetU16(raw, 4);
    if word0 / 0x1000 % 2 != 0 then Invalid(PacketTypeBitSet) else
    if HEADER_LEN + lengthField + 1 != |raw| then Invalid(LengthMismatch) else
    if Crc16(raw[..|raw| - CRC_LEN]) != GetU16(raw, |raw| - CRC_LEN) then Invalid(CrcMismatch) else
    if raw[6] / 0x10 != PUS_VERSION_C then Invalid(UnexpectedVersion) else
    Decoded(GroundTm(
      word0 % 0x800,
      TmPacket(word1 % 0x4000, raw[7], raw[8], GetU16(raw, 9),
               Cuc(GetU32(raw, 13), GetU16(raw, 17)), raw[19..|raw| - CRC_LEN]),
      GetU16(raw, 11),
      raw))
  }

  lemma SecondaryParts(p: TmPacket, before: seq<octet>, after: seq<octet>)
    ensures var s := before + p.SecondaryHeader() + after;
      var n := |before|;
      && s[n] == 0x20 && s[n + 1] == p.service && s[n + 2] == p.subtype
      && GetU16(s, n + 3) == p.msgCounter && GetU16(s, n + 5) == DESTINATION
      && GetU32(s, n + 7) == p.time.coarse && GetU16(s, n + 11) == p.time.fine
  {
    var s := before + p.SecondaryHeader() + after;
    var n := |before|;
    var first := before + [0x20, p.service, p.subtype];
    var counter, dest := PutU16(p.msgCounter), PutU16(DESTINATION);
    var coarse, fine := PutU32(p.time.coarse), PutU16(p.time.fine);
    assert s == first + counter + (dest + coarse + fine + after);
    U16RoundTrip(first, p.msgCounter, dest + coarse + fine + after);
    assert s == (first + counter) + dest + (coarse + fine + after);
    U16RoundTrip(first + counter, DESTINATION, coarse + fine + after);
    assert s == (first + counter + dest) + coarse + (fine + after);
    U32RoundTrip(first + counter + dest, p.time.coarse, fine + after);
    assert s == (first + counter + dest + coarse) + fine + after;
    U16RoundTrip(first + counter + dest + coarse, p.time.fine, after);
    assert s[n] == first[n] && s[n + 1] == first[n + 1] && s[n + 2] == first[n + 2];
  }

  lemma OctetParts(p: TmPacket)
    requires p.Valid()
    ensures var s := p.Octets();
      && Unpack(s) == p.Header() && s[19..|s| - 2] == p.data
      && s[..|s| - 2] == p.Protected() && GetU16(s, |s| - 2) == Crc16(p.Protected())
  {
    hide Pack, Unpack, Crc16;
    var s := p.Octets();
    var crc := PutU16(Crc16(p.Protected()));
    UnpackPack(p.Header(), p.SecondaryHeader() + p.data + crc);
    assert s == Pack(p.Header()) + (p.SecondaryHeader() + p.data + crc);
    U16RoundTrip(p.Protected(), Crc16(p.Protected()), []);
    assert s == p.Protected() + crc + [];
  }

  /** The ground reads every packet the unit builds, and reads what was put in. */
  lemma GroundReads(p: TmPacket)
    requires p.Valid()
    ensures ParseTm(p.Octets()) == Decoded(GroundTm(APID, p, DESTINATION, p.Octets()))
  {
    var s := p.Octets();
    OctetParts(p);
    var crc := PutU16(Crc16(p.Protected()));
    assert s == Pack(p.Header()) + p.SecondaryHeader() + (p.data + crc);
    SecondaryParts(p, Pack(p.Header()), p.data + crc);
    assert GetU16(s, 0) / 0x1000 % 2 == 0 && GetU16(s, 0) % 0x800 == APID;
    hide Pack, Crc16;
  }
}
