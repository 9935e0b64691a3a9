/** Telecommand acceptance (src/pus_tc.c) and the encoding it accepts. */
module Telecommand {
  import opened Arithmetic
  import opened Crc
  import opened Octets
  import opened SpacePacket
  import opened Status

  const MIN_LEN: nat := 13
  const ACK_ACCEPTANCE: nat := 1
  const ACK_COMPLETION: nat := 8

  datatype Telecommand = Telecommand(
    prim: PrimaryHeader,
    pusVersion: octet,
    ackFlags: octet,
    service: octet,
    subtype: octet,
    sourceId: u16,
    data: seq<octet>,
    requestId: u32)

  datatype ParseResult = Parsed(tc: Telecommand) | Refused(status: Status)
  {
    function Verdict(): Status {
      if Parsed? then Ok else status
    }
  }

  /** `pus_tc_parse`. */
  function Parse(buf: seq<octet>): ParseResult {
    if |buf| < MIN_LEN then Refused(Truncated) else
    var prim := Unpack(buf);
    if prim.TotalLength() != |buf| then Refused(BadLength) else
    if Crc16(buf[..|buf| - CRC_LEN]) != GetU16(buf, |buf| - CRC_LEN) then Refused(BadCrc) else
    if prim.version != 0 then Refused(BadVersion) else
    if prim.packetType != 1 then Refused(BadPacketType) else
    if prim.secHdrFlag != 1 then Refused(NoSecHeader) else
    if prim.apid != APID then Refused(BadApid) else
    if buf[6] / 0x10 != PUS_VERSION_C then Refused(BadVersion) else
    Parsed(Telecommand(prim, buf[6] / 0x10, buf[6] % 0x10, buf[7], buf[8], GetU16(buf, 9),
                       buf[11..|buf| - CRC_LEN], GetU32(buf, 0)))
  }

  /** `pus_tc_ack_requested`, for the four one-bit masks. */
  predicate AckRequested(tc: Telecommand, mask: nat)
    requires mask in {1, 2, 4, 8}
  {
    tc.ackFlags / mask % 2 == 1
  }

  // ---- The encoding ----

  function SecondaryHeader(tc: Telecommand): (s: seq<octet>)
    requires tc.pusVersion < 0x10 && tc.ackFlags < 0x10
    ensures |s| == 5
  {
    [(tc.pusVersion as int) * 0x10 + tc.ackFlags, tc.service, tc.subtype] + PutU16(tc.sourceId)
  }

  function Protected(tc: Telecommand): seq<octet>
    requires tc.pusVersion < 0x10 && tc.ackFlags < 0x10
  {
    Pack(tc.prim) + SecondaryHeader(tc) + tc.data
  }

  /** The packet that carries a telecommand: header, secondary header, data, error control. */
  function Encode(tc: Telecommand): (s: seq<octet>)
    requires tc.pusVersion < 0x10 && tc.ackFlags < 0x10
    ensures |s| == MIN_LEN + |tc.data|
  {
    Protected(tc) + PutU16(Crc16(Protected(tc)))
  }

  /** What the unit accepts. Sequence flags and count are free: the parser never looks at them. */
  predicate WellFormed(tc: Telecommand) {
    && tc.prim.Fits()
    && tc.prim.version == 0 && tc.prim.packetType == 1 && tc.prim.secHdrFlag == 1 && tc.prim.apid == APID
    && tc.prim.TotalLength() == MIN_LEN + |tc.data|
    && tc.pusVersion == PUS_VERSION_C && tc.ackFlags < 0x10
    && tc.requestId == GetU32(Pack(tc.prim), 0)
  }

  lemma EncodedParts(tc: Telecommand)
    requires tc.pusVersion < 0x10 && tc.ackFlags < 0x10
    ensures var s := Encode(tc);
      && Unpack(s) == tc.prim.Masked() && s[..6] == Pack(tc.prim)
      && s[6] == tc.pusVersion * 0x10 + tc.ackFlags && s[7] == tc.service && s[8] == tc.subtype
      && GetU16(s, 9) == tc.sourceId && s[11..|s| - 2] == tc.data
      && s[..|s| - 2] == Protected(tc) && GetU16(s, |s| - 2) == Crc16(Protected(tc))
  {
    var s := Encode(tc);
    var crc := PutU16(Crc16(Protected(tc)));
    UnpackPack(tc.prim, SecondaryHeader(tc) + tc.data + crc);
    assert s == Pack(tc.prim) + (SecondaryHeader(tc) + tc.data + crc);
    U16RoundTrip(s[..9], tc.sourceId, tc.data + crc);
    assert s == s[..9] + PutU16(tc.sourceId) + (tc.data + crc);
    U16RoundTrip(Protected(tc), Crc16(Protected(tc)), []);
    assert s == Protected(tc) + crc + [];
  }

  /** Every well-formed telecommand is accepted and decoded to itself. */
  lemma ParseEncode(tc: Telecommand)
    requires WellFormed(tc)
    ensures Parse(Encode(tc)) == Parsed(tc)
  {
    hide Crc16, Pack, Unpack, Encode, Protected;
    EncodedParts(tc);
    var s := Encode(tc);
    assert GetU32(s, 0) == GetU32(Pack(tc.prim), 0);
  }

  /** Whatever is accepted is the encoding of what was decoded. */
  lemma EncodeParse(buf: seq<octet>)
    requires Parse(buf).Parsed?
    ensures WellFormed(Parse(buf).tc) && Encode(Parse(buf).tc) == buf
  {
    hide Crc16;
    var tc := Parse(buf).tc;
    var n := |buf| - 2;
    PackUnpack(buf);
    U16Canonical(buf, 9);
    U16Canonical(buf, n);
    assert GetU32(buf, 0) == GetU32(buf[..6], 0);
    assert buf[..n] == buf[..6] + buf[6..11] + buf[11..n];
    assert SecondaryHeader(tc) == buf[6..11];
    assert buf == buf[..n] + buf[n..];
  }

  /** Acceptance is exact: the decoded record and the octets determine each other. */
  lemma ParseExact(buf: seq<octet>, tc: Telecommand)
    ensures Parse(buf) == Parsed(tc) <==> WellFormed(tc) && buf == Encode(tc)
  {
    hide Crc16, Pack, Unpack, Encode;
    if Parse(buf).Parsed? {
      EncodeParse(buf);
    }
    if WellFormed(tc) && buf == Encode(tc) {
      ParseEncode(tc);
    }
  }

  /** Until the error control field verifies, two strings of one length are told apart by the
      length field alone. */
  lemma NothingReadBeforeCrc(p: seq<octet>, q: seq<octet>)
    requires |p| == |q|
    requires |p| >= MIN_LEN ==> GetU16(p, 4) == GetU16(q, 4) && Register(SEED, p) != 0 && Register(SEED, q) != 0
    ensures Parse(p) == Parse(q) && Parse(p).Refused?
  {
    hide Register, Crc16;
    if |p| >= MIN_LEN {
      FieldMatches(p);
      FieldMatches(q);
    }
  }

  // ---- The order of the checks ----

  datatype Check = Check(holds: bool, failure: Status)

  /** The first check from the i-th on that fails, and Ok if none does. */
  function FirstFailure(checks: seq<Check>, i: nat): Status
    requires i <= |checks|
    decreases |checks| - i
  {
    if i == |checks| then Ok
    else if !checks[i].holds then checks[i].failure
    else FirstFailure(checks, i + 1)
  }

  /** Requirement SWREQ-TC-015, with error control as a division without remainder over all the
      octets, and the header fields read where the standards put them. */
  function RequiredChecks(buf: seq<octet>): seq<Check> {
    if |buf| < MIN_LEN then [Check(false, Truncated)] else
    [ Check(GetU16(buf, 4) as int + 7 == |buf|, BadLength),
      Check(Register(SEED, buf) == 0, BadCrc),
      Check(buf[0] / 0x20 == 0, BadVersion),
      Check(buf[0] / 0x10 % 2 == 1, BadPacketType),
      Check(buf[0] / 0x8 % 2 == 1, NoSecHeader),
      Check((buf[0] % 0x8) as int * 0x100 + buf[1] == 0x00C, BadApid),
      Check(buf[6] / 0x10 == 2, BadVersion) ]
  }

  lemma FieldsInPlace(buf: seq<octet>)
    requires |buf| >= MIN_LEN
    ensures var h := Unpack(buf);
      && h.version == buf[0] / 0x20 && h.packetType == buf[0] / 0x10 % 2 && h.secHdrFlag == buf[0] / 0x8 % 2
      && h.apid == (buf[0] % 0x8) as int * 0x100 + buf[1] && h.dataLength == GetU16(buf, 4)
  {
    var a: int, b: int := buf[0], buf[1];
    Euclid(a / 0x20, a % 0x20 * 0x100 + b, 0x2000);
    Euclid(a / 0x10, a % 0x10 * 0x100 + b, 0x1000);
    Euclid(a / 0x8, a % 0x8 * 0x100 + b, 0x800);
  }

  /** The parser reports the first failing check of the requirement, on every string of octets. */
  lemma ChecksInOrder(buf: seq<octet>)
    ensures Parse(buf).Verdict() == FirstFailure(RequiredChecks(buf), 0)
  {
    hide Register, Crc16;
    if |buf| >= MIN_LEN {
      FieldMatches(buf);
      FieldsInPlace(buf);
      var c := RequiredChecks(buf);
      assert FirstFailure(c, 7) == Ok;
      assert FirstFailure(c, 6) == if c[6].holds then Ok else BadVersion;
      assert FirstFailure(c, 5) == if c[5].holds then FirstFailure(c, 6) else BadApid;
      assert FirstFailure(c, 4) == if c[4].holds then FirstFailure(c, 5) else NoSecHeader;
      assert FirstFailure(c, 3) == if c[3].holds then FirstFailure(c, 4) else BadPacketType;
      assert FirstFailure(c, 2) == if c[2].holds then FirstFailure(c, 3) else BadVersion;
    }
  }
}
