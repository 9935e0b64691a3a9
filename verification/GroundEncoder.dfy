/** The ground's telecommand encoder, with every field open to a deliberate defect
    (tests/integration/gsw/packets.py:47-80). */
module GroundEncoder {
  import opened Crc
  import opened Octets
  import opened SpacePacket
  import opened Status
  import opened Telecommand

  /** The arguments of `build_tc`. Only the source identifier has to be in range. */
  datatype Request = Request(
    service: int,
    subtype: int,
    data: seq<octet>,
    ack: int,
    seqCount: int,
    apid: int,
    sourceId: u16,
    pusVersion: int,
    ccsdsVersion: int,
    packetType: int,
    secHdrFlag: int,
    declaredLength: Option<int>,
    validCrc: bool)
  {
    /** The fields no test case has overridden. */
    predicate Plain() {
      && apid == APID && pusVersion == 2 && ccsdsVersion == 0 && packetType == 1 && secHdrFlag == 1
      && declaredLength == None && validCrc
    }

    function Length(): u16 {
      (if declaredLength == None then |data| + 6 else declaredLength.value) % 0x1_0000
    }

    /** The telecommand the ground means, after masking. */
    function Meant(): Telecommand {
      var prim := PrimaryHeader(ccsdsVersion % 8, packetType % 2, secHdrFlag % 2, apid % 0x800,
                                UNSEGMENTED, seqCount % 0x4000, Length());
      Telecommand(prim, pusVersion % 0x10, ack % 0x10, service % 0x100, subtype % 0x100, sourceId, data,
                  GetU32(Pack(prim), 0))
    }

    /** The defect the acceptance checks must name, in the order of the requirement SWREQ-TC-015. */
    function Verdict(): Status {
      if Length() != |data| + 6 then BadLength
      else if !validCrc then BadCrc
      else if ccsdsVersion % 8 != 0 then BadVersion
      else if packetType % 2 != 1 then BadPacketType
      else if secHdrFlag % 2 != 1 then NoSecHeader
      else if apid % 0x800 != APID then BadApid
      else if pusVersion % 0x10 != 2 then BadVersion
      else Ok
    }
  }

  /** The error control field with its last bit flipped. */
  function Spoiled(crc: u16): u16 {
    if crc % 2 == 0 then crc + 1 else crc - 1
  }

  function Wire(q: Request): seq<octet> {
    var body := Protected(q.Meant());
    body + PutU16(if q.validCrc then Crc16(body) else Spoiled(Crc16(body)))
  }

  /** `build_tc`. */
  method BuildTc(q: Request) returns (packet: seq<octet>)
    ensures packet == Wire(q)
  {
    var body: seq<octet> := [];
    body := body + [q.pusVersion % 0x10 * 0x10 + q.ack % 0x10];
    body := body + [q.service % 0x100];
    body := body + [q.subtype % 0x100];
    body := body + PutU16(q.sourceId);
    body := body + q.data;

    var total := HEADER_LEN + |body| + CRC_LEN;
    var lengthField := if q.declaredLength == None then total - HEADER_LEN - 1 else q.declaredLength.value;

    var word0 := q.ccsdsVersion % 8 * 0x2000 + q.packetType % 2 * 0x1000 + q.secHdrFlag % 2 * 0x800 + q.apid % 0x800;
    var word1 := 3 * 0x4000 + q.seqCount % 0x4000;

    packet := [];
    packet := packet + PutU16(word0);
    packet := packet + PutU16(word1);
    packet := packet + PutU16(lengthField % 0x1_0000);
    assert packet == Pack(q.Meant().prim);
    packet := packet + body;
    assert packet == Protected(q.Meant());

    var crc := GroundCrc16(packet);
    if !q.validCrc {
      crc := Spoiled(crc);
    }
    packet := packet + PutU16(crc);
  }

  /** The flight parser names exactly the first defect the ground put in, and decodes a packet
      without defects to what the ground meant. */
  lemma ParserAgrees(q: Request)
    ensures Parse(Wire(q)).Verdict() == q.Verdict()
    ensures q.Verdict() == Ok ==> Parse(Wire(q)) == Parsed(q.Meant())
  {
    hide Crc16, Pack, Unpack;
    var tc := q.Meant();
    var good, sent := Encode(tc), Wire(q);
    var n := |good| - 2;
    EncodedParts(tc);
    U16RoundTrip(Protected(tc), if q.validCrc then Crc16(Protected(tc)) else Spoiled(Crc16(Protected(tc))), []);
    assert sent == Protected(tc) + sent[n..] + [];
    assert sent[..n] == good[..n];
    SamePrefix(good, sent, n);
  }

  lemma SamePrefix(s: seq<octet>, t: seq<octet>, n: nat)
    requires 11 <= n <= |s| == |t| && s[..n] == t[..n]
    ensures Unpack(s) == Unpack(t) && GetU16(s, 9) == GetU16(t, 9) && GetU32(s, 0) == GetU32(t, 0)
    ensures s[6] == t[6] && s[7] == t[7] && s[8] == t[8] && s[11..n] == t[11..n]
  {
    assert forall i :: 0 <= i < n ==> s[i] == s[..n][i] == t[..n][i] == t[i];
  }

  /** A packet built with the default flags is accepted exactly when its data fits the length field. */
  lemma PlainAccepted(q: Request)
    requires q.Plain()
    ensures Parse(Wire(q)).Parsed? <==> |q.data| <= 65529
    ensures |q.data| <= 65529 ==> Parse(Wire(q)) == Parsed(q.Meant())
    ensures |q.data| > 65529 ==> Parse(Wire(q)) == Refused(BadLength)
  {
    hide Parse, Wire;
    ParserAgrees(q);
  }
}
