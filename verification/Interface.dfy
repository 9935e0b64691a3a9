/** The interface as the ground sees it, octet by octet and in the numbers of docs/ICD.md: what
    every packet carries in its headers, and what every report carries in its data. */
module Interface {
  import opened Arithmetic
  import opened Crc
  import opened Downlink
  import opened GroundEncoder
  import opened HousekeepingRuns
  import opened Octets
  import opened Reports
  import opened SpacePacket
  import opened Status
  import opened Telecommand
  import opened Telemetry

  // ---- Headers ----

  lemma FirstOctets(v: int, t: int, f: int, a: int)
    requires 0 <= v < 8 && 0 <= t < 2 && 0 <= f < 2 && 0 <= a < 0x800
    ensures var w := v * 0x2000 + t * 0x1000 + f * 0x800 + a;
      0 <= w < 0x1_0000 && w / 0x100 == v * 32 + t * 16 + f * 8 + a / 256 && w % 0x100 == a % 256
  {
    Euclid(v * 32 + t * 16 + f * 8 + a / 256, a % 256, 0x100);
  }

  /** Section 2: the six octets of any primary header, whose excess high bits are cut off. */
  lemma HeaderOctets(h: PrimaryHeader)
    ensures var m := h.Masked();
      Pack(h) ==
        [ m.version * 32 + m.packetType * 16 + m.secHdrFlag * 8 + m.apid / 256,
          m.apid % 256,
          m.seqFlags * 64 + m.seqCount / 256,
          m.seqCount % 256,
          m.dataLength / 256,
          m.dataLength % 256 ]
  {
    var m := h.Masked();
    FirstOctets(m.version, m.packetType, m.secHdrFlag, m.apid);
    var c: int := m.seqCount;
    Euclid(m.seqFlags * 64 + c / 256, c % 256, 0x100);
    assert SecondWord(h) == (m.seqFlags * 64 + c / 256) * 0x100 + c % 256;
    hide PrimaryHeader.Masked;
  }

  lemma PrimaryOctets(p: TmPacket)
    requires p.Valid()
    ensures var s, n := Pack(p.Header()), 14 + |p.data|;
      s == [0x08, 0x0C, 0xC0 + p.seqCount / 0x100, p.seqCount % 0x100, n / 0x100, n % 0x100]
  {
    hide Pack, PrimaryHeader.Masked;
    HeaderOctets(p.Header());
    assert p.Header().Fits();
  }

  lemma ThirtyTwo(v: u32)
    ensures PutU32(v) == [v / 0x100_0000, v / 0x1_0000 % 0x100, v / 0x100 % 0x100, v % 0x100]
  {
    var n: int := v;
    var a, b := n / 0x1_0000, n % 0x1_0000;
    Euclid(a / 0x100, a % 0x100 * 0x1_0000 + b, 0x100_0000);
    Euclid(a * 0x100 + b / 0x100, b % 0x100, 0x100);
    Euclid(a, b / 0x100, 0x100);
  }

  lemma SecondaryOctets(p: TmPacket)
    ensures var c: int, f: int, n: int := p.time.coarse, p.time.fine, p.msgCounter;
      p.SecondaryHeader() ==
        [ 0x20, p.service, p.subtype, n / 0x100, n % 0x100, 0, 1,
          c / 0x100_0000, c / 0x1_0000 % 0x100, c / 0x100 % 0x100, c % 0x100, f / 0x100, f % 0x100 ]
  {
    hide PutU32;
    ThirtyTwo(p.time.coarse);
  }

  /** Sections 2, 4 and 5: version 0, telemetry, with secondary header, APID 12, unsegmented,
      the sequence count, the length minus seven; PUS version 2, service, subtype, message
      counter, destination 1, the time; the data; and an error control field over all of it. */
  lemma TmOctets(p: TmPacket)
    requires p.Valid()
    ensures var s, n := p.Octets(), |p.data|;
      && |s| == 21 + n <= 256
      && s[0] == 0x08 && s[1] == 0x0C
      && s[2] == 0xC0 + p.seqCount / 256 && s[3] == p.seqCount % 256
      && s[4] == (|s| - 7) / 256 && s[5] == (|s| - 7) % 256
      && s[6] == 0x20 && s[7] == p.service && s[8] == p.subtype
      && s[9] == p.msgCounter / 256 && s[10] == p.msgCounter % 256
      && s[11] == 0 && s[12] == 1
      && s[13] == p.time.coarse / 0x100_0000 && s[14] == p.time.coarse / 0x1_0000 % 0x100
      && s[15] == p.time.coarse / 0x100 % 0x100 && s[16] == p.time.coarse % 0x100
      && s[17] == p.time.fine / 256 && s[18] == p.time.fine % 256
      && s[19..19 + n] == p.data
    ensures Register(SEED, p.Octets()) == 0
  {
    hide Pack, Crc16, Register, TmPacket.SecondaryHeader;
    var s := p.Octets();
    OctetParts(p);
    FieldMatches(s);
    PrimaryOctets(p);
    SecondaryOctets(p);
    assert s[..19] == Pack(p.Header()) + p.SecondaryHeader();
    assert forall i :: 0 <= i < 19 ==> s[i] == s[..19][i];
  }

  // ---- Data of reports ----

  /** Section 7: a packet that carries this report, by the places of its octets in the packet. */
  ghost predicate Carries(s: seq<octet>, r: Report) {
    && |s| >= 21
    && match r
       case AcceptanceSuccess(i) => s[7] == 1 && s[8] == 1 && |s| == 25 && GetU32(s, 19) == i
       case AcceptanceFailure(i, c) => s[7] == 1 && s[8] == 2 && |s| == 27 && GetU32(s, 19) == i && GetU16(s, 23) == c
       case CompletionSuccess(i) => s[7] == 1 && s[8] == 7 && |s| == 25 && GetU32(s, 19) == i
       case CompletionFailure(i, c) => s[7] == 1 && s[8] == 8 && |s| == 27 && GetU32(s, 19) == i && GetU16(s, 23) == c
       case Essential(nominal, uptime, temperature, heater) =>
         && s[7] == 3 && s[8] == 25 && |s| == 30
         && s[19] == 1 && s[20] == (if nominal then 1 else 0) && GetU32(s, 21) == uptime
         && GetU16(s, 25) == temperature % 0x1_0000 && s[27] == (if heater then 1 else 0)
       case Diagnostic(accepted, rejected, lastFailure, queued, overflows) =>
         && s[7] == 3 && s[8] == 25 && |s| == 31
         && s[19] == 2 && GetU16(s, 20) == accepted && GetU16(s, 22) == rejected
         && GetU16(s, 24) == lastFailure && s[26] == queued && GetU16(s, 27) == overflows
       case Event(id, severity, aux) =>
         s[7] == 5 && s[8] == severity && |s| == 25 && GetU16(s, 19) == id && GetU16(s, 21) == aux
       case IAmAlive => s[7] == 17 && s[8] == 2 && |s| == 21
  }

  lemma FieldsMoved(s: seq<octet>, data: seq<octet>, at: nat)
    requires |s| == 21 + |data| && s[19..19 + |data|] == data
    ensures at + 2 <= |data| ==> GetU16(s, 19 + at) == GetU16(data, at)
    ensures at + 4 <= |data| ==> GetU32(s, 19 + at) == GetU32(data, at)
    ensures at < |data| ==> s[19 + at] == data[at]
  {
    assert forall k :: 19 <= k < 19 + |data| ==> s[k] == s[19..19 + |data|][k - 19] == data[k - 19];
  }

  lemma WordOf(v: i16)
    ensures Unsigned(v) == v % 0x1_0000
  {
  }

  lemma ShortData(s: seq<octet>, r: Report)
    requires !r.Essential? && !r.Diagnostic?
    requires |s| == 21 + |r.Data()| && s[19..19 + |r.Data()|] == r.Data()
    requires s[7] == r.Service() && s[8] == r.Subtype()
    ensures Carries(s, r)
  {
    FieldsMoved(s, r.Data(), 0);
    FieldsMoved(s, r.Data(), 2);
    FieldsMoved(s, r.Data(), 4);
    match r
    case AcceptanceSuccess(i) => SuccessData(i);
    case AcceptanceFailure(i, c) => FailureData(i, c);
    case CompletionSuccess(i) => SuccessData(i);
    case CompletionFailure(i, c) => FailureData(i, c);
    case Event(i, _, a) => EventData(i, a);
    case IAmAlive =>
    hide GetU16, GetU32, PutU16, PutU32;
  }

  lemma EssentialOctets(s: seq<octet>, r: Report)
    requires r.Essential?
    requires |s| == 21 + |r.Data()| && s[19..19 + |r.Data()|] == r.Data()
    requires s[7] == r.Service() && s[8] == r.Subtype()
    ensures Carries(s, r)
  {
    var d := r.Data();
    var head, tail := [1 as octet, Bit(r.nominal)], [Bit(r.heater)];
    var up, t := PutU32(r.uptime), PutU16(Unsigned(r.temperature));
    assert d == head + up + (t + tail) == (head + up) + t + tail;
    U32RoundTrip(head, r.uptime, t + tail);
    U16RoundTrip(head + up, Unsigned(r.temperature), tail);
    WordOf(r.temperature);
    FieldsMoved(s, d, 0);
    FieldsMoved(s, d, 1);
    FieldsMoved(s, d, 2);
    FieldsMoved(s, d, 6);
    FieldsMoved(s, d, 8);
    hide GetU16, GetU32, PutU16, PutU32, Unsigned;
  }

  lemma DiagnosticOctets(s: seq<octet>, r: Report)
    requires r.Diagnostic?
    requires |s| == 21 + |r.Data()| && s[19..19 + |r.Data()|] == r.Data()
    requires s[7] == r.Service() && s[8] == r.Subtype()
    ensures Carries(s, r)
  {
    var d := r.Data();
    DiagnosticData(r);
    FieldsMoved(s, d, 0);
    FieldsMoved(s, d, 1);
    FieldsMoved(s, d, 3);
    FieldsMoved(s, d, 5);
    FieldsMoved(s, d, 7);
    FieldsMoved(s, d, 8);
    hide GetU16, GetU32, PutU16, PutU32;
  }

  /** Every packet of every run carries its report at the places the document gives. */
  lemma ReportOctets(p: Packet)
    requires Readable(p)
    ensures p.Tm().Valid() && Carries(p.Tm().Octets(), p.report)
  {
    hide Carries, TmPacket.Octets, Report.Data, Report.Service, Report.Subtype;
    var s := p.Tm().Octets();
    TmOctets(p.Tm());
    if p.report.Essential? {
      EssentialOctets(s, p.report);
    } else if p.report.Diagnostic? {
      DiagnosticOctets(s, p.report);
    } else {
      ShortData(s, p.report);
    }
  }

  // ---- Telecommands ----

  /** Sections 2, 3 and 8: what an accepted string means, octet by octet. */
  lemma TcOctets(buf: seq<octet>)
    requires Parse(buf).Parsed?
    ensures var tc := Parse(buf).tc;
      && |buf| >= 13
      && tc.ackFlags == buf[6] % 16 && tc.service == buf[7] && tc.subtype == buf[8]
      && tc.sourceId == buf[9] as int * 256 + buf[10]
      && tc.data == buf[11..|buf| - 2]
      && tc.requestId == ((buf[0] as int * 256 + buf[1]) * 256 + buf[2]) * 256 + buf[3]
  {
    hide Crc16, Unpack;
  }

  lemma BodyOctets(tc: Telecommand)
    requires tc.pusVersion < 0x10 && tc.ackFlags < 0x10
    ensures Protected(tc) == Pack(tc.prim)
      + [tc.pusVersion * 16 + tc.ackFlags, tc.service, tc.subtype, tc.sourceId / 256, tc.sourceId % 256] + tc.data
  {
    hide Pack;
    var v: int, a: int := tc.pusVersion, tc.ackFlags;
    assert v * 0x10 + a == v * 16 + a;
  }

  /** What the ground puts on the link, octet by octet, for every combination of overrides; the
      error control field divides exactly if it was not spoiled. */
  lemma GroundOctets(q: Request)
    ensures var s, n := Wire(q), |q.data|;
      var length := (if q.declaredLength == None then n + 6 else q.declaredLength.value) % 0x1_0000;
      && |s| == n + 13
      && s[0] == q.ccsdsVersion % 8 * 32 + q.packetType % 2 * 16 + q.secHdrFlag % 2 * 8 + q.apid % 2048 / 256
      && s[1] == q.apid % 2048 % 256
      && s[2] == 0xC0 + q.seqCount % 16384 / 256 && s[3] == q.seqCount % 16384 % 256
      && s[4] == length / 256 && s[5] == length % 256
      && s[6] == q.pusVersion % 16 * 16 + q.ack % 16
      && s[7] == q.service % 256 && s[8] == q.subtype % 256
      && s[9] == q.sourceId / 256 && s[10] == q.sourceId % 256
      && s[11..11 + n] == q.data
    ensures Register(SEED, Wire(q)) == 0 <==> q.validCrc
  {
    hide Pack, Crc16, Register;
    var tc, s := q.Meant(), Wire(q);
    var body := Protected(tc);
    hide PrimaryHeader.Masked;
    HeaderOctets(tc.prim);
    assert tc.prim.Fits();
    BodyOctets(tc);
    assert s[..|body|] == body;
    assert forall i :: 0 <= i < |body| ==> s[i] == body[i];
    assert s[11..11 + |q.data|] == body[11..] == q.data;
    var field := if q.validCrc then Crc16(body) else Spoiled(Crc16(body));
    U16RoundTrip(body, field, []);
    assert s == body + PutU16(field) + [];
    FieldMatches(s);
  }

  /** Section 8: the failure codes. */
  lemma FailureCodes()
    ensures Ok.Code() == 0 && Null.Code() == 1 && BufferTooSmall.Code() == 2 && Truncated.Code() == 3
    ensures BadVersion.Code() == 4 && BadPacketType.Code() == 5 && NoSecHeader.Code() == 6 && BadApid.Code() == 7
    ensures BadCrc.Code() == 8 && UnknownService.Code() == 9 && UnknownSubtype.Code() == 10 && BadLength.Code() == 11
    ensures BadParameter.Code() == 12 && UnknownSid.Code() == 13 && UnknownEvent.Code() == 14
    ensures UnknownFunction.Code() == 15 && QueueFull.Code() == 16 && NotPermitted.Code() == 17
  {
  }

  /** No two status values share a code. */
  lemma CodesDiffer(a: Status, b: Status)
    ensures a.Code() == b.Code() <==> a == b
  {
  }

  // ---- The ground's checks ----

  /** The ground refuses telemetry for the first of its five reasons that applies, and reads every
      field where the document puts it. */
  lemma GroundChecksInOrder(raw: seq<octet>)
    ensures ParseTm(raw) ==
      if |raw| < 21 then Invalid(TooShort)
      else if raw[0] / 16 % 2 == 1 then Invalid(PacketTypeBitSet)
      else if raw[4] as int * 256 + raw[5] + 7 != |raw| then Invalid(LengthMismatch)
      else if Register(SEED, raw) != 0 then Invalid(CrcMismatch)
      else if raw[6] / 16 != 2 then Invalid(UnexpectedVersion)
      else
        Decoded(GroundTm(
          raw[0] as int % 8 * 256 + raw[1],
          TmPacket(raw[2] as int % 64 * 256 + raw[3], raw[7], raw[8], raw[9] as int * 256 + raw[10],
                   Cuc(((raw[13] as int * 256 + raw[14]) * 256 + raw[15]) * 256 + raw[16],
                       raw[17] as int * 256 + raw[18]),
                   raw[19..|raw| - 2]),
          raw[11] as int * 256 + raw[12],
          raw))
  {
    hide Crc16, Register;
    if |raw| >= 21 {
      FieldMatches(raw);
      var a: int, b: int, c: int, d: int := raw[0], raw[1], raw[2], raw[3];
      Euclid(a / 16, a % 16 * 256 + b, 0x1000);
      Euclid(a / 8, a % 8 * 256 + b, 0x800);
      Euclid(c / 64, c % 64 * 256 + d, 0x4000);
    }
  }
}
