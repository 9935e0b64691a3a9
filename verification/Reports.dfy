/** The source data of every telemetry report the unit emits, and how the ground reads it back
    (docs/ICD.md; src/svc01_verification.c, src/svc03_housekeeping.c, src/svc05_event.c). */
module Reports {
  import opened Octets

  datatype Report =
    | AcceptanceSuccess(requestId: u32)
    | AcceptanceFailure(requestId: u32, code: u16)
    | CompletionSuccess(requestId: u32)
    | CompletionFailure(requestId: u32, code: u16)
    | Essential(nominal: bool, uptime: u32, temperature: i16, heater: bool)
    | Diagnostic(accepted: u16, rejected: u16, lastFailure: u16, queued: octet, overflows: u16)
    | Event(id: u16, severity: octet, aux: u16)
    | IAmAlive
  {
    /** Events travel as subtypes 1 to 4. */
    predicate Valid() {
      Event? ==> 1 <= severity <= 4
    }

    function Service(): octet {
      match this
      case AcceptanceSuccess(_) => 1
      case AcceptanceFailure(_, _) => 1
      case CompletionSuccess(_) => 1
      case CompletionFailure(_, _) => 1
      case Essential(_, _, _, _) => 3
      case Diagnostic(_, _, _, _, _) => 3
      case Event(_, _, _) => 5
      case IAmAlive => 17
    }

    function Subtype(): octet {
      match this
      case AcceptanceSuccess(_) => 1
      case AcceptanceFailure(_, _) => 2
      case CompletionSuccess(_) => 7
      case CompletionFailure(_, _) => 8
      case Essential(_, _, _, _) => 25
      case Diagnostic(_, _, _, _, _) => 25
      case Event(_, s, _) => s
      case IAmAlive => 2
    }

    function Data(): (s: seq<octet>)
      ensures |s| <= 10
    {
      match this
      case AcceptanceSuccess(r) => PutU32(r)
      case AcceptanceFailure(r, c) => PutU32(r) + PutU16(c)
      case CompletionSuccess(r) => PutU32(r)
      case CompletionFailure(r, c) => PutU32(r) + PutU16(c)
      case Essential(m, u, t, h) => [1, Bit(m)] + PutU32(u) + PutU16(Unsigned(t)) + [Bit(h)]
      case Diagnostic(a, r, f, q, o) => [2] + PutU16(a) + PutU16(r) + PutU16(f) + [q] + PutU16(o)
      case Event(i, _, a) => PutU16(i) + PutU16(a)
      case IAmAlive => []
    }
  }

  /** The ground database's reading of a report. */
  function Decode(service: octet, subtype: octet, data: seq<octet>): Option<Report> {
    if service == 1 && subtype == 1 && |data| == 4 then Some(AcceptanceSuccess(GetU32(data, 0)))
    else if service == 1 && subtype == 2 && |data| == 6 then Some(AcceptanceFailure(GetU32(data, 0), GetU16(data, 4)))
    else if service == 1 && subtype == 7 && |data| == 4 then Some(CompletionSuccess(GetU32(data, 0)))
    else if service == 1 && subtype == 8 && |data| == 6 then Some(CompletionFailure(GetU32(data, 0), GetU16(data, 4)))
    else if service == 3 && subtype == 25 && |data| == 9 && data[0] == 1 && data[1] <= 1 && data[8] <= 1 then
      Some(Essential(data[1] == 1, GetU32(data, 2), Signed(GetU16(data, 6)), data[8] == 1))
    else if service == 3 && subtype == 25 && |data| == 10 && data[0] == 2 then
      Some(Diagnostic(GetU16(data, 1), GetU16(data, 3), GetU16(data, 5), data[7], GetU16(data, 8)))
    else if service == 5 && 1 <= subtype <= 4 && |data| == 4 then Some(Event(GetU16(data, 0), subtype, GetU16(data, 2)))
    else if service == 17 && subtype == 2 && |data| == 0 then Some(IAmAlive)
    else None
  }

  lemma FailureData(r: u32, c: u16)
    ensures var d := PutU32(r) + PutU16(c); GetU32(d, 0) == r && GetU16(d, 4) == c
  {
    var d := PutU32(r) + PutU16(c);
    U32RoundTrip([], r, PutU16(c));
    U16RoundTrip(PutU32(r), c, []);
    assert d == [] + PutU32(r) + PutU16(c) == PutU32(r) + PutU16(c) + [];
  }

  lemma SuccessData(r: u32)
    ensures GetU32(PutU32(r), 0) == r
  {
    U32RoundTrip([], r, []);
    assert PutU32(r) == [] + PutU32(r) + [];
  }

  lemma EssentialData(r: Report)
    requires r.Essential?
    ensures Decode(3, 25, r.Data()) == Some(r)
  {
    var head, tail := [1 as octet, Bit(r.nominal)], [Bit(r.heater)];
    var d := r.Data();
    U32RoundTrip(head, r.uptime, PutU16(Unsigned(r.temperature)) + tail);
    assert d == head + PutU32(r.uptime) + (PutU16(Unsigned(r.temperature)) + tail);
    U16RoundTrip(head + PutU32(r.uptime), Unsigned(r.temperature), tail);
    SignedRoundTrip(r.temperature, 0);
  }

  lemma DiagnosticData(r: Report)
    requires r.Diagnostic?
    ensures Decode(3, 25, r.Data()) == Some(r)
  {
    var a, b, c := PutU16(r.accepted), PutU16(r.rejected), PutU16(r.lastFailure);
    var o := PutU16(r.overflows);
    var d := r.Data();
    var h: seq<octet> := [2];
    assert d == h + a + (b + c + [r.queued] + o);
    U16RoundTrip(h, r.accepted, b + c + [r.queued] + o);
    assert d == (h + a) + b + (c + [r.queued] + o);
    U16RoundTrip(h + a, r.rejected, c + [r.queued] + o);
    assert d == (h + a + b) + c + ([r.queued] + o);
    U16RoundTrip(h + a + b, r.lastFailure, [r.queued] + o);
    assert d == (h + a + b + c + [r.queued]) + o + [];
    U16RoundTrip(h + a + b + c + [r.queued], r.overflows, []);
  }

  lemma EventData(i: u16, a: u16)
    ensures var d := PutU16(i) + PutU16(a); GetU16(d, 0) == i && GetU16(d, 2) == a
  {
    U16RoundTrip([], i, PutU16(a));
    U16RoundTrip(PutU16(i), a, []);
    assert PutU16(i) + PutU16(a) == [] + PutU16(i) + PutU16(a) == PutU16(i) + PutU16(a) + [];
  }

  /** Service, subtype and source data determine the report. */
  lemma DecodeReport(r: Report)
    requires r.Valid()
    ensures Decode(r.Service(), r.Subtype(), r.Data()) == Some(r)
  {
    match r
    case AcceptanceSuccess(i) => SuccessData(i);
    case AcceptanceFailure(i, c) => FailureData(i, c);
    case CompletionSuccess(i) => SuccessData(i);
    case CompletionFailure(i, c) => FailureData(i, c);
    case Essential(_, _, _, _) => EssentialData(r);
    case Diagnostic(_, _, _, _, _) => DiagnosticData(r);
    case Event(i, _, a) => EventData(i, a);
    case IAmAlive =>
  }
}
