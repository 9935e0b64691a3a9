/** What a step sends: for every telecommand and every minor cycle, the exact list of reports
    handed to `pus_tm_send`, in order, with their time stamps. */
module Postings {
  import opened Downlink
  import opened HalHost
  import opened Octets
  import opened Onboard
  import opened Reports
  import opened Status
  import opened Telecommand
  import opened TmQueue

  function Now(o: Obc, r: Report): Posting {
    Posting(r, o.board.Now())
  }

  /** The event, unless ground has disabled it. */
  function EventOut(o: Obc, id: u16, severity: octet, aux: u16): seq<Posting>
    requires EventId(id) && Severity(severity)
  {
    if o.evEnabled[id - 1] then [Now(o, Event(id, severity, aux))] else []
  }

  function HeaterOut(o: Obc, on: bool): seq<Posting> {
    if on == o.heaterOn then [] else EventOut(o, EVT_HEATER, INFORMATIVE, Bit(on))
  }

  function ModeOut(o: Obc, mode: Mode): seq<Posting> {
    if mode == o.mode then [] else
    (if mode.Safe? then HeaterOut(o, false) else []) + EventOut(o, EVT_MODE, INFORMATIVE, mode.Code())
  }

  function AlarmOut(o: Obc): seq<Posting> {
    if o.alarmLatched then [] else EventOut(o, EVT_ALARM, HIGH, Unsigned(o.temperature))
  }

  function ThermalOut(o: Obc): seq<Posting> {
    if o.mode.Nominal? && o.temperature >= ALARM_DC then AlarmOut(o) + ModeOut(o, Safe)
    else if o.mode.Nominal? && o.temperature > HEATER_ON_DC && o.temperature < HEATER_OFF_DC then []
    else HeaterOut(o, o.mode.Nominal? && o.temperature <= HEATER_ON_DC)
  }

  function NoticeOut(o: Obc): seq<Posting> {
    if o.link.overflows == o.lastOverflow then [] else EventOut(o, EVT_OVERFLOW, LOW, o.link.overflows)
  }

  function HkOneOut(o: Obc, sid: nat): seq<Posting>
    requires 1 <= sid <= 2
  {
    if o.hkEnabled[sid - 1] then [Now(o, HkReport(o, sid))] else []
  }

  /** On a due cycle, one report per enabled structure, in ascending order of identifier. */
  function HkOut(o: Obc): seq<Posting> {
    if (o.phase + 1) % TWO32 < HK_PERIOD then [] else
    HkOneOut(o, 1) + HkOneOut(o.(link := o.link.PushAll(HkOneOut(o, 1))), 2)
  }

  /** Thermal events, then the overflow notice, then housekeeping. */
  function TickOut(o: Obc): seq<Posting> {
    var warm := Thermal(Acquire(o));
    ThermalOut(Acquire(o)) + NoticeOut(warm) + HkOut(NoticeOverflow(warm))
  }

  lemma RaisePosts(o: Obc, id: u16, severity: octet, aux: u16)
    requires EventId(id) && Severity(severity)
    ensures Raise(o, id, severity, aux)
         == o.(link := o.link.PushAll(EventOut(o, id, severity, aux)),
               raised := o.raised + [EventCall(id, severity, aux)])
  {
    PushAllOne(o.link, Now(o, Event(id, severity, aux)));
  }

  /** Apart from mode, heater, alarm latch, link and raised events nothing differs. */
  ghost predicate SameElsewhere(a: Obc, b: Obc) {
    b == a.(mode := b.mode, heaterOn := b.heaterOn, board := a.board.(heater := b.board.heater),
            alarmLatched := b.alarmLatched, link := b.link, raised := b.raised)
  }

  lemma HeaterPosts(o: Obc, on: bool)
    ensures ApplyHeater(o, on).link == o.link.PushAll(HeaterOut(o, on))
    ensures SameElsewhere(o, ApplyHeater(o, on))
  {
    hide Raise, Link.PushAll;
    PushAllNone(o.link);
    if on != o.heaterOn {
      RaisePosts(o.(heaterOn := on, board := o.board.(heater := on)), EVT_HEATER, INFORMATIVE, Bit(on));
    }
  }

  lemma ModePosts(o: Obc, mode: Mode)
    ensures SetMode(o, mode).link == o.link.PushAll(ModeOut(o, mode))
    ensures SameElsewhere(o, SetMode(o, mode))
  {
    hide Raise, Link.PushAll, ApplyHeater;
    PushAllNone(o.link);
    if mode != o.mode {
      var moved := o.(mode := mode);
      var cooled := if mode.Safe? then ApplyHeater(moved, false) else moved;
      var first := if mode.Safe? then HeaterOut(o, false) else [];
      HeaterPosts(moved, false);
      RaisePosts(cooled, EVT_MODE, INFORMATIVE, mode.Code());
      PushAllAppend(o.link, first, EventOut(o, EVT_MODE, INFORMATIVE, mode.Code()));
    }
  }

  lemma AlarmPosts(o: Obc)
    ensures RaiseAlarmOnce(o).link == o.link.PushAll(AlarmOut(o))
    ensures SameElsewhere(o, RaiseAlarmOnce(o))
    ensures RaiseAlarmOnce(o).mode == o.mode && RaiseAlarmOnce(o).heaterOn == o.heaterOn
  {
    hide Raise, Link.PushAll;
    PushAllNone(o.link);
    if !o.alarmLatched {
      RaisePosts(o.(alarmLatched := true), EVT_ALARM, HIGH, Unsigned(o.temperature));
    }
  }

  lemma ThermalPosts(o: Obc)
    ensures Thermal(o).link == o.link.PushAll(ThermalOut(o))
    ensures SameElsewhere(o, Thermal(o))
  {
    hide RaiseAlarmOnce, ApplyHeater, SetMode, Link.PushAll;
    PushAllNone(o.link);
    if o.mode.Nominal? && o.temperature >= ALARM_DC {
      AlarmPosts(o);
      ModePosts(RaiseAlarmOnce(o), Safe);
      PushAllAppend(o.link, AlarmOut(o), ModeOut(o, Safe));
    } else {
      HeaterPosts(o, o.mode.Nominal? && o.temperature <= HEATER_ON_DC);
    }
  }

  function NoticeCalls(o: Obc): seq<EventCall> {
    if o.link.overflows == o.lastOverflow then [] else [EventCall(EVT_OVERFLOW, LOW, o.link.overflows)]
  }

  lemma NoticePosts(o: Obc)
    ensures NoticeOverflow(o)
         == o.(lastOverflow := o.link.overflows, link := o.link.PushAll(NoticeOut(o)),
               raised := o.raised + NoticeCalls(o))
  {
    hide Raise, Link.PushAll;
    PushAllNone(o.link);
    RaisePosts(o.(lastOverflow := o.link.overflows), EVT_OVERFLOW, LOW, o.link.overflows);
  }

  function NextPhase(phase: u32): u32 {
    if (phase + 1) % TWO32 < HK_PERIOD then (phase + 1) % TWO32 else 0
  }

  lemma HkPosts(o: Obc)
    ensures HkTick(o) == o.(phase := NextPhase(o.phase), link := o.link.PushAll(HkOut(o)))
  {
    PushAllOne(o.link, Now(o, HkReport(o, 1)));
    var due := o.(phase := 0);
    var first := GenerateIfEnabled(due, 1);
    assert first.link == o.link.PushAll(HkOneOut(o, 1));
    var second := o.(link := o.link.PushAll(HkOneOut(o, 1)));
    PushAllOne(second.link, Now(second, HkReport(second, 2)));
    PushAllAppend(o.link, HkOneOut(o, 1), HkOneOut(second, 2));
  }

  /** A minor cycle sends exactly this. */
  lemma TickPosts(o: Obc)
    ensures Tick(o).link == o.link.PushAll(TickOut(o))
  {
    hide Thermal, ThermalOut, NoticeOverflow, NoticeOut, HkTick, HkOut;
    var warm := Thermal(Acquire(o));
    ThermalPosts(Acquire(o));
    NoticePosts(warm);
    HkPosts(NoticeOverflow(warm));
    PushAllAppend(o.link, ThermalOut(Acquire(o)), NoticeOut(warm));
    PushAllAppend(o.link, ThermalOut(Acquire(o)) + NoticeOut(warm), HkOut(NoticeOverflow(warm)));
  }

  // ---- Reports of one service ----

  /** The reports of a service among some postings, in order. */
  function OfService(service: octet, ps: seq<Posting>): seq<Report> {
    if ps == [] then [] else
    var last := ps[|ps| - 1].report;
    OfService(service, ps[..|ps| - 1]) + (if last.Service() == service then [last] else [])
  }

  lemma {:induction false} OfServiceAppend(service: octet, ps: seq<Posting>, qs: seq<Posting>)
    ensures OfService(service, ps + qs) == OfService(service, ps) + OfService(service, qs)
  {
    if qs == [] {
      assert ps + qs == ps;
    } else {
      assert (ps + qs)[..|ps + qs| - 1] == ps + qs[..|qs| - 1];
      OfServiceAppend(service, ps, qs[..|qs| - 1]);
    }
  }

  // ---- Telecommands ----

  function AckOut(o: Obc, asked: bool, r: Report): seq<Posting> {
    if asked then [Now(o, r)] else []
  }

  /** One report per identifier, up to and including the first that finds no room. */
  function OneShotOut(o: Obc, sids: seq<int>): seq<Posting>
    requires AllWithin(sids, 2)
    decreases |sids|
  {
    if sids == [] then [] else
    var p := Now(o, HkReport(o, sids[0]));
    [p] + (if o.link.Room() > 0 then OneShotOut(o.(link := o.link.Push(p)), sids[1..]) else [])
  }

  predicate IsOneShot(tc: Telecommand) {
    tc.service == 3 && tc.subtype == 27
  }

  predicate ValidList(data: seq<octet>) {
    |data| >= 1 && |data| == 1 + data[0] as int && data[0] > 0 && AllWithin(Sids(data), 2)
  }

  /** What the service itself sends before its completion report. */
  function ServiceOut(o: Obc, tc: Telecommand): seq<Posting> {
    if IsOneShot(tc) && ValidList(tc.data) then OneShotOut(o, Sids(tc.data))
    else if tc.service == 17 && tc.subtype == 1 && tc.data == [] then [Now(o, IAmAlive)]
    else if tc.service == 8 && tc.subtype == 1 && |tc.data| == 2 && tc.data[0] == 1 && tc.data[1] <= 1 then
      ModeOut(o, if tc.data[1] == 0 then Safe else Nominal)
    else if tc.service == 8 && tc.subtype == 1 && |tc.data| == 2 && tc.data[0] == 2 && tc.data[1] <= 1
            && o.mode.Nominal? then
      HeaterOut(o, tc.data[1] == 1)
    else []
  }

  /** The completion report if asked for; after a failure, the rejection event. `o` is the state
      the service left, so a time just set is already in force. */
  function CompletionOut(o: Obc, tc: Telecommand, st: Status): seq<Posting> {
    var asked := AckRequested(tc, ACK_COMPLETION);
    if st == Ok then AckOut(o, asked, CompletionSuccess(tc.requestId))
    else AckOut(o, asked, CompletionFailure(tc.requestId, st.Code())) + EventOut(o, EVT_REJECTED, LOW, st.Code())
  }

  function TcOut(o: Obc, buf: seq<octet>): seq<Posting> {
    match Parse(buf)
    case Refused(st) =>
      [Now(o, AcceptanceFailure(RawRequestId(buf), st.Code()))] + EventOut(o, EVT_REJECTED, LOW, st.Code())
    case Parsed(tc) =>
      var accepted := Accept(o, tc);
      var routed := Route(accepted, tc);
      AckOut(o, AckRequested(tc, ACK_ACCEPTANCE), AcceptanceSuccess(tc.requestId))
      + ServiceOut(accepted, tc)
      + CompletionOut(routed.obc, tc, routed.status)
  }

  lemma {:induction false} OneShotPosts(o: Obc, sids: seq<int>)
    requires AllWithin(sids, 2)
    ensures OneShot(o, sids).obc.link == o.link.PushAll(OneShotOut(o, sids))
    decreases |sids|
  {
    if sids != [] {
      var p := Now(o, HkReport(o, sids[0]));
      var next := o.(link := o.link.Push(p));
      PushAllOne(o.link, p);
      if o.link.Room() > 0 {
        OneShotPosts(next, sids[1..]);
        PushAllAppend(o.link, [p], OneShotOut(next, sids[1..]));
      }
    }
  }

  lemma Function8Posts(o: Obc, tc: Telecommand)
    requires tc.service == 8
    ensures Function8(o, tc).obc.link == o.link.PushAll(ServiceOut(o, tc))
  {
    hide ModeOut, HeaterOut, SetMode, ApplyHeater, Link.PushAll;
    PushAllNone(o.link);
    ModePosts(o, Safe);
    ModePosts(o, Nominal);
    HeaterPosts(o, true);
    HeaterPosts(o, false);
  }

  lemma RoutePosts(o: Obc, tc: Telecommand)
    ensures Route(o, tc).obc.link == o.link.PushAll(ServiceOut(o, tc))
  {
    PushAllOne(o.link, Now(o, IAmAlive));
    if tc.service == 8 {
      Function8Posts(o, tc);
    } else if IsOneShot(tc) && ValidList(tc.data) {
      OneShotPosts(o, Sids(tc.data));
    }
  }

  lemma FailurePosts(o: Obc, asked: bool, r: Report, code: u16)
    ensures Raise(PostIf(o.(lastFailure := code), asked, r), EVT_REJECTED, LOW, code).link
         == o.link.PushAll(AckOut(o, asked, r) + EventOut(o, EVT_REJECTED, LOW, code))
  {
    hide Raise, Link.Push;
    var failed := PostIf(o.(lastFailure := code), asked, r);
    PushAllOne(o.link, Now(o, r));
    hide Link.PushAll;
    RaisePosts(failed, EVT_REJECTED, LOW, code);
    PushAllAppend(o.link, AckOut(o, asked, r), EventOut(o, EVT_REJECTED, LOW, code));
  }

  lemma CompletePosts(o: Obc, tc: Telecommand, st: Status)
    ensures Complete(o, tc, st).link == o.link.PushAll(CompletionOut(o, tc, st))
  {
    hide Raise, AckRequested, EventOut;
    PushAllOne(o.link, Now(o, CompletionSuccess(tc.requestId)));
    FailurePosts(o, AckRequested(tc, ACK_COMPLETION), CompletionFailure(tc.requestId, st.Code()), st.Code());
  }

  /** A telecommand sends exactly this: for every input and every state. */
  lemma TcPosts(o: Obc, buf: seq<octet>)
    ensures ProcessTc(o, buf).obc.link == o.link.PushAll(TcOut(o, buf))
  {
    match Parse(buf)
    case Refused(st) =>
      var p := Now(o, AcceptanceFailure(RawRequestId(buf), st.Code()));
      var reported := Post(o.(rejected := Saturated(o.rejected as int + 1), lastFailure := st.Code()), p.report);
      PushAllOne(o.link, p);
      RaisePosts(reported, EVT_REJECTED, LOW, st.Code());
      PushAllAppend(o.link, [p], EventOut(o, EVT_REJECTED, LOW, st.Code()));
    case Parsed(tc) =>
      hide Route, ServiceOut, Complete, CompletionOut;
      var ack := AckOut(o, AckRequested(tc, ACK_ACCEPTANCE), AcceptanceSuccess(tc.requestId));
      var accepted := Accept(o, tc);
      var routed := Route(accepted, tc);
      PushAllOne(o.link, Now(o, AcceptanceSuccess(tc.requestId)));
      assert accepted.link == o.link.PushAll(ack);
      RoutePosts(accepted, tc);
      PushAllAppend(o.link, ack, ServiceOut(accepted, tc));
      CompletePosts(routed.obc, tc, routed.status);
      PushAllAppend(o.link, ack + ServiceOut(accepted, tc), CompletionOut(routed.obc, tc, routed.status));
  }

  // ---- What a telecommand leaves alone ----

  lemma AcceptFrame(o: Obc, tc: Telecommand)
    ensures Accept(o, tc) == o.(accepted := Saturated(o.accepted as int + 1), link := Accept(o, tc).link)
  {
    hide Link.Push;
  }

  lemma RejectFrame(o: Obc, buf: seq<octet>, st: Status)
    ensures Reject(o, buf, st)
         == o.(rejected := Saturated(o.rejected as int + 1), lastFailure := st.Code(),
               link := Reject(o, buf, st).link, raised := o.raised + [EventCall(EVT_REJECTED, LOW, st.Code())])
  {
    hide Raise, Link.Push, Link.PushAll;
    var counted := o.(rejected := Saturated(o.rejected as int + 1), lastFailure := st.Code());
    RaisePosts(Post(counted, AcceptanceFailure(RawRequestId(buf), st.Code())), EVT_REJECTED, LOW, st.Code());
  }

  lemma CompleteFrame(o: Obc, tc: Telecommand, st: Status)
    ensures Complete(o, tc, st)
         == o.(lastFailure := if st == Ok then o.lastFailure else st.Code(), link := Complete(o, tc, st).link,
               raised := if st == Ok then o.raised else o.raised + [EventCall(EVT_REJECTED, LOW, st.Code())])
  {
    hide Raise, Link.Push, Link.PushAll, AckRequested;
    var asked := AckRequested(tc, ACK_COMPLETION);
    RaisePosts(PostIf(o.(lastFailure := st.Code()), asked, CompletionFailure(tc.requestId, st.Code())),
               EVT_REJECTED, LOW, st.Code());
  }

  lemma {:induction false} OneShotFrame(o: Obc, sids: seq<int>)
    requires AllWithin(sids, 2)
    ensures OneShot(o, sids).obc == o.(link := OneShot(o, sids).obc.link)
    decreases |sids|
  {
    hide Link.Push;
    if sids != [] && o.link.Room() > 0 {
      OneShotFrame(Generate(o, sids[0]).obc, sids[1..]);
    }
  }

  lemma RouteFrame(o: Obc, tc: Telecommand)
    ensures var o' := Route(o, tc).obc;
      o'.lastOverflow == o.lastOverflow && o'.phase == o.phase && o'.uptime == o.uptime
  {
    hide Link.Push, Raise, ApplyHeater, SetMode, Link.PushAll;
    HeaterPosts(o, true);
    HeaterPosts(o, false);
    ModePosts(o, Safe);
    ModePosts(o, Nominal);
    if IsOneShot(tc) && ValidList(tc.data) {
      OneShotFrame(o, Sids(tc.data));
    }
  }

  /** No telecommand touches the overflow sample, the housekeeping phase or the uptime. */
  lemma TcFrame(o: Obc, buf: seq<octet>)
    ensures var o' := ProcessTc(o, buf).obc;
      o'.lastOverflow == o.lastOverflow && o'.phase == o.phase && o'.uptime == o.uptime
  {
    hide Link.Push, Route, Accept, Reject, Complete, Status.Code;
    match Parse(buf)
    case Refused(st) =>
      RejectFrame(o, buf, st);
    case Parsed(tc) =>
      AcceptFrame(o, tc);
      var routed := Route(Accept(o, tc), tc);
      RouteFrame(Accept(o, tc), tc);
      CompleteFrame(routed.obc, tc, routed.status);
  }

  // ---- Request identifiers ----

  /** A verification report names this request; any other report names none. */
  predicate Names(r: Report, requestId: u32) {
    match r
    case AcceptanceSuccess(i) => i == requestId
    case AcceptanceFailure(i, _) => i == requestId
    case CompletionSuccess(i) => i == requestId
    case CompletionFailure(i, _) => i == requestId
    case Essential(_, _, _, _) => true
    case Diagnostic(_, _, _, _, _) => true
    case Event(_, _, _) => true
    case IAmAlive => true
  }

  lemma {:induction false} OneShotNames(o: Obc, sids: seq<int>, requestId: u32)
    requires AllWithin(sids, 2)
    ensures forall i :: 0 <= i < |OneShotOut(o, sids)| ==> Names(OneShotOut(o, sids)[i].report, requestId)
    decreases |sids|
  {
    if sids != [] && o.link.Room() > 0 {
      OneShotNames(o.(link := o.link.Push(Now(o, HkReport(o, sids[0])))), sids[1..], requestId);
    }
  }

  lemma ServiceNames(o: Obc, tc: Telecommand, requestId: u32)
    ensures forall i :: 0 <= i < |ServiceOut(o, tc)| ==> Names(ServiceOut(o, tc)[i].report, requestId)
  {
    hide OneShotOut;
    if IsOneShot(tc) && ValidList(tc.data) {
      OneShotNames(o, Sids(tc.data), requestId);
    }
  }

  lemma ParsedRequestId(buf: seq<octet>)
    requires Parse(buf).Parsed?
    ensures Parse(buf).tc.requestId == RawRequestId(buf)
  {
  }

  lemma RequestIdCopied(buf: seq<octet>)
    ensures if |buf| >= 4 then PutU32(RawRequestId(buf)) == buf[..4] else RawRequestId(buf) == 0
  {
    if |buf| >= 4 {
      U32Canonical(buf, 0);
    }
  }

  /** Every verification report of a telecommand echoes its first four octets, or zero if there
      are fewer, accepted or not. */
  lemma RequestIdEchoed(o: Obc, buf: seq<octet>)
    ensures forall i :: 0 <= i < |TcOut(o, buf)| ==> Names(TcOut(o, buf)[i].report, RawRequestId(buf))
    ensures if |buf| >= 4 then PutU32(RawRequestId(buf)) == buf[..4] else RawRequestId(buf) == 0
  {
    hide ServiceOut, Route, Accept, Status.Code, RawRequestId;
    RequestIdCopied(buf);
    if Parse(buf).Parsed? {
      ParsedRequestId(buf);
      ServiceNames(Accept(o, Parse(buf).tc), Parse(buf).tc, RawRequestId(buf));
    }
  }
}
