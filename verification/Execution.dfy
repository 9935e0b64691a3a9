/** What a telecommand comes to, read off its octets: sections 3 and 6 to 8 of docs/ICD.md in their
    own numbers. For every accepted telecommand and every state: with which code it ends, which
    reports it sends, and what it leaves behind. */
module Execution {
  import opened Capacity
  import opened Commands
  import opened Downlink
  import opened HalHost
  import opened Interface
  import opened Octets
  import opened Onboard
  import opened Postings
  import opened Reports
  import opened Status
  import opened Telecommand
  import opened Telemetry
  import opened ThermalControl
  import opened TmQueue

  // ---- The octets ----

  function Data(buf: seq<octet>): seq<octet>
    requires |buf| >= 13
  {
    buf[11..|buf| - 2]
  }

  predicate WantsAcceptance(buf: seq<octet>)
    requires |buf| >= 13
  {
    buf[6] % 2 == 1
  }

  predicate WantsCompletion(buf: seq<octet>)
    requires |buf| >= 13
  {
    buf[6] / 8 % 2 == 1
  }

  function RequestId(buf: seq<octet>): u32
    requires |buf| >= 4
  {
    ((buf[0] as int * 256 + buf[1]) * 256 + buf[2]) * 256 + buf[3]
  }

  /** The i-th event identifier of a list. */
  function EventAt(data: seq<octet>, i: nat): nat
    requires 2 + 2 * i < |data|
  {
    data[1 + 2 * i] as int * 256 + data[2 + 2 * i]
  }

  predicate ListsStructure(data: seq<octet>, k: int) {
    exists j :: 1 <= j < |data| && data[j] == k
  }

  predicate ListsEvent(data: seq<octet>, k: int)
    requires |data| >= 1 && |data| == 1 + 2 * data[0] as int
  {
    exists i :: 0 <= i < data[0] as int && EventAt(data, i) == k
  }

  // ---- The outcome ----

  function HousekeepingCode(subtype: octet, data: seq<octet>, slots: nat): u16 {
    if subtype !in {5, 6, 27} then 10
    else if |data| < 1 || |data| != 1 + data[0] as int then 11
    else if data[0] == 0 then 12
    else if exists j :: 1 <= j < |data| && !(1 <= data[j] <= 2) then 13
    else if subtype == 27 && data[0] as int > slots then 16
    else 0
  }

  function EventCode(subtype: octet, data: seq<octet>): u16 {
    if subtype !in {5, 6} then 10
    else if |data| < 1 || |data| != 1 + 2 * data[0] as int then 11
    else if data[0] == 0 then 12
    else if exists i :: 0 <= i < data[0] as int && !(1 <= EventAt(data, i) <= 8) then 14
    else 0
  }

  /** How many octets of argument a function takes. */
  function Arguments(fid: octet): nat {
    if fid == 1 || fid == 2 then 1 else if fid == 3 then 2 else if fid == 5 then 6 else 0
  }

  function FunctionCode(subtype: octet, data: seq<octet>, safe: bool): u16 {
    if subtype != 1 then 10
    else if data == [] then 11
    else if !(1 <= data[0] <= 5) then 15
    else if |data| != 1 + Arguments(data[0]) then 11
    else if data[0] <= 2 && data[1] > 1 then 12
    else if data[0] == 2 && safe then 17
    else 0
  }

  /** The failure code of an accepted telecommand, or zero. */
  function ExecutionCode(service: octet, subtype: octet, data: seq<octet>, safe: bool, slots: nat): u16 {
    if service == 3 then HousekeepingCode(subtype, data, slots)
    else if service == 5 then EventCode(subtype, data)
    else if service == 8 then FunctionCode(subtype, data, safe)
    else if service != 17 then 9
    else if subtype != 1 then 10
    else if data != [] then 11
    else if slots == 0 then 16
    else 0
  }

  /** Free slots once the acceptance report has been sent. */
  function SlotsLeft(o: Obc, buf: seq<octet>): nat
    requires |buf| >= 13
  {
    var taken := |o.link.queue| + (if WantsAcceptance(buf) then 1 else 0);
    if taken <= 16 then 16 - taken else 0
  }

  function OutcomeCode(o: Obc, buf: seq<octet>): u16
    requires |buf| >= 13
  {
    ExecutionCode(buf[7], buf[8], Data(buf), o.mode.Safe?, SlotsLeft(o, buf))
  }

  lemma StructuresWithin(data: seq<octet>)
    requires |data| >= 1
    ensures AllWithin(Sids(data), 2) <==> forall j :: 1 <= j < |data| ==> 1 <= data[j] <= 2
  {
    assert forall j :: 1 <= j < |data| ==> data[j] as int == Sids(data)[j - 1];
  }

  lemma EventsWithin(data: seq<octet>)
    requires |data| >= 1 && |data| == 1 + 2 * data[0] as int
    ensures AllWithin(EventIds(data, data[0] as int), 8) <==>
      forall i :: 0 <= i < data[0] as int ==> 1 <= EventAt(data, i) <= 8
  {
    var ids := EventIds(data, data[0] as int);
    assert forall i {:trigger ids[i]} {:trigger EventAt(data, i)} :: 0 <= i < |ids| ==> ids[i] == EventAt(data, i);
  }

  lemma HousekeepingOutcome(o: Obc, tc: Telecommand)
    ensures Housekeeping(o, tc).status.Code() == HousekeepingCode(tc.subtype, tc.data, o.link.Room())
  {
    hide OneShot, SetFlags, AllWithin;
    if |tc.data| >= 1 {
      StructuresWithin(tc.data);
      if ListOk(tc.data) {
        OneShotLength(o, Sids(tc.data));
      }
    }
  }

  predicate ListOk(data: seq<octet>) {
    |data| >= 1 && AllWithin(Sids(data), 2)
  }

  lemma EventsOutcome(o: Obc, tc: Telecommand)
    ensures Events(o, tc).status.Code() == EventCode(tc.subtype, tc.data)
  {
    hide SetFlags, AllWithin;
    if |tc.data| >= 1 && |tc.data| == 1 + 2 * tc.data[0] as int {
      EventsWithin(tc.data);
    }
  }

  lemma FunctionOutcome(o: Obc, tc: Telecommand)
    ensures Function8(o, tc).status.Code() == FunctionCode(tc.subtype, tc.data, o.mode.Safe?)
  {
    hide SetMode, ApplyHeater, Board.SetTime, GetU16, GetU32;
  }

  lemma RouteOutcome(o: Obc, tc: Telecommand)
    ensures Route(o, tc).status.Code()
         == ExecutionCode(tc.service, tc.subtype, tc.data, o.mode.Safe?, o.link.Room())
  {
    HousekeepingOutcome(o, tc);
    EventsOutcome(o, tc);
    FunctionOutcome(o, tc);
    hide Housekeeping, Events, Function8, HousekeepingCode, EventCode, FunctionCode, Post;
  }

  lemma Acknowledging(buf: seq<octet>)
    requires Parse(buf).Parsed?
    ensures |buf| >= 13
    ensures AckRequested(Parse(buf).tc, ACK_ACCEPTANCE) <==> WantsAcceptance(buf)
    ensures AckRequested(Parse(buf).tc, ACK_COMPLETION) <==> WantsCompletion(buf)
  {
    TcOctets(buf);
    hide Parse;
    var x: int := buf[6];
    assert x % 16 % 2 == x % 2;
    assert x % 16 / 8 % 2 == x / 8 % 2;
  }

  lemma RoomAccepted(o: Obc, buf: seq<octet>)
    requires Parse(buf).Parsed?
    ensures |buf| >= 13 && Accept(o, Parse(buf).tc).link.Room() == SlotsLeft(o, buf)
  {
    Acknowledging(buf);
    hide Parse, AckRequested;
  }

  /** The outcome of every accepted telecommand in every state. */
  lemma OutcomeExact(o: Obc, buf: seq<octet>)
    requires Parse(buf).Parsed?
    ensures |buf| >= 13 && ProcessTc(o, buf).status.Code() == OutcomeCode(o, buf)
  {
    var tc := Parse(buf).tc;
    TcOctets(buf);
    RoomAccepted(o, buf);
    AcceptFrame(o, tc);
    RouteOutcome(Accept(o, tc), tc);
    hide Parse, Route, Accept, Complete, ExecutionCode, Status.Code;
  }

  // ---- The reports ----

  /** These reports, all of this time. */
  function At(time: Cuc, reports: seq<Report>): (ps: seq<Posting>)
    ensures |ps| == |reports|
  {
    seq(|reports|, i requires 0 <= i < |reports| => Posting(reports[i], time))
  }

  function If(condition: bool, r: Report): seq<Report> {
    if condition then [r] else []
  }

  function HeaterReports(o: Obc, on: bool): seq<Report> {
    If(on != o.heaterOn && o.evEnabled[4], Event(5, 1, if on then 1 else 0))
  }

  function ModeReports(o: Obc, nominal: bool): seq<Report> {
    if nominal == o.mode.Nominal? then [] else
    If(!nominal && o.heaterOn && o.evEnabled[4], Event(5, 1, 0))
    + If(o.evEnabled[1], Event(2, 1, if nominal then 1 else 0))
  }

  /** The i-th report of a one-shot list: that of the structure the (i + 1)-th octet names. The
      queue holds the acceptance report by then, if it found room, and the i reports before. */
  function OneShotReport(o: Obc, buf: seq<octet>, i: nat): Report
    requires |buf| >= 13 && 1 + i < |Data(buf)|
  {
    var acknowledged, full := WantsAcceptance(buf), |o.link.queue| >= 16;
    if Data(buf)[1 + i] == 1 then Essential(o.mode.Nominal?, o.uptime, o.temperature, o.heaterOn)
    else
      Diagnostic(Saturated(o.accepted as int + 1), o.rejected, o.lastFailure,
                 (|o.link.queue| + (if acknowledged && !full then 1 else 0) + i) % 0x100,
                 if acknowledged && full then Saturated(o.link.overflows as int + 1) else o.link.overflows)
  }

  /** One per entry, up to and including the first that finds no room. */
  function OneShotReports(o: Obc, buf: seq<octet>): seq<Report>
    requires |buf| >= 13 && |Data(buf)| >= 1
  {
    var n, slots := |Data(buf)| - 1, SlotsLeft(o, buf);
    seq(if n <= slots then n else slots + 1, i requires 0 <= i < n => OneShotReport(o, buf, i))
  }

  /** What the service sends between acceptance and completion. */
  function ServiceReports(o: Obc, buf: seq<octet>): seq<Report>
    requires |buf| >= 13
  {
    var service, data, code := buf[7], Data(buf), OutcomeCode(o, buf);
    if service == 3 && buf[8] == 27 && (code == 0 || code == 16) then OneShotReports(o, buf)
    else if service == 17 && (code == 0 || code == 16) then [IAmAlive]
    else if service == 8 && code == 0 && data[0] == 1 then ModeReports(o, data[1] == 1)
    else if service == 8 && code == 0 && data[0] == 2 then HeaterReports(o, data[1] == 1)
    else []
  }

  function ClosingReports(o: Obc, buf: seq<octet>): seq<Report>
    requires |buf| >= 13
  {
    var code, id := OutcomeCode(o, buf), RequestId(buf);
    If(WantsCompletion(buf), if code == 0 then CompletionSuccess(id) else CompletionFailure(id, code))
    + If(code != 0 && o.evEnabled[2], Event(3, 2, code))
  }

  lemma {:induction false} OneShotIndexed(o: Obc, sids: seq<int>, i: nat)
    requires AllWithin(sids, 2) && i < |OneShotOut(o, sids)|
    ensures i < |sids| && i <= o.link.Room()
    ensures OneShotOut(o, sids)[i] == Now(o,
      if sids[i] == 1 then Essential(o.mode.Nominal?, o.uptime, o.temperature, o.heaterOn)
      else Diagnostic(o.accepted, o.rejected, o.lastFailure, (|o.link.queue| + i) % 0x100, o.link.overflows))
    decreases |sids|
  {
    if i > 0 {
      OneShotIndexed(o.(link := o.link.Push(Now(o, HkReport(o, sids[0])))), sids[1..], i - 1);
    }
  }

  lemma HeaterSends(o: Obc, on: bool)
    ensures HeaterOut(o, on) == At(o.board.Now(), HeaterReports(o, on))
  {
    hide Board.Now;
  }

  lemma ModeSends(o: Obc, m: Mode)
    ensures ModeOut(o, m) == At(o.board.Now(), ModeReports(o, m.Nominal?))
  {
    hide Board.Now;
  }

  lemma AcceptedLink(o: Obc, buf: seq<octet>)
    requires Parse(buf).Parsed? && |o.link.queue| <= 16
    ensures |buf| >= 13
    ensures var a := Accept(o, Parse(buf).tc); var full := |o.link.queue| >= 16;
      && |a.link.queue| == |o.link.queue| + (if WantsAcceptance(buf) && !full then 1 else 0)
      && a.link.overflows
         == (if WantsAcceptance(buf) && full then Saturated(o.link.overflows as int + 1) else o.link.overflows)
  {
    Acknowledging(buf);
    hide Parse, AckRequested;
  }

  lemma OneShotAt(o: Obc, buf: seq<octet>, i: nat)
    requires Parse(buf).Parsed? && |o.link.queue| <= 16
    requires IsOneShot(Parse(buf).tc) && ValidList(Parse(buf).tc.data)
    requires i < |OneShotOut(Accept(o, Parse(buf).tc), Sids(Parse(buf).tc.data))|
    ensures |buf| >= 13 && 1 + i < |Data(buf)|
    ensures OneShotOut(Accept(o, Parse(buf).tc), Sids(Parse(buf).tc.data))[i]
         == Posting(OneShotReport(o, buf, i), o.board.Now())
  {
    hide Parse, Accept, OneShotOut, Board.Now, WantsAcceptance, Saturated, AllWithin;
    var tc := Parse(buf).tc;
    TcOctets(buf);
    AcceptedLink(o, buf);
    AcceptFrame(o, tc);
    OneShotIndexed(Accept(o, tc), Sids(tc.data), i);
    assert Sids(tc.data)[i] == Data(buf)[1 + i] as int;
    hide Sids, Data, ValidList;
  }

  lemma OneShotSends(o: Obc, buf: seq<octet>)
    requires Parse(buf).Parsed? && |o.link.queue| <= 16
    requires IsOneShot(Parse(buf).tc) && ValidList(Parse(buf).tc.data)
    ensures |buf| >= 13 && |Data(buf)| >= 1
    ensures OneShotOut(Accept(o, Parse(buf).tc), Sids(Parse(buf).tc.data))
         == At(o.board.Now(), OneShotReports(o, buf))
  {
    var tc := Parse(buf).tc;
    TcOctets(buf);
    RoomAccepted(o, buf);
    var a := Accept(o, tc);
    hide Parse, Accept, OneShotOut, Board.Now, OneShotReport, SlotsLeft;
    var sids, out := Sids(tc.data), OneShotOut(a, Sids(tc.data));
    OneShotLength(a, sids);
    forall i | 0 <= i < |out|
      ensures out[i] == Posting(OneShotReport(o, buf, i), o.board.Now())
    {
      OneShotAt(o, buf, i);
    }
  }

  lemma FunctionSends(o: Obc, tc: Telecommand)
    requires tc.service == 8
    ensures var code, data := FunctionCode(tc.subtype, tc.data, o.mode.Safe?), tc.data;
      ServiceOut(o, tc) == At(o.board.Now(),
        if code == 0 && data[0] == 1 then ModeReports(o, data[1] == 1)
        else if code == 0 && data[0] == 2 then HeaterReports(o, data[1] == 1)
        else [])
  {
    hide Board.Now, HeaterOut, ModeOut, HeaterReports, ModeReports;
    if |tc.data| == 2 {
      HeaterSends(o, tc.data[1] == 1);
      ModeSends(o, if tc.data[1] == 0 then Safe else Nominal);
    }
  }

  /** A one-shot list has something to send exactly if its code is zero or QUEUE_FULL. */
  lemma ListSendsOrNot(tc: Telecommand, slots: nat)
    requires IsOneShot(tc)
    ensures ValidList(tc.data) <==> HousekeepingCode(27, tc.data, slots) in {0, 16}
  {
    hide AllWithin;
    if |tc.data| >= 1 {
      StructuresWithin(tc.data);
    }
  }

  lemma OthersSend(o: Obc, tc: Telecommand)
    requires !(IsOneShot(tc) && ValidList(tc.data)) && tc.service != 8
    ensures ServiceOut(o, tc) == if tc.service == 17 && tc.subtype == 1 && tc.data == [] then [Now(o, IAmAlive)] else []
  {
    hide Board.Now;
  }

  lemma ServiceSends(o: Obc, buf: seq<octet>)
    requires Parse(buf).Parsed? && |o.link.queue| <= 16
    ensures |buf| >= 13
    ensures ServiceOut(Accept(o, Parse(buf).tc), Parse(buf).tc) == At(o.board.Now(), ServiceReports(o, buf))
  {
    hide Parse, Accept, Board.Now, HeaterOut, ModeOut, HeaterReports, ModeReports, OneShotOut, OneShotReports,
         AllWithin, ValidList, HousekeepingCode, EventCode, FunctionCode, SlotsLeft;
    var tc := Parse(buf).tc;
    TcOctets(buf);
    AcceptFrame(o, tc);
    var a := Accept(o, tc);
    if tc.service == 8 {
      FunctionSends(a, tc);
      SameSteering(o, a);
    } else if IsOneShot(tc) {
      ListSendsOrNot(tc, SlotsLeft(o, buf));
      if ValidList(tc.data) {
        ValidNonempty(tc.data);
        OneShotSends(o, buf);
      } else {
        OthersSend(a, tc);
      }
    } else {
      OthersSend(a, tc);
    }
  }

  lemma ValidNonempty(data: seq<octet>)
    requires ValidList(data)
    ensures |data| >= 1
  {
  }

  lemma SameSteering(o: Obc, a: Obc)
    requires a.mode == o.mode && a.heaterOn == o.heaterOn && a.evEnabled == o.evEnabled
    ensures forall on :: ModeReports(a, on) == ModeReports(o, on) && HeaterReports(a, on) == HeaterReports(o, on)
  {
  }

  lemma CompletionForm(o: Obc, tc: Telecommand, st: Status)
    ensures CompletionOut(o, tc, st)
         == At(o.board.Now(),
               If(AckRequested(tc, ACK_COMPLETION),
                  if st == Ok then CompletionSuccess(tc.requestId) else CompletionFailure(tc.requestId, st.Code()))
               + If(st != Ok && o.evEnabled[2], Event(3, 2, st.Code())))
  {
    hide Board.Now, AckRequested, Status.Code;
  }

  /** Completion reports leave the board alone, and a failed service leaves the flags alone. */
  lemma RoutedState(o: Obc, tc: Telecommand)
    ensures var routed := Route(Accept(o, tc), tc);
      && Execute(o, tc).status == routed.status && Execute(o, tc).obc.board == routed.obc.board
      && (routed.status != Ok ==> routed.obc.evEnabled == o.evEnabled)
  {
    var routed := Route(Accept(o, tc), tc);
    CompleteFrame(routed.obc, tc, routed.status);
    AcceptFrame(o, tc);
    if routed.status != Ok {
      RouteFailure(Accept(o, tc), tc);
    }
    hide Accept, Route, Complete, Status.Code;
  }

  lemma ZeroIsOk(st: Status)
    ensures st.Code() == 0 <==> st == Ok
  {
  }

  lemma ClosingSends(o: Obc, buf: seq<octet>)
    requires Parse(buf).Parsed?
    ensures |buf| >= 13
    ensures var tc := Parse(buf).tc; var routed := Route(Accept(o, tc), tc);
      CompletionOut(routed.obc, tc, routed.status) == At(ProcessTc(o, buf).obc.board.Now(), ClosingReports(o, buf))
  {
    hide Parse, Accept, Route, Execute, AckRequested, Status.Code, CompletionOut, At, WantsCompletion, OutcomeCode,
         Board.Now;
    var tc := Parse(buf).tc;
    var routed := Route(Accept(o, tc), tc);
    TcOctets(buf);
    Acknowledging(buf);
    OutcomeExact(o, buf);
    RoutedState(o, tc);
    CompletionForm(routed.obc, tc, routed.status);
    ZeroIsOk(routed.status);
  }

  lemma AtAppend(time: Cuc, a: seq<Report>, b: seq<Report>)
    ensures At(time, a + b) == At(time, a) + At(time, b)
  {
  }

  lemma AckForm(o: Obc, buf: seq<octet>)
    requires Parse(buf).Parsed?
    ensures |buf| >= 13
    ensures var tc := Parse(buf).tc;
      AckOut(o, AckRequested(tc, ACK_ACCEPTANCE), AcceptanceSuccess(tc.requestId))
      == At(o.board.Now(), If(WantsAcceptance(buf), AcceptanceSuccess(RequestId(buf))))
  {
    TcOctets(buf);
    Acknowledging(buf);
    hide Parse, AckRequested, WantsAcceptance, Board.Now;
  }

  /** What every accepted telecommand sends, in every state: the acceptance report if asked for;
      what its service says; the completion report if asked for, (1,7) exactly if it succeeded and
      (1,8) with the code otherwise; and after a failure event 3 with the code. The last ones are
      stamped with the time the command leaves behind. */
  lemma ReportsExact(o: Obc, buf: seq<octet>)
    requires Parse(buf).Parsed? && |o.link.queue| <= 16
    ensures |buf| >= 13
    ensures TcOut(o, buf)
         == At(o.board.Now(), If(WantsAcceptance(buf), AcceptanceSuccess(RequestId(buf))) + ServiceReports(o, buf))
            + At(ProcessTc(o, buf).obc.board.Now(), ClosingReports(o, buf))
    ensures ProcessTc(o, buf).obc.link == o.link.PushAll(TcOut(o, buf))
  {
    var tc := Parse(buf).tc;
    var acceptance := If(WantsAcceptance(buf), AcceptanceSuccess(RequestId(buf)));
    TcPosts(o, buf);
    AckForm(o, buf);
    ServiceSends(o, buf);
    ClosingSends(o, buf);
    AtAppend(o.board.Now(), acceptance, ServiceReports(o, buf));
    hide Parse, Accept, Route, ProcessTc, Link.PushAll, CompletionOut, ServiceOut, AckOut, At, AckRequested,
         ServiceReports, ClosingReports, WantsAcceptance, RequestId, Board.Now;
  }

  /** And what a refused string sends: the rejection report with the code of its first defect and
      its first four octets, zero if there are fewer, and event 3. */
  lemma RefusalExact(o: Obc, buf: seq<octet>)
    requires Parse(buf).Refused?
    ensures var code := ProcessTc(o, buf).status.Code();
      && code == Parse(buf).status.Code() != 0
      && TcOut(o, buf)
         == At(o.board.Now(), [AcceptanceFailure(if |buf| >= 4 then RequestId(buf) else 0, code)]
                              + If(o.evEnabled[2], Event(3, 2, code)))
      && ProcessTc(o, buf).obc.link == o.link.PushAll(TcOut(o, buf))
  {
    hide Parse, Reject, Link.PushAll, Status.Code, Board.Now;
    TcPosts(o, buf);
    RefusalIsNotOk(buf);
    ZeroIsOk(Parse(buf).status);
  }

  // ---- Acknowledgements ----

  ghost predicate Silent(reports: seq<Report>) {
    forall i :: 0 <= i < |reports| ==> reports[i].Service() != 1
  }

  lemma {:induction false} SilentlySent(time: Cuc, reports: seq<Report>)
    requires Silent(reports)
    ensures OfService(1, At(time, reports)) == []
  {
    if reports != [] {
      var n := |reports| - 1;
      assert At(time, reports)[..n] == At(time, reports[..n]);
      SilentlySent(time, reports[..n]);
    }
  }

  lemma VerificationSent(time: Cuc, condition: bool, r: Report)
    requires r.Service() == 1
    ensures OfService(1, At(time, If(condition, r))) == If(condition, r)
  {
    var ps := At(time, If(condition, r));
    assert |ps| == 1 ==> ps[..0] == [];
  }

  lemma SteeringIsSilent(o: Obc, on: bool)
    ensures Silent(HeaterReports(o, on)) && Silent(ModeReports(o, on))
  {
  }

  lemma OneShotIsSilent(o: Obc, buf: seq<octet>)
    requires |buf| >= 13 && |Data(buf)| >= 1
    ensures Silent(OneShotReports(o, buf))
  {
    hide SlotsLeft, Saturated;
  }

  lemma ServiceIsSilent(o: Obc, buf: seq<octet>)
    requires |buf| >= 13
    ensures Silent(ServiceReports(o, buf))
  {
    hide OneShotReports, HeaterReports, ModeReports;
    var data := Data(buf);
    if buf[7] == 3 && |data| >= 1 {
      OneShotIsSilent(o, buf);
    } else if buf[7] == 8 && |data| >= 2 {
      SteeringIsSilent(o, data[1] == 1);
    }
  }

  lemma Verifications(now: Cuc, first: seq<Report>, service: seq<Report>,
                      after: Cuc, second: seq<Report>, last: seq<Report>)
    requires OfService(1, At(now, first)) == first && OfService(1, At(after, second)) == second
    requires Silent(service) && Silent(last)
    ensures OfService(1, At(now, first + service) + At(after, second + last)) == first + second
  {
    hide At, OfService, Silent;
    AtAppend(now, first, service);
    AtAppend(after, second, last);
    OfServiceAppend(1, At(now, first + service), At(after, second + last));
    OfServiceAppend(1, At(now, first), At(now, service));
    OfServiceAppend(1, At(after, second), At(after, last));
    SilentlySent(now, service);
    SilentlySent(after, last);
  }

  /** The verification reports of an accepted telecommand are exactly these: (1,1) if bit 0 of its
      acknowledgement flags is set; (1,7), or (1,8) after a failure, if bit 3 is. */
  lemma AcknowledgedExactly(o: Obc, buf: seq<octet>)
    requires Parse(buf).Parsed? && |o.link.queue| <= 16
    ensures |buf| >= 13
    ensures var id, code := RequestId(buf), OutcomeCode(o, buf);
      OfService(1, TcOut(o, buf))
      == (if buf[6] % 2 == 1 then [AcceptanceSuccess(id)] else [])
         + (if buf[6] / 8 % 2 == 0 then [] else if code == 0 then [CompletionSuccess(id)]
            else [CompletionFailure(id, code)])
  {
    hide Parse, TcOut, ProcessTc, At, OfService, ServiceReports, OutcomeCode, RequestId, Board.Now,
         Link.PushAll, Silent;
    ReportsExact(o, buf);
    var id, code := RequestId(buf), OutcomeCode(o, buf);
    var now, after := o.board.Now(), ProcessTc(o, buf).obc.board.Now();
    var completion := if code == 0 then CompletionSuccess(id) else CompletionFailure(id, code);
    VerificationSent(now, WantsAcceptance(buf), AcceptanceSuccess(id));
    VerificationSent(after, WantsCompletion(buf), completion);
    ServiceIsSilent(o, buf);
    RejectionIsSilent(code != 0 && o.evEnabled[2], code);
    Verifications(now, If(WantsAcceptance(buf), AcceptanceSuccess(id)), ServiceReports(o, buf),
                  after, If(WantsCompletion(buf), completion), If(code != 0 && o.evEnabled[2], Event(3, 2, code)));
  }

  lemma RejectionIsSilent(condition: bool, code: u16)
    ensures Silent(If(condition, Event(3, 2, code)))
  {
  }
}
