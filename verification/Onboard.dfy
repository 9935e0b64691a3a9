/** The application: modes, thermal control, the services and the telecommand router
    (src/obc_app.c, src/svc01_verification.c, src/svc03_housekeeping.c, src/svc05_event.c,
    src/svc08_function.c, src/svc17_test.c), as functions from state to state.

    `raised` is a history variable: every call of `svc05_report`, filtered or not. */
module Onboard {
  import opened Downlink
  import opened HalHost
  import opened Octets
  import opened Reports
  import opened Status
  import opened Telecommand
  import opened TmQueue

  const HEATER_ON_DC: int := 50
  const HEATER_OFF_DC: int := 250
  const ALARM_DC: int := 400
  const HK_PERIOD: nat := 10

  const EVT_BOOT: u16 := 1
  const EVT_MODE: u16 := 2
  const EVT_REJECTED: u16 := 3
  const EVT_OVERFLOW: u16 := 4
  const EVT_HEATER: u16 := 5
  const EVT_ALARM: u16 := 6

  const INFORMATIVE: octet := 1
  const LOW: octet := 2
  const HIGH: octet := 4

  datatype Mode = Safe | Nominal
  {
    function Code(): octet {
      if Safe? then 0 else 1
    }
  }

  datatype EventCall = EventCall(id: u16, severity: octet, aux: u16)

  type HkFlags = f: seq<bool> | |f| == 2 witness [true, false]
  type EventFlags = f: seq<bool> | |f| == 8 witness seq(8, _ => true)

  datatype Obc = Obc(
    mode: Mode,
    uptime: u32,
    temperature: i16,
    heaterOn: bool,
    accepted: u16,
    rejected: u16,
    lastFailure: u16,
    alarmLatched: bool,
    lastOverflow: u16,
    hkEnabled: HkFlags,
    phase: u32,
    evEnabled: EventFlags,
    board: Board,
    link: Link,
    raised: seq<EventCall>)

  datatype Done = Done(obc: Obc, status: Status)

  predicate EventId(id: int) {
    1 <= id <= 8
  }

  predicate Severity(s: int) {
    1 <= s <= 4
  }

  // ---- Sending ----

  function Post(o: Obc, r: Report): Obc {
    o.(link := o.link.Push(Posting(r, o.board.Now())))
  }

  /** What `pus_tm_send` returns: the reports all fit a packet, so only room can be missing. */
  function SendStatus(o: Obc): Status {
    if o.link.Room() > 0 then Ok else QueueFull
  }

  /** `svc05_report` with valid arguments. */
  function Raise(o: Obc, id: u16, severity: octet, aux: u16): Obc
    requires EventId(id) && Severity(severity)
  {
    var called := o.(raised := o.raised + [EventCall(id, severity, aux)]);
    if o.evEnabled[id - 1] then Post(called, Event(id, severity, aux)) else called
  }

  // ---- Modes and heater ----

  function ApplyHeater(o: Obc, on: bool): Obc {
    if on == o.heaterOn then o
    else Raise(o.(heaterOn := on, board := o.board.(heater := on)), EVT_HEATER, INFORMATIVE, Bit(on))
  }

  function SetHeater(o: Obc, on: bool): Done {
    if o.mode.Safe? then Done(o, NotPermitted) else Done(ApplyHeater(o, on), Ok)
  }

  function SetMode(o: Obc, mode: Mode): Obc {
    if mode == o.mode then o else
    var moved := o.(mode := mode);
    Raise(if mode.Safe? then ApplyHeater(moved, false) else moved, EVT_MODE, INFORMATIVE, mode.Code())
  }

  function RaiseAlarmOnce(o: Obc): Obc {
    if o.alarmLatched then o
    else Raise(o.(alarmLatched := true), EVT_ALARM, HIGH, Unsigned(o.temperature))
  }

  function ControlLaw(o: Obc): Obc {
    if o.mode.Nominal? then
      if o.temperature >= ALARM_DC then SetMode(RaiseAlarmOnce(o), Safe)
      else if o.temperature >= HEATER_OFF_DC then ApplyHeater(o, false)
      else if o.temperature <= HEATER_ON_DC then ApplyHeater(o, true)
      else o
    else ApplyHeater(o, false)
  }

  function Thermal(o: Obc): Obc {
    var done := ControlLaw(o);
    if o.temperature < HEATER_OFF_DC then done.(alarmLatched := false) else done
  }

  // ---- Housekeeping ----

  function HkReport(o: Obc, sid: nat): Report
    requires 1 <= sid <= 2
  {
    if sid == 1 then Essential(o.mode.Nominal?, o.uptime, o.temperature, o.heaterOn)
    else Diagnostic(o.accepted, o.rejected, o.lastFailure, |o.link.queue| % 0x100, o.link.overflows)
  }

  function Generate(o: Obc, sid: nat): Done {
    if !(1 <= sid <= 2) then Done(o, UnknownSid) else Done(Post(o, HkReport(o, sid)), SendStatus(o))
  }

  function GenerateIfEnabled(o: Obc, sid: nat): Obc
    requires 1 <= sid <= 2
  {
    if o.hkEnabled[sid - 1] then Generate(o, sid).obc else o
  }

  function HkTick(o: Obc): Obc {
    var phase := (o.phase + 1) % TWO32;
    if phase < HK_PERIOD then o.(phase := phase)
    else GenerateIfEnabled(GenerateIfEnabled(o.(phase := 0), 1), 2)
  }

  // ---- One minor cycle ----

  function Acquire(o: Obc): Obc {
    o.(board := o.board.Advance(), uptime := (o.uptime + 1) % TWO32, temperature := o.board.sensor)
  }

  function NoticeOverflow(o: Obc): Obc {
    if o.link.overflows == o.lastOverflow then o
    else Raise(o.(lastOverflow := o.link.overflows), EVT_OVERFLOW, LOW, o.link.overflows)
  }

  function Tick(o: Obc): Obc {
    HkTick(NoticeOverflow(Thermal(Acquire(o))))
  }

  // ---- Services ----

  /** The flags after a list of one-based identifiers has been worked off. */
  function SetFlags(flags: seq<bool>, ids: seq<int>, value: bool): (f: seq<bool>)
    requires forall i :: 0 <= i < |ids| ==> 1 <= ids[i] <= |flags|
    ensures |f| == |flags|
  {
    if ids == [] then flags else SetFlags(flags, ids[..|ids| - 1], value)[ids[|ids| - 1] - 1 := value]
  }

  function OneShot(o: Obc, sids: seq<int>): Done
    requires forall i :: 0 <= i < |sids| ==> 1 <= sids[i] <= 2
    decreases |sids|
  {
    if sids == [] then Done(o, Ok) else
    var first := Generate(o, sids[0]);
    if first.status != Ok then first else OneShot(first.obc, sids[1..])
  }

  /** The structure identifiers of a service 3 list. */
  function Sids(data: seq<octet>): (s: seq<int>)
    requires |data| >= 1
    ensures |s| == |data| - 1
  {
    seq(|data| - 1, i requires 0 <= i < |data| - 1 => data[1 + i] as int)
  }

  /** The event identifiers of a service 5 list. */
  function EventIds(data: seq<octet>, count: nat): (s: seq<int>)
    requires |data| == 1 + 2 * count
    ensures |s| == count
  {
    seq(count, i requires 0 <= i < count => GetU16(data, 1 + 2 * i) as int)
  }

  predicate AllWithin(ids: seq<int>, max: int) {
    forall i :: 0 <= i < |ids| ==> 1 <= ids[i] <= max
  }

  function HkList(o: Obc, data: seq<octet>, enable: bool, oneShot: bool): Done {
    if |data| < 1 || |data| != 1 + data[0] as int then Done(o, BadLength)
    else if data[0] == 0 then Done(o, BadParameter)
    else if !AllWithin(Sids(data), 2) then Done(o, UnknownSid)
    else if oneShot then OneShot(o, Sids(data))
    else Done(o.(hkEnabled := SetFlags(o.hkEnabled, Sids(data), enable)), Ok)
  }

  function Housekeeping(o: Obc, tc: Telecommand): Done {
    if tc.subtype == 5 then HkList(o, tc.data, true, false)
    else if tc.subtype == 6 then HkList(o, tc.data, false, false)
    else if tc.subtype == 27 then HkList(o, tc.data, false, true)
    else Done(o, UnknownSubtype)
  }

  function EventList(o: Obc, data: seq<octet>, value: bool): Done {
    if |data| < 1 || |data| != 1 + 2 * data[0] as int then Done(o, BadLength)
    else if data[0] == 0 then Done(o, BadParameter)
    else
      var ids := EventIds(data, data[0] as int);
      if !AllWithin(ids, 8) then Done(o, UnknownEvent)
      else Done(o.(evEnabled := SetFlags(o.evEnabled, ids, value)), Ok)
  }

  function Events(o: Obc, tc: Telecommand): Done {
    if tc.subtype == 5 then EventList(o, tc.data, false)
    else if tc.subtype == 6 then EventList(o, tc.data, true)
    else Done(o, UnknownSubtype)
  }

  function Function8(o: Obc, tc: Telecommand): Done {
    if tc.subtype != 1 then Done(o, UnknownSubtype) else
    if |tc.data| < 1 then Done(o, BadLength) else
    var fid, args := tc.data[0], tc.data[1..];
    if fid == 1 then
      if |args| != 1 then Done(o, BadLength)
      else if args[0] > 1 then Done(o, BadParameter)
      else Done(SetMode(o, if args[0] == 0 then Safe else Nominal), Ok)
    else if fid == 2 then
      if |args| != 1 then Done(o, BadLength)
      else if args[0] > 1 then Done(o, BadParameter)
      else SetHeater(o, args[0] == 1)
    else if fid == 3 then
      if |args| != 2 then Done(o, BadLength)
      else Done(o.(board := o.board.(sensor := Signed(GetU16(args, 0)))), Ok)
    else if fid == 5 then
      if |args| != 6 then Done(o, BadLength)
      else Done(o.(board := o.board.SetTime(Telemetry.Cuc(GetU32(args, 0), GetU16(args, 4)))), Ok)
    else if fid == 4 then
      if |args| != 0 then Done(o, BadLength)
      else Done(o.(accepted := 0, rejected := 0, lastFailure := 0), Ok)
    else Done(o, UnknownFunction)
  }

  function Test(o: Obc, tc: Telecommand): Done {
    if tc.subtype != 1 then Done(o, UnknownSubtype)
    else if |tc.data| != 0 then Done(o, BadLength)
    else Done(Post(o, IAmAlive), SendStatus(o))
  }

  function Route(o: Obc, tc: Telecommand): Done {
    if tc.service == 3 then Housekeeping(o, tc)
    else if tc.service == 5 then Events(o, tc)
    else if tc.service == 8 then Function8(o, tc)
    else if tc.service == 17 then Test(o, tc)
    else Done(o, UnknownService)
  }

  // ---- One telecommand ----

  function PostIf(o: Obc, asked: bool, r: Report): Obc {
    if asked then Post(o, r) else o
  }

  function RawRequestId(buf: seq<octet>): u32 {
    if |buf| >= 4 then GetU32(buf, 0) else 0
  }

  function Reject(o: Obc, buf: seq<octet>, st: Status): Obc {
    var counted := o.(rejected := Saturated(o.rejected as int + 1), lastFailure := st.Code());
    Raise(Post(counted, AcceptanceFailure(RawRequestId(buf), st.Code())), EVT_REJECTED, LOW, st.Code())
  }

  function Accept(o: Obc, tc: Telecommand): Obc {
    PostIf(o.(accepted := Saturated(o.accepted as int + 1)),
           AckRequested(tc, ACK_ACCEPTANCE), AcceptanceSuccess(tc.requestId))
  }

  function Complete(o: Obc, tc: Telecommand, st: Status): Obc {
    var asked := AckRequested(tc, ACK_COMPLETION);
    if st == Ok then PostIf(o, asked, CompletionSuccess(tc.requestId))
    else
      Raise(PostIf(o.(lastFailure := st.Code()), asked, CompletionFailure(tc.requestId, st.Code())),
            EVT_REJECTED, LOW, st.Code())
  }

  function Execute(o: Obc, tc: Telecommand): Done {
    var routed := Route(Accept(o, tc), tc);
    Done(Complete(routed.obc, tc, routed.status), routed.status)
  }

  /** `obc_process_tc`. */
  function ProcessTc(o: Obc, buf: seq<octet>): Done {
    match Parse(buf)
    case Refused(st) => Done(Reject(o, buf, st), st)
    case Parsed(tc) => Execute(o, tc)
  }

  // ---- Runs ----

  /** Power-on: SAFE, heater off, only the essential report enabled, every event enabled. */
  function PoweredUp(): Obc {
    Obc(Safe, 0, POWER_ON_DC, false, 0, 0, 0, false, 0, [true, false], 0, seq(8, _ => true), PowerOn, Empty, [])
  }

  /** `obc_init`. */
  function Init(): Obc {
    Raise(PoweredUp(), EVT_BOOT, INFORMATIVE, 0)
  }

  datatype Step =
    | Command(buf: seq<octet>)
    | Cycle
    | Fetch(cap: nat)
    | Sense(value: i16)

  /** One thing that happens to the unit: a telecommand arrives, a minor cycle runs, the downlink
      takes a packet, or the thermistor changes. */
  function Apply(o: Obc, s: Step): Obc {
    match s
    case Command(buf) => ProcessTc(o, buf).obc
    case Cycle => Tick(o)
    case Fetch(cap) => o.(link := o.link.Pop(cap))
    case Sense(value) => o.(board := o.board.(sensor := value))
  }

  lemma ApplyUnfolds(o: Obc, s: Step)
    ensures s.Command? ==> Apply(o, s) == ProcessTc(o, s.buf).obc
    ensures s.Cycle? ==> Apply(o, s) == Tick(o)
  {
    hide ProcessTc, Tick;
  }

  /** The state after further steps, from any state. */
  function Onward(o: Obc, steps: seq<Step>): Obc {
    if steps == [] then o else Apply(Onward(o, steps[..|steps| - 1]), steps[|steps| - 1])
  }

  /** The state after any interleaving of steps since initialisation. */
  function Run(steps: seq<Step>): Obc {
    Onward(Init(), steps)
  }

  lemma {:induction false} OnwardAppend(o: Obc, before: seq<Step>, after: seq<Step>)
    ensures Onward(o, before + after) == Onward(Onward(o, before), after)
    decreases |after|
  {
    hide Apply;
    if after == [] {
      assert before + after == before;
    } else {
      assert (before + after)[..|before + after| - 1] == before + after[..|after| - 1];
      OnwardAppend(o, before, after[..|after| - 1]);
    }
  }
}
