/** The flight software as it runs: the file-scope statics of src/obc_app.c and the services as
    the fields of one object, every function a method that changes them in place. Each method is
    proved to take the state exactly where the function of the same name in `Onboard` takes it. */
module Flight {
  import opened Crc
  import opened Downlink
  import opened HalHost
  import opened Octets
  import opened Onboard
  import opened PusTm
  import opened Reports
  import opened SpacePacket
  import opened Status
  import opened Telecommand
  import opened Telemetry

  /** `pus_tc_parse` with the checksum computed by the flight loop. */
  method ParseTc(buf: seq<octet>) returns (r: ParseResult)
    ensures r == Parse(buf)
  {
    hide Crc16;
    if |buf| < MIN_LEN {
      return Refused(Truncated);
    }
    var prim := Unpack(buf);
    var total := prim.TotalLength();
    if total != |buf| {
      return Refused(BadLength);
    }
    var computed := ComputeCrc16(buf[..total - CRC_LEN]);
    var received := GetU16(buf, total - CRC_LEN);
    if computed != received {
      return Refused(BadCrc);
    }
    if prim.version != 0 {
      return Refused(BadVersion);
    }
    if prim.packetType != 1 {
      return Refused(BadPacketType);
    }
    if prim.secHdrFlag != 1 {
      return Refused(NoSecHeader);
    }
    if prim.apid != APID {
      return Refused(BadApid);
    }
    if buf[6] / 0x10 != PUS_VERSION_C {
      return Refused(BadVersion);
    }
    r := Parsed(Telecommand(prim, buf[6] / 0x10, buf[6] % 0x10, buf[7], buf[8], GetU16(buf, 9),
                            buf[11..total - CRC_LEN], GetU32(buf, 0)));
  }

  class Flight {
    const hal: Hal
    const tm: PusTm

    // s_state
    var mode: Mode
    var uptime: u32
    var temperature: i16
    var heaterOn: bool
    var accepted: u16
    var rejected: u16
    var lastFailure: u16

    var alarmLatched: bool
    var lastOverflow: u16

    const hkEnabled: array<bool>
    var phase: u32
    const evEnabled: array<bool>

    ghost var raised: seq<EventCall>
    ghost const Repr: set<object>

    ghost predicate Valid()
      reads this, Repr
    {
      && Repr == {this, hal, tm, hkEnabled, evEnabled} + tm.Repr
      && tm in Repr && tm.queue in Repr && tm.queue.Repr <= Repr
      && tm.hal == hal && tm.Valid()
      && this !in tm.Repr && hal !in tm.Repr && hkEnabled !in tm.Repr && evEnabled !in tm.Repr
      && hkEnabled != evEnabled && hkEnabled.Length == 2 && evEnabled.Length == 8
    }

    ghost function Model(): Obc
      requires Valid()
      reads this, Repr
    {
      Obc(mode, uptime, temperature, heaterOn, accepted, rejected, lastFailure, alarmLatched, lastOverflow,
          hkEnabled[..], phase, evEnabled[..], hal.Model(), tm.link, raised)
    }

    // ---- Sending ----

    method Send(service: octet, subtype: octet, src: seq<octet>, ghost r: Report) returns (st: Status)
      requires Valid()
      requires service == r.Service() && subtype == r.Subtype() && src == r.Data()
      modifies Repr
      ensures Valid() && Model() == Post(old(Model()), r) && st == SendStatus(old(Model()))
    {
      hide Link.Push, Shown, Report.Service, Report.Subtype, Report.Data;
      st := tm.Send(service, subtype, src, r);
    }

    /** `svc05_report`. */
    method ReportEvent(id: u16, severity: octet, aux: u16) returns (st: Status)
      requires Valid()
      modifies Repr
      ensures Valid()
      ensures !(1 <= id <= 8) ==> st == UnknownEvent && Model() == old(Model())
      ensures 1 <= id <= 8 && !(1 <= severity <= 4) ==> st == BadParameter && Model() == old(Model())
      ensures 1 <= id <= 8 && 1 <= severity <= 4 ==> Model() == Raise(old(Model()), id, severity, aux)
    {
      hide Link.Push, Shown;
      if !(1 <= id <= 8) {
        return UnknownEvent;
      }
      if severity < 1 || severity > 4 {
        return BadParameter;
      }
      raised := raised + [EventCall(id, severity, aux)];
      if !evEnabled[id - 1] {
        return Ok;
      }
      st := Send(5, severity, PutU16(id) + PutU16(aux), Event(id, severity, aux));
    }

    // ---- Start-up ----

    constructor ()
      ensures Valid() && fresh(Repr) && Model() == Onboard.Init()
    {
      hide PusTm.Valid, Flight.Model, Hal.Model, Onboard.Init;
      var platform := new Hal();
      var telemetry := new PusTm(platform);
      var hk := new bool[2](_ => false);
      var ev := new bool[8](_ => false);
      hal, tm, hkEnabled, evEnabled := platform, telemetry, hk, ev;
      mode, uptime, temperature, heaterOn := Safe, 0, 0, false;
      accepted, rejected, lastFailure := 0, 0, 0;
      alarmLatched, lastOverflow, phase, raised := false, 0, 0, [];
      Repr := {this, platform, telemetry, hk, ev} + telemetry.Repr;
      new;
      Init();
    }

    /** `obc_init`. */
    method Init()
      requires Valid()
      modifies Repr
      ensures Valid() && Model() == Onboard.Init()
    {
      hide Raise, PoweredUp;
      Reset();
      var _ := ReportEvent(EVT_BOOT, INFORMATIVE, 0);
    }

    /** Everything `obc_init` does before it reports. */
    method Reset()
      requires Valid()
      modifies Repr
      ensures Valid() && Model() == PoweredUp()
    {
      hide Shown;
      StartPlatform();
      HkInit();
      EventInit();
      ResetState();
    }

    method StartPlatform()
      requires Valid()
      modifies hal, tm.Repr
      ensures Valid() && hal.Model() == PowerOn && tm.link == Empty
    {
      hide Shown;
      hal.TimeInit();
      tm.Restart();
    }

    method ResetState()
      requires hal.Model() == PowerOn
      modifies this`mode, this`uptime, this`temperature, this`heaterOn, this`accepted, this`rejected, this`lastFailure
      modifies this`alarmLatched, this`lastOverflow, this`raised, hal
      ensures hal.Model() == PowerOn
      ensures mode == Safe && uptime == 0 && temperature == POWER_ON_DC && !heaterOn
      ensures accepted == 0 && rejected == 0 && lastFailure == 0
      ensures !alarmLatched && lastOverflow == 0 && raised == []
    {
      mode, uptime, temperature, heaterOn := Safe, 0, hal.temperature, false;
      accepted, rejected, lastFailure := 0, 0, 0;
      hal.SetHeater(false);
      alarmLatched, lastOverflow, raised := false, 0, [];
    }

    /** `svc03_init`. */
    method HkInit()
      requires Valid()
      modifies this`phase, hkEnabled
      ensures Valid() && hkEnabled[..] == [true, false] && phase == 0
    {
      for i := 0 to hkEnabled.Length
        invariant forall k :: 0 <= k < i ==> !hkEnabled[k]
      {
        hkEnabled[i] := false;
      }
      hkEnabled[0] := true;
      phase := 0;
    }

    /** `svc05_init`. */
    method EventInit()
      requires Valid()
      modifies evEnabled
      ensures Valid() && evEnabled[..] == seq(8, _ => true)
    {
      for i := 0 to evEnabled.Length
        invariant forall k :: 0 <= k < i ==> evEnabled[k]
      {
        evEnabled[i] := true;
      }
    }

    // ---- Modes and heater ----

    method ApplyHeater(on: bool)
      requires Valid()
      modifies Repr
      ensures Valid() && Model() == Onboard.ApplyHeater(old(Model()), on)
    {
      hide Link.Push, Shown, Raise;
      if on == heaterOn {
        return;
      }
      hal.SetHeater(on);
      heaterOn := on;
      var _ := ReportEvent(EVT_HEATER, INFORMATIVE, Bit(on));
    }

    method SetHeater(on: bool) returns (st: Status)
      requires Valid()
      modifies Repr
      ensures Valid() && Done(Model(), st) == Onboard.SetHeater(old(Model()), on)
    {
      hide Link.Push, Shown, Onboard.ApplyHeater;
      if mode == Safe {
        return NotPermitted;
      }
      ApplyHeater(on);
      st := Ok;
    }

    method SetMode(m: Mode) returns (st: Status)
      requires Valid()
      modifies Repr
      ensures Valid() && st == Ok && Model() == Onboard.SetMode(old(Model()), m)
    {
      hide Link.Push, Shown, Raise, Onboard.ApplyHeater;
      st := Ok;
      if m == mode {
        return;
      }
      mode := m;
      if m == Safe {
        ApplyHeater(false);
      }
      var _ := ReportEvent(EVT_MODE, INFORMATIVE, m.Code());
    }

    method ThermalControl()
      requires Valid()
      modifies Repr
      ensures Valid() && Model() == Thermal(old(Model()))
    {
      hide Link.Push, Shown, Raise, Onboard.ApplyHeater, Onboard.SetMode;
      var t := temperature;
      ThermalFrames(Model());
      if mode == Nominal {
        if t >= ALARM_DC {
          if !alarmLatched {
            alarmLatched := true;
            var _ := ReportEvent(EVT_ALARM, HIGH, Unsigned(t));
          }
          var _ := SetMode(Safe);
        } else if t >= HEATER_OFF_DC {
          ApplyHeater(false);
        } else if t <= HEATER_ON_DC {
          ApplyHeater(true);
        }
      } else {
        ApplyHeater(false);
      }
      if t < HEATER_OFF_DC {
        alarmLatched := false;
      }
    }

    // ---- Housekeeping ----

    /** `svc03_generate`. */
    method Generate(sid: nat) returns (st: Status)
      requires Valid() && sid < 0x100
      modifies Repr
      ensures Valid() && Done(Model(), st) == Onboard.Generate(old(Model()), sid)
    {
      hide Link.Push;
      if !(1 <= sid <= 2) {
        return UnknownSid;
      }
      ghost var report := HkReport(Model(), sid);
      var data;
      if sid == 1 {
        data := [1, mode.Code()] + PutU32(uptime) + PutU16(Unsigned(temperature)) + [Bit(heaterOn)];
      } else {
        data := [2] + PutU16(accepted) + PutU16(rejected) + PutU16(lastFailure)
                + [tm.queue.count % 0x100] + PutU16(tm.queue.overflows);
      }
      hide Shown;
      st := Send(3, 25, data, report);
    }

    method GenerateIfEnabled(sid: nat)
      requires Valid() && 1 <= sid <= 2
      modifies Repr
      ensures Valid() && Model() == Onboard.GenerateIfEnabled(old(Model()), sid)
    {
      hide Link.Push, Shown, Onboard.Generate;
      if hkEnabled[sid - 1] {
        var _ := Generate(sid);
      }
    }

    /** `svc03_tick`. */
    method HkTick()
      requires Valid()
      modifies Repr
      ensures Valid() && Model() == Onboard.HkTick(old(Model()))
    {
      hide Link.Push, Shown, Onboard.GenerateIfEnabled;
      phase := (phase + 1) % TWO32;
      if phase < HK_PERIOD {
        return;
      }
      phase := 0;
      ghost var due := Model();
      for sid := 1 to 3
        invariant Valid()
        invariant Model() == if sid == 1 then due
                             else if sid == 2 then Onboard.GenerateIfEnabled(due, 1)
                             else Onboard.GenerateIfEnabled(Onboard.GenerateIfEnabled(due, 1), 2)
      {
        GenerateIfEnabled(sid);
      }
    }

    /** The overflow sampling of `obc_tick`. */
    method NoticeOverflow()
      requires Valid()
      modifies Repr
      ensures Valid() && Model() == Onboard.NoticeOverflow(old(Model()))
    {
      ShownNumbers(tm.link, tm.seqCount, tm.msgCounter[..], tm.queue.contents, tm.queue.overflows);
      hide Link.Push, Shown, Raise;
      var overflows := tm.queue.overflows;
      if overflows != lastOverflow {
        lastOverflow := overflows;
        var _ := ReportEvent(EVT_OVERFLOW, LOW, overflows);
      }
    }

    /** `obc_tick`. */
    method Tick()
      requires Valid()
      modifies Repr
      ensures Valid() && Model() == Onboard.Tick(old(Model()))
    {
      hide Link.Push, Shown, Thermal, Onboard.NoticeOverflow, Onboard.HkTick;
      hal.TimeAdvance();
      uptime := (uptime + 1) % TWO32;
      temperature := hal.temperature;
      ThermalControl();
      NoticeOverflow();
      HkTick();
    }

    // ---- Service 1 ----

    method AcceptanceSuccess(tc: Telecommand)
      requires Valid()
      modifies Repr
      ensures Valid()
      ensures Model() == PostIf(old(Model()), AckRequested(tc, ACK_ACCEPTANCE), Report.AcceptanceSuccess(tc.requestId))
    {
      hide Link.Push, Shown;
      if AckRequested(tc, ACK_ACCEPTANCE) {
        var _ := Send(1, 1, PutU32(tc.requestId), Report.AcceptanceSuccess(tc.requestId));
      }
    }

    method CompletionSuccess(tc: Telecommand)
      requires Valid()
      modifies Repr
      ensures Valid()
      ensures Model() == PostIf(old(Model()), AckRequested(tc, ACK_COMPLETION), Report.CompletionSuccess(tc.requestId))
    {
      hide Link.Push, Shown;
      if AckRequested(tc, ACK_COMPLETION) {
        var _ := Send(1, 7, PutU32(tc.requestId), Report.CompletionSuccess(tc.requestId));
      }
    }

    method CompletionFailure(tc: Telecommand, code: Status)
      requires Valid()
      modifies Repr
      ensures Valid()
      ensures Model()
           == PostIf(old(Model()), AckRequested(tc, ACK_COMPLETION), Report.CompletionFailure(tc.requestId, code.Code()))
    {
      hide Link.Push, Shown;
      if AckRequested(tc, ACK_COMPLETION) {
        var _ := Send(1, 8, PutU32(tc.requestId) + PutU16(code.Code()),
                      Report.CompletionFailure(tc.requestId, code.Code()));
      }
    }

    /** `svc01_reject_raw`. */
    method RejectRaw(raw: seq<octet>, code: Status)
      requires Valid()
      modifies Repr
      ensures Valid() && Model() == Post(old(Model()), Report.AcceptanceFailure(RawRequestId(raw), code.Code()))
    {
      hide Link.Push, Shown;
      var requestId: u32 := 0;
      if |raw| >= 4 {
        requestId := GetU32(raw, 0);
      }
      var _ := Send(1, 2, PutU32(requestId) + PutU16(code.Code()), Report.AcceptanceFailure(requestId, code.Code()));
    }

    // ---- Service 3 ----

    /** `svc03_apply_list`: the whole list is validated before the first entry takes effect. */
    method HkApplyList(data: seq<octet>, enable: bool, oneShot: bool) returns (st: Status)
      requires Valid()
      modifies Repr
      ensures Valid() && Done(Model(), st) == HkList(old(Model()), data, enable, oneShot)
    {
      hide Link.Push, Shown, Onboard.OneShot, Onboard.SetFlags;
      if |data| < 1 {
        return BadLength;
      }
      var count := data[0];
      if |data| != 1 + count as int {
        return BadLength;
      }
      if count == 0 {
        return BadParameter;
      }
      var sids := Sids(data);
      for i := 0 to count as int
        invariant forall k :: 0 <= k < i ==> 1 <= sids[k] <= 2
        invariant Valid() && Model() == old(Model())
      {
        if !(1 <= data[1 + i] <= 2) {
          assert !(1 <= sids[i] <= 2);
          return UnknownSid;
        }
      }
      if oneShot {
        st := OneShotAll(sids);
      } else {
        SetHkFlags(sids, enable);
        st := Ok;
      }
    }

    method SetHkFlags(sids: seq<int>, enable: bool)
      requires Valid() && AllWithin(sids, 2)
      modifies hkEnabled
      ensures Valid() && Model() == old(Model()).(hkEnabled := SetFlags(old(Model()).hkEnabled, sids, enable))
    {
      hide Shown;
      for i := 0 to |sids|
        invariant hkEnabled[..] == SetFlags(old(hkEnabled[..]), sids[..i], enable)
      {
        hkEnabled[sids[i] - 1] := enable;
        assert sids[..i + 1][..i] == sids[..i];
      }
      assert sids[..|sids|] == sids;
    }

    /** The one-shot loop, which stops at the first report that finds no room. */
    method OneShotAll(sids: seq<int>) returns (st: Status)
      requires Valid() && AllWithin(sids, 2)
      modifies Repr
      ensures Valid() && Done(Model(), st) == OneShot(old(Model()), sids)
    {
      hide Link.Push, Shown, Onboard.Generate;
      st := Ok;
      ghost var goal := OneShot(Model(), sids);
      var i := 0;
      while i < |sids|
        invariant 0 <= i <= |sids|
        invariant Valid() && st == Ok
        invariant OneShot(Model(), sids[i..]) == goal
      {
        ghost var rest := sids[i..];
        assert rest[0] == sids[i] && rest[1..] == sids[i + 1..];
        st := Generate(sids[i]);
        if st != Ok {
          return;
        }
        i := i + 1;
      }
    }

    method HkHandle(tc: Telecommand) returns (st: Status)
      requires Valid()
      modifies Repr
      ensures Valid() && Done(Model(), st) == Housekeeping(old(Model()), tc)
    {
      hide Link.Push, Shown, HkList;
      if tc.subtype == 5 {
        st := HkApplyList(tc.data, true, false);
      } else if tc.subtype == 6 {
        st := HkApplyList(tc.data, false, false);
      } else if tc.subtype == 27 {
        st := HkApplyList(tc.data, false, true);
      } else {
        st := UnknownSubtype;
      }
    }

    // ---- Service 5 ----

    /** `svc05_set_enabled`: validated in full, then applied. */
    method EventSetEnabled(data: seq<octet>, value: bool) returns (st: Status)
      requires Valid()
      modifies Repr
      ensures Valid() && Done(Model(), st) == EventList(old(Model()), data, value)
    {
      hide Link.Push, Shown, Onboard.SetFlags;
      if |data| < 1 {
        return BadLength;
      }
      var count := data[0];
      if |data| != 1 + 2 * count as int {
        return BadLength;
      }
      if count == 0 {
        return BadParameter;
      }
      var ids := EventIds(data, count as int);
      for i := 0 to count as int
        invariant forall k :: 0 <= k < i ==> 1 <= ids[k] <= 8
        invariant Valid() && Model() == old(Model())
      {
        if !(1 <= GetU16(data, 1 + 2 * i) <= 8) {
          assert !(1 <= ids[i] <= 8);
          return UnknownEvent;
        }
      }
      SetEventFlags(ids, value);
      st := Ok;
    }

    method SetEventFlags(ids: seq<int>, value: bool)
      requires Valid() && AllWithin(ids, 8)
      modifies evEnabled
      ensures Valid() && Model() == old(Model()).(evEnabled := SetFlags(old(Model()).evEnabled, ids, value))
    {
      hide Shown;
      for i := 0 to |ids|
        invariant evEnabled[..] == SetFlags(old(evEnabled[..]), ids[..i], value)
      {
        evEnabled[ids[i] - 1] := value;
        assert ids[..i + 1][..i] == ids[..i];
      }
      assert ids[..|ids|] == ids;
    }

    method EventHandle(tc: Telecommand) returns (st: Status)
      requires Valid()
      modifies Repr
      ensures Valid() && Done(Model(), st) == Events(old(Model()), tc)
    {
      hide Link.Push, Shown, EventList;
      if tc.subtype == 5 {
        st := EventSetEnabled(tc.data, false);
      } else if tc.subtype == 6 {
        st := EventSetEnabled(tc.data, true);
      } else {
        st := UnknownSubtype;
      }
    }

    // ---- Services 8 and 17 ----

    /** `svc08_handle`. */
    method FunctionHandle(tc: Telecommand) returns (st: Status)
      requires Valid()
      modifies Repr
      ensures Valid() && Done(Model(), st) == Function8(old(Model()), tc)
    {
      hide Link.Push, Shown, Onboard.SetMode, Onboard.SetHeater, Board.SetTime;
      if tc.subtype != 1 {
        return UnknownSubtype;
      }
      if |tc.data| < 1 {
        return BadLength;
      }
      var fid, args := tc.data[0], tc.data[1..];
      if fid == 1 {
        if |args| != 1 {
          return BadLength;
        }
        if args[0] != 0 && args[0] != 1 {
          return BadParameter;
        }
        st := SetMode(if args[0] == 0 then Safe else Nominal);
      } else if fid == 2 {
        if |args| != 1 {
          return BadLength;
        }
        if args[0] > 1 {
          return BadParameter;
        }
        st := SetHeater(args[0] != 0);
      } else if fid == 3 {
        if |args| != 2 {
          return BadLength;
        }
        hal.InjectTemperature(Signed(GetU16(args, 0)));
        st := Ok;
      } else if fid == 5 {
        if |args| != 6 {
          return BadLength;
        }
        hal.SetCucTime(GetU32(args, 0), GetU16(args, 4));
        st := Ok;
      } else if fid == 4 {
        if |args| != 0 {
          return BadLength;
        }
        ResetCounters();
        st := Ok;
      } else {
        st := UnknownFunction;
      }
    }

    /** `obc_reset_counters`. */
    method ResetCounters()
      requires Valid()
      modifies this`accepted, this`rejected, this`lastFailure
      ensures Valid() && Model() == old(Model()).(accepted := 0, rejected := 0, lastFailure := 0)
    {
      accepted := 0;
      rejected := 0;
      lastFailure := 0;
    }

    /** `svc17_handle`. */
    method TestHandle(tc: Telecommand) returns (st: Status)
      requires Valid()
      modifies Repr
      ensures Valid() && Done(Model(), st) == Test(old(Model()), tc)
    {
      hide Link.Push, Shown;
      if tc.subtype != 1 {
        return UnknownSubtype;
      }
      if |tc.data| != 0 {
        return BadLength;
      }
      st := Send(17, 2, [], IAmAlive);
    }

    // ---- Telecommands ----

    /** `obc_route`. */
    method Route(tc: Telecommand) returns (st: Status)
      requires Valid()
      modifies Repr
      ensures Valid() && Done(Model(), st) == Onboard.Route(old(Model()), tc)
    {
      hide Link.Push, Shown, Housekeeping, Events, Function8, Test;
      if tc.service == 3 {
        st := HkHandle(tc);
      } else if tc.service == 5 {
        st := EventHandle(tc);
      } else if tc.service == 8 {
        st := FunctionHandle(tc);
      } else if tc.service == 17 {
        st := TestHandle(tc);
      } else {
        st := UnknownService;
      }
    }

    /** The rejection branch of `obc_process_tc`. */
    method Reject(buf: seq<octet>, st: Status)
      requires Valid()
      modifies Repr
      ensures Valid() && Model() == Onboard.Reject(old(Model()), buf, st)
    {
      hide Link.Push, Shown, Raise, Status.Code;
      if rejected < 0xFFFF {
        rejected := rejected + 1;
      }
      lastFailure := st.Code();
      RejectRaw(buf, st);
      var _ := ReportEvent(EVT_REJECTED, LOW, st.Code());
    }

    method Accept(tc: Telecommand)
      requires Valid()
      modifies Repr
      ensures Valid() && Model() == Onboard.Accept(old(Model()), tc)
    {
      hide Link.Push, Shown, AckRequested;
      if accepted < 0xFFFF {
        accepted := accepted + 1;
      }
      AcceptanceSuccess(tc);
    }

    method Complete(tc: Telecommand, st: Status)
      requires Valid()
      modifies Repr
      ensures Valid() && Model() == Onboard.Complete(old(Model()), tc, st)
    {
      hide Link.Push, Shown, Raise, AckRequested, Status.Code;
      if st == Ok {
        CompletionSuccess(tc);
      } else {
        lastFailure := st.Code();
        CompletionFailure(tc, st);
        var _ := ReportEvent(EVT_REJECTED, LOW, st.Code());
      }
    }

    /** `obc_process_tc`. */
    method ProcessTc(buf: seq<octet>) returns (st: Status)
      requires Valid()
      modifies Repr
      ensures Valid() && Done(Model(), st) == Onboard.ProcessTc(old(Model()), buf)
    {
      hide Link.Push, Shown, Parse, Onboard.Reject, Onboard.Accept, Onboard.Route, Onboard.Complete;
      var r := ParseTc(buf);
      if r.Refused? {
        Reject(buf, r.status);
        return r.status;
      }
      Accept(r.tc);
      st := Route(r.tc);
      Complete(r.tc, st);
    }

    // ---- The link side ----

    /** One fetch of the downlink driver. */
    method Fetch(buf: array<octet>) returns (st: Status, len: nat)
      requires Valid() && buf !in Repr
      modifies Repr, buf
      ensures Valid() && Model() == Apply(old(Model()), Step.Fetch(buf.Length))
      ensures st != Ok ==> Model() == old(Model())
      ensures st == Ok ==> old(Model()).link.queue != [] && len <= buf.Length
      ensures st == Ok ==> buf[..len] == old(Model()).link.queue[0].Tm().Octets()
    {
      hide Link.Pop, Shown, TmPacket.Octets;
      st, len := tm.Fetch(buf);
    }
  }

  /** The control law does not move the sample it works on. */
  lemma ThermalFrames(o: Obc)
    ensures RaiseAlarmOnce(o).mode == o.mode && RaiseAlarmOnce(o).temperature == o.temperature
    ensures ControlLaw(o).temperature == o.temperature
  {
    hide Link.Push;
  }
}
