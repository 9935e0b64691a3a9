/** Modes, heater and alarm over whole runs (src/obc_app.c:72-118, 203-230). */
module ThermalControl {
  import opened Downlink
  import opened HalHost
  import opened Octets
  import opened Onboard
  import opened Postings
  import opened Status
  import opened Telecommand

  /** The part of the state that control and safety are about, as a machine of its own. */
  datatype Control = Control(mode: Mode, heaterOn: bool, line: bool, latched: bool, raised: seq<EventCall>)
  {
    function Call(id: u16, severity: octet, aux: u16): Control {
      this.(raised := raised + [EventCall(id, severity, aux)])
    }

    function Heat(on: bool): Control {
      if on == heaterOn then this
      else this.(heaterOn := on, line := on).Call(EVT_HEATER, INFORMATIVE, Bit(on))
    }

    function Move(m: Mode): Control {
      if m == mode then this
      else (if m.Safe? then this.(mode := m).Heat(false) else this.(mode := m)).Call(EVT_MODE, INFORMATIVE, m.Code())
    }

    function Alarm(t: i16): Control {
      if latched then this else this.(latched := true).Call(EVT_ALARM, HIGH, Unsigned(t))
    }

    function Law(t: i16): Control {
      if mode.Nominal? && t >= ALARM_DC then Alarm(t).Move(Safe)
      else if mode.Nominal? && HEATER_ON_DC < t < HEATER_OFF_DC then this
      else Heat(mode.Nominal? && t <= HEATER_ON_DC)
    }

    function Sample(t: i16): Control {
      if t < HEATER_OFF_DC then Law(t).(latched := false) else Law(t)
    }
  }

  function ControlOf(o: Obc): Control {
    Control(o.mode, o.heaterOn, o.board.heater, o.alarmLatched, o.raised)
  }

  // ---- The unit moves as the machine does ----

  lemma RaiseCalls(o: Obc, id: u16, severity: octet, aux: u16)
    requires EventId(id) && Severity(severity)
    ensures ControlOf(Raise(o, id, severity, aux)) == ControlOf(o).Call(id, severity, aux)
  {
    hide Link.Push;
  }

  lemma HeaterHeats(o: Obc, on: bool)
    ensures ControlOf(ApplyHeater(o, on)) == ControlOf(o).Heat(on)
  {
    hide Raise;
    if on != o.heaterOn {
      RaiseCalls(o.(heaterOn := on, board := o.board.(heater := on)), EVT_HEATER, INFORMATIVE, Bit(on));
    }
  }

  lemma ModeMoves(o: Obc, m: Mode)
    ensures ControlOf(SetMode(o, m)) == ControlOf(o).Move(m)
  {
    hide Raise, ApplyHeater, Control.Heat;
    if m != o.mode {
      var moved := o.(mode := m);
      HeaterHeats(moved, false);
      RaiseCalls(if m.Safe? then ApplyHeater(moved, false) else moved, EVT_MODE, INFORMATIVE, m.Code());
    }
  }

  lemma ThermalSamples(o: Obc)
    ensures ControlOf(Thermal(o)) == ControlOf(o).Sample(o.temperature)
  {
    hide Raise, ApplyHeater, SetMode, Control.Heat, Control.Move;
    if o.mode.Nominal? && o.temperature >= ALARM_DC {
      if !o.alarmLatched {
        RaiseCalls(o.(alarmLatched := true), EVT_ALARM, HIGH, Unsigned(o.temperature));
      }
      ModeMoves(RaiseAlarmOnce(o), Safe);
    } else {
      HeaterHeats(o, o.mode.Nominal? && o.temperature <= HEATER_ON_DC);
    }
  }

  /** One cycle: a sample, then possibly an overflow notice. */
  lemma TickSamples(o: Obc)
    ensures var c := ControlOf(o).Sample(o.board.sensor);
      ControlOf(Tick(o)) == c.(raised := c.raised + NoticeCalls(Thermal(Acquire(o))))
    ensures Tick(o).phase == NextPhase(o.phase) && Tick(o).uptime == (o.uptime + 1) % TWO32
    ensures Tick(o).temperature == o.board.sensor == Tick(o).board.sensor
    ensures Tick(o).accepted == o.accepted && Tick(o).rejected == o.rejected && Tick(o).lastFailure == o.lastFailure
    ensures Tick(o).hkEnabled == o.hkEnabled && Tick(o).evEnabled == o.evEnabled
  {
    hide Thermal, ThermalOut, NoticeOverflow, NoticeOut, HkTick, HkOut, NextPhase, Link.PushAll, Control.Sample;
    var cold := Acquire(o);
    ThermalSamples(cold);
    ThermalPosts(cold);
    NoticePosts(Thermal(cold));
    HkPosts(NoticeOverflow(Thermal(cold)));
  }

  function ModeCommanded(tc: Telecommand): Option<Mode> {
    if tc.service == 8 && tc.subtype == 1 && |tc.data| == 2 && tc.data[0] == 1 && tc.data[1] <= 1
    then Some(if tc.data[1] == 0 then Safe else Nominal) else None
  }

  function HeaterCommanded(tc: Telecommand): Option<bool> {
    if tc.service == 8 && tc.subtype == 1 && |tc.data| == 2 && tc.data[0] == 2 && tc.data[1] <= 1
    then Some(tc.data[1] == 1) else None
  }

  /** The effect of an accepted telecommand: only functions 1 and 2 steer, 2 only in NOMINAL. */
  function Steer(c: Control, tc: Telecommand): Control {
    if ModeCommanded(tc).Some? then c.Move(ModeCommanded(tc).value)
    else if HeaterCommanded(tc).Some? && c.mode.Nominal? then c.Heat(HeaterCommanded(tc).value)
    else c
  }

  lemma RouteSteers(o: Obc, tc: Telecommand)
    ensures ControlOf(Route(o, tc).obc) == Steer(ControlOf(o), tc)
  {
    hide Link.Push, Raise, ApplyHeater, SetMode, Control.Move, Control.Heat;
    if ModeCommanded(tc).Some? {
      ModeMoves(o, ModeCommanded(tc).value);
    } else if HeaterCommanded(tc).Some? {
      HeaterHeats(o, HeaterCommanded(tc).value);
    } else if IsOneShot(tc) && ValidList(tc.data) {
      OneShotFrame(o, Sids(tc.data));
    }
  }

  function Rejection(st: Status): seq<EventCall> {
    if st == Ok then [] else [EventCall(EVT_REJECTED, LOW, st.Code())]
  }

  /** A telecommand steers if it is accepted, and leaves a rejection event if it fails. */
  lemma TcSteers(o: Obc, buf: seq<octet>)
    ensures var c := if Parse(buf).Parsed? then Steer(ControlOf(o), Parse(buf).tc) else ControlOf(o);
      ControlOf(ProcessTc(o, buf).obc) == c.(raised := c.raised + Rejection(ProcessTc(o, buf).status))
  {
    hide Route, Accept, Reject, Complete, Status.Code, Steer;
    match Parse(buf)
    case Refused(st) =>
      RefusalIsNotOk(buf);
      RejectFrame(o, buf, st);
    case Parsed(tc) =>
      AcceptFrame(o, tc);
      var routed := Route(Accept(o, tc), tc);
      RouteSteers(Accept(o, tc), tc);
      CompleteFrame(routed.obc, tc, routed.status);
  }

  lemma RefusalIsNotOk(buf: seq<octet>)
    requires Parse(buf).Refused?
    ensures Parse(buf).status != Ok
  {
  }

  // ---- Safety of mode and heater in every reachable state ----

  /** The auxiliary words of the calls for one event, in order. */
  function AuxOf(raised: seq<EventCall>, id: u16): seq<u16> {
    if raised == [] then [] else
    var last := raised[|raised| - 1];
    AuxOf(raised[..|raised| - 1], id) + (if last.id == id then [last.aux] else [])
  }

  lemma AuxOfCall(c: Control, id: u16, severity: octet, aux: u16, other: u16)
    ensures AuxOf(c.Call(id, severity, aux).raised, other)
         == AuxOf(c.raised, other) + (if id == other then [aux] else [])
  {
    assert (c.raised + [EventCall(id, severity, aux)])[..|c.raised|] == c.raised;
  }

  /** The words are 1, 0, 1, 0, ... and the last one is the present state. */
  ghost predicate Alternates(words: seq<u16>, now: bool) {
    && (forall k :: 0 <= k < |words| ==> words[k] == 1 - k % 2)
    && (now <==> |words| % 2 == 1)
  }

  lemma AlternatesStep(words: seq<u16>, now: bool)
    requires Alternates(words, now)
    ensures Alternates(words + [Bit(!now)], !now)
  {
  }

  /** The mirror tells the truth about the line, SAFE keeps the heater off, and the attempted
      heater and mode events retell the history of switches. */
  ghost predicate SafeControl(c: Control) {
    && c.heaterOn == c.line
    && (c.mode.Safe? ==> !c.heaterOn)
    && Alternates(AuxOf(c.raised, 5), c.heaterOn)
    && Alternates(AuxOf(c.raised, 2), c.mode.Nominal?)
  }

  lemma OtherCallKeeps(c: Control, id: u16, severity: octet, aux: u16)
    requires SafeControl(c) && id != EVT_HEATER && id != EVT_MODE
    ensures SafeControl(c.Call(id, severity, aux))
  {
    hide Alternates, AuxOf;
    AuxOfCall(c, id, severity, aux, EVT_HEATER);
    AuxOfCall(c, id, severity, aux, EVT_MODE);
    assert AuxOf(c.raised, EVT_HEATER) + [] == AuxOf(c.raised, EVT_HEATER);
    assert AuxOf(c.raised, EVT_MODE) + [] == AuxOf(c.raised, EVT_MODE);
  }

  /** Everything but the mode clause survives switching the heater. */
  ghost predicate Switching(c: Control, mode: Mode) {
    && c.heaterOn == c.line
    && Alternates(AuxOf(c.raised, EVT_HEATER), c.heaterOn)
    && Alternates(AuxOf(c.raised, EVT_MODE), mode.Nominal?)
  }

  lemma HeatSwitches(c: Control, on: bool, mode: Mode)
    requires Switching(c, mode)
    ensures Switching(c.Heat(on), mode) && c.Heat(on).heaterOn == on && c.Heat(on).mode == c.mode
  {
    hide Alternates, AuxOf;
    var d := c.(heaterOn := on, line := on);
    AuxOfCall(d, EVT_HEATER, INFORMATIVE, Bit(on), EVT_HEATER);
    AuxOfCall(d, EVT_HEATER, INFORMATIVE, Bit(on), EVT_MODE);
    assert AuxOf(c.raised, EVT_MODE) + [] == AuxOf(c.raised, EVT_MODE);
    AlternatesStep(AuxOf(c.raised, EVT_HEATER), c.heaterOn);
  }

  lemma HeatKeeps(c: Control, on: bool)
    requires SafeControl(c) && (c.mode.Safe? ==> !on)
    ensures SafeControl(c.Heat(on))
  {
    hide Alternates, AuxOf, Control.Heat;
    HeatSwitches(c, on, c.mode);
  }

  lemma MoveKeeps(c: Control, m: Mode)
    requires SafeControl(c)
    ensures SafeControl(c.Move(m)) && c.Move(m).mode == m
  {
    hide Alternates, AuxOf, Control.Heat;
    if m != c.mode {
      var moved := c.(mode := m);
      HeatSwitches(moved, false, c.mode);
      var cool := if m.Safe? then moved.Heat(false) else moved;
      assert Switching(cool, c.mode);
      AuxOfCall(cool, EVT_MODE, INFORMATIVE, m.Code(), EVT_MODE);
      AuxOfCall(cool, EVT_MODE, INFORMATIVE, m.Code(), EVT_HEATER);
      assert AuxOf(cool.raised, EVT_HEATER) + [] == AuxOf(cool.raised, EVT_HEATER);
      AlternatesStep(AuxOf(cool.raised, EVT_MODE), c.mode.Nominal?);
    }
  }

  /** After a sample: too hot is SAFE, in NOMINAL warm is off and cold is on. */
  ghost predicate Regulated(c: Control, t: i16) {
    && (t >= 400 ==> c.mode.Safe?)
    && (c.mode.Nominal? && t >= 250 ==> !c.heaterOn)
    && (c.mode.Nominal? && t <= 50 ==> c.heaterOn)
  }

  lemma SampleKeeps(c: Control, t: i16)
    requires SafeControl(c)
    ensures SafeControl(c.Sample(t)) && Regulated(c.Sample(t), t)
  {
    LawKeeps(c, t);
    hide Control.Law, Alternates, AuxOf;
  }

  lemma LawKeeps(c: Control, t: i16)
    requires SafeControl(c)
    ensures SafeControl(c.Law(t)) && Regulated(c.Law(t), t)
  {
    if c.mode.Nominal? && t >= ALARM_DC {
      AlarmKeeps(c, t);
      hide SafeControl, Control.Alarm, Control.Move;
      MoveKeeps(c.Alarm(t), Safe);
    } else {
      HeatKeeps(c, c.mode.Nominal? && t <= HEATER_ON_DC);
      hide Alternates, AuxOf;
    }
  }

  lemma AlarmKeeps(c: Control, t: i16)
    requires SafeControl(c)
    ensures SafeControl(c.Alarm(t))
  {
    if !c.latched {
      var d := c.(latched := true);
      assert SafeControl(d);
      hide SafeControl;
      OtherCallKeeps(d, EVT_ALARM, HIGH, Unsigned(t));
    }
  }

  lemma SteerKeeps(c: Control, tc: Telecommand)
    requires SafeControl(c)
    ensures SafeControl(Steer(c, tc))
  {
    if ModeCommanded(tc).Some? {
      MoveKeeps(c, ModeCommanded(tc).value);
    } else if HeaterCommanded(tc).Some? && c.mode.Nominal? {
      HeatKeeps(c, HeaterCommanded(tc).value);
    }
    hide SafeControl, ModeCommanded, HeaterCommanded;
  }

  lemma TailKeeps(c: Control, tail: seq<EventCall>)
    requires SafeControl(c) && |tail| <= 1
    requires |tail| == 1 ==> tail[0].id != EVT_HEATER && tail[0].id != EVT_MODE
    ensures SafeControl(c.(raised := c.raised + tail))
  {
    if |tail| == 0 {
      assert c.raised + tail == c.raised;
    } else {
      hide SafeControl;
      assert tail == [tail[0]];
      OtherCallKeeps(c, tail[0].id, tail[0].severity, tail[0].aux);
    }
  }

  lemma StepSafe(o: Obc, s: Step)
    requires SafeControl(ControlOf(o))
    ensures SafeControl(ControlOf(Apply(o, s)))
    ensures s.Cycle? ==> Regulated(ControlOf(Apply(o, s)), o.board.sensor)
  {
    hide SafeControl, Tick, ProcessTc, Steer, Control.Sample, Parse, Thermal, Acquire;
    match s
    case Command(buf) =>
      TcSteers(o, buf);
      var c := if Parse(buf).Parsed? then Steer(ControlOf(o), Parse(buf).tc) else ControlOf(o);
      if Parse(buf).Parsed? {
        SteerKeeps(ControlOf(o), Parse(buf).tc);
      }
      TailKeeps(c, Rejection(ProcessTc(o, buf).status));
    case Cycle =>
      TickSamples(o);
      SampleKeeps(ControlOf(o), o.board.sensor);
      TailKeeps(ControlOf(o).Sample(o.board.sensor), NoticeCalls(Thermal(Acquire(o))));
    case Fetch(_) =>
    case Sense(_) =>
  }

  lemma InitSafe()
    ensures SafeControl(ControlOf(Init()))
  {
    var c := Control(Safe, false, false, false, []);
    AuxOfCall(c, EVT_BOOT, INFORMATIVE, 0, EVT_HEATER);
    AuxOfCall(c, EVT_BOOT, INFORMATIVE, 0, EVT_MODE);
    assert ControlOf(Init()) == c.Call(EVT_BOOT, INFORMATIVE, 0);
  }

  /** In every reachable state the heater and the mode are safe and truthfully reported. */
  lemma {:induction false} AlwaysSafe(steps: seq<Step>)
    ensures SafeControl(ControlOf(Run(steps)))
  {
    hide SafeControl, Apply;
    if steps == [] {
      InitSafe();
    } else {
      AlwaysSafe(steps[..|steps| - 1]);
      StepSafe(Run(steps[..|steps| - 1]), steps[|steps| - 1]);
    }
  }

  /** Straight after a cycle the sample it took is respected. */
  lemma AlwaysRegulated(steps: seq<Step>)
    requires steps != [] && steps[|steps| - 1].Cycle?
    ensures Regulated(ControlOf(Run(steps)), Run(steps).temperature)
  {
    hide SafeControl, Regulated, Tick;
    var o := Run(steps[..|steps| - 1]);
    AlwaysSafe(steps[..|steps| - 1]);
    StepSafe(o, Cycle);
    TickSamples(o);
  }
}
