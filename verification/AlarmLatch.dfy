/** The over-temperature alarm over whole runs: raised once per excursion (src/obc_app.c:203-230). */
module AlarmLatch {
  import opened Octets
  import opened Onboard
  import opened Postings
  import opened Telecommand
  import opened ThermalControl

  /** One of the calls beyond the first n is for the alarm. */
  ghost predicate NewAlarm(raised: seq<EventCall>, n: nat) {
    exists k :: n <= k < |raised| && raised[k].id == 6
  }

  /** The step attempts to raise the alarm event, filtered or not. */
  ghost predicate RaisesAlarm(o: Obc, s: Step) {
    NewAlarm(Apply(o, s).raised, |o.raised|)
  }

  /** A cycle that samples below the re-arming threshold. */
  predicate Rearms(o: Obc, s: Step) {
    s.Cycle? && o.board.sensor < 250
  }

  ghost predicate AlarmAt(steps: seq<Step>, i: nat)
    requires i < |steps|
  {
    RaisesAlarm(Run(steps[..i]), steps[i])
  }

  predicate RearmAt(steps: seq<Step>, i: nat)
    requires i < |steps|
  {
    Rearms(Run(steps[..i]), steps[i])
  }

  // ---- One step ----

  lemma HeatNoAlarm(c: Control, on: bool)
    ensures c.Heat(on).latched == c.latched && |c.Heat(on).raised| >= |c.raised|
    ensures c.Heat(on).raised[..|c.raised|] == c.raised && !NewAlarm(c.Heat(on).raised, |c.raised|)
  {
  }

  lemma MoveNoAlarm(c: Control, m: Mode)
    ensures c.Move(m).latched == c.latched && |c.Move(m).raised| >= |c.raised|
    ensures c.Move(m).raised[..|c.raised|] == c.raised && !NewAlarm(c.Move(m).raised, |c.raised|)
  {
  }

  lemma SteerNoAlarm(c: Control, tc: Telecommand)
    ensures Steer(c, tc).latched == c.latched && |Steer(c, tc).raised| >= |c.raised|
    ensures !NewAlarm(Steer(c, tc).raised, |c.raised|)
  {
    hide Control.Heat, Control.Move, ModeCommanded, HeaterCommanded;
    if ModeCommanded(tc).Some? {
      MoveNoAlarm(c, ModeCommanded(tc).value);
    } else if HeaterCommanded(tc).Some? {
      HeatNoAlarm(c, HeaterCommanded(tc).value);
    }
  }

  lemma SampleAlarm(c: Control, t: i16)
    ensures |c.Sample(t).raised| >= |c.raised|
    ensures NewAlarm(c.Sample(t).raised, |c.raised|) <==> c.mode.Nominal? && t >= ALARM_DC && !c.latched
    ensures c.Sample(t).latched <==> t >= HEATER_OFF_DC && (c.latched || NewAlarm(c.Sample(t).raised, |c.raised|))
  {
    hide Control.Heat, Control.Move;
    if c.mode.Nominal? && t >= ALARM_DC {
      var d := c.Alarm(t);
      MoveNoAlarm(d, Safe);
      if !c.latched {
        assert d.Move(Safe).raised[..|d.raised|][|c.raised|].id == EVT_ALARM;
      }
    } else {
      HeatNoAlarm(c, c.mode.Nominal? && t <= HEATER_ON_DC);
    }
  }

  lemma TailNoAlarm(raised: seq<EventCall>, tail: seq<EventCall>, n: nat)
    requires n <= |raised| && forall k :: 0 <= k < |tail| ==> tail[k].id != EVT_ALARM
    ensures NewAlarm(raised + tail, n) <==> NewAlarm(raised, n)
  {
    if NewAlarm(raised, n) {
      var k :| n <= k < |raised| && raised[k].id == EVT_ALARM;
      assert (raised + tail)[k].id == EVT_ALARM;
    }
  }

  /** Only a cycle raises the alarm, and exactly when NOMINAL is too hot and nothing is latched. */
  lemma AlarmStep(o: Obc, s: Step)
    ensures RaisesAlarm(o, s) <==> s.Cycle? && o.mode.Nominal? && o.board.sensor >= 400 && !o.alarmLatched
    ensures Apply(o, s).alarmLatched <==> !Rearms(o, s) && (o.alarmLatched || RaisesAlarm(o, s))
  {
    hide Tick, ProcessTc, Steer, Control.Sample, Parse, Thermal, NewAlarm, Acquire;
    var c := ControlOf(o);
    match s
    case Command(buf) =>
      TcSteers(o, buf);
      var d := if Parse(buf).Parsed? then Steer(c, Parse(buf).tc) else c;
      NothingNew(c.raised);
      if Parse(buf).Parsed? {
        SteerNoAlarm(c, Parse(buf).tc);
      }
      TailNoAlarm(d.raised, Rejection(ProcessTc(o, buf).status), |o.raised|);
    case Cycle =>
      TickSamples(o);
      SampleAlarm(c, o.board.sensor);
      TailNoAlarm(c.Sample(o.board.sensor).raised, NoticeCalls(Thermal(Acquire(o))), |o.raised|);
    case Fetch(_) =>
      NothingNew(o.raised);
    case Sense(_) =>
      NothingNew(o.raised);
  }

  lemma NothingNew(raised: seq<EventCall>)
    ensures !NewAlarm(raised, |raised|)
  {
  }

  // ---- Whole runs ----

  /** Some alarm has been raised and no low sample has come since. */
  ghost predicate Pending(steps: seq<Step>, n: nat)
    requires n <= |steps|
  {
    exists j :: 0 <= j < n && AlarmAt(steps, j) && forall k :: j < k < n ==> !RearmAt(steps, k)
  }

  /** The latch is exactly the history: nothing else, no command and no filter, moves it. */
  lemma {:induction false} LatchIsHistory(steps: seq<Step>, n: nat)
    requires n <= |steps|
    ensures Run(steps[..n]).alarmLatched <==> Pending(steps, n)
    decreases n
  {
    hide Apply, RaisesAlarm, Rearms;
    if n == 0 {
      assert steps[..0] == [];
    } else {
      var m := n - 1;
      LatchIsHistory(steps, m);
      assert steps[..n][..m] == steps[..m];
      AlarmStep(Run(steps[..m]), steps[m]);
      AlarmOrRearm(Run(steps[..m]), steps[m]);
      assert Run(steps[..n]) == Apply(Run(steps[..m]), steps[m]);
      PendingStep(steps, m);
    }
  }

  lemma AlarmOrRearm(o: Obc, s: Step)
    ensures !(RaisesAlarm(o, s) && Rearms(o, s))
  {
    AlarmStep(o, s);
    hide RaisesAlarm;
  }

  lemma PendingStep(steps: seq<Step>, m: nat)
    requires m < |steps| && !(AlarmAt(steps, m) && RearmAt(steps, m))
    ensures Pending(steps, m + 1) <==> !RearmAt(steps, m) && (Pending(steps, m) || AlarmAt(steps, m))
  {
    hide AlarmAt, RearmAt;
    if Pending(steps, m) && !RearmAt(steps, m) {
      var j :| 0 <= j < m && AlarmAt(steps, j) && forall k :: j < k < m ==> !RearmAt(steps, k);
      assert forall k :: j < k < m + 1 ==> !RearmAt(steps, k);
    }
    if Pending(steps, m + 1) {
      var j :| 0 <= j < m + 1 && AlarmAt(steps, j) && forall k :: j < k < m + 1 ==> !RearmAt(steps, k);
      if j < m {
        assert !RearmAt(steps, m);
      }
    }
  }

  /** A step attempts the alarm if and only if it is a cycle, the mode is NOMINAL, the sample is at
      least 400, and every earlier alarm has been followed by a sample below 250. */
  lemma AlarmExactly(steps: seq<Step>, i: nat)
    requires i < |steps|
    ensures AlarmAt(steps, i) <==>
      && steps[i].Cycle? && Run(steps[..i]).mode.Nominal? && Run(steps[..i]).board.sensor >= 400
      && forall j :: 0 <= j < i && AlarmAt(steps, j) ==> exists k :: j < k < i && RearmAt(steps, k)
  {
    hide RearmAt, Apply, Run, RaisesAlarm;
    LatchIsHistory(steps, i);
    AlarmStep(Run(steps[..i]), steps[i]);
  }

  /** Two alarms are always separated by a sample below 250. */
  lemma AlarmsSeparated(steps: seq<Step>, i: nat, j: nat)
    requires i < j < |steps| && AlarmAt(steps, i) && AlarmAt(steps, j)
    ensures exists k :: i < k < j && RearmAt(steps, k)
  {
    hide AlarmAt, RearmAt;
    AlarmExactly(steps, j);
  }
}
