/** What a telecommand leaves behind, read off its octets, and what whole runs leave of it. */
module Effects {
  import opened Commands
  import opened Downlink
  import opened Execution
  import opened HalHost
  import opened HousekeepingRuns
  import opened Interface
  import opened Octets
  import opened Onboard
  import opened Postings
  import opened Reports
  import opened Status
  import opened Telecommand
  import opened Telemetry
  import opened ThermalControl

  /** The telecommand performs this function, and completes. */
  predicate Performs(o: Obc, buf: seq<octet>, fid: octet)
    requires |buf| >= 13
  {
    buf[7] == 8 && OutcomeCode(o, buf) == 0 && Data(buf)[0] == fid
  }

  // ---- Mode and heater ----

  lemma SteeringOctets(o: Obc, buf: seq<octet>)
    requires Parse(buf).Parsed?
    ensures |buf| >= 13
    ensures ModeCommanded(Parse(buf).tc)
         == if Performs(o, buf, 1) then Some(if Data(buf)[1] == 0 then Safe else Nominal) else None
    ensures Performs(o, buf, 2) ==> o.mode.Nominal? && HeaterCommanded(Parse(buf).tc) == Some(Data(buf)[1] == 1)
    ensures !Performs(o, buf, 2) && HeaterCommanded(Parse(buf).tc).Some? ==> o.mode.Safe?
  {
    hide Parse, SlotsLeft, HousekeepingCode, EventCode;
    TcOctets(buf);
  }

  /** Function 1 moves the mode, and takes the heater along into SAFE; function 2 moves the heater;
      the line follows the mirror; and no telecommand touches the latch. */
  lemma SteeredExactly(o: Obc, buf: seq<octet>)
    requires Parse(buf).Parsed?
    ensures |buf| >= 13
    ensures var o', data := ProcessTc(o, buf).obc, Data(buf);
      && o'.mode == (if Performs(o, buf, 1) then if data[1] == 0 then Safe else Nominal else o.mode)
      && o'.heaterOn
         == (if Performs(o, buf, 2) then data[1] == 1
             else if Performs(o, buf, 1) && data[1] == 0 && o.mode.Nominal? then false
             else o.heaterOn)
      && o'.board.heater == (if o'.heaterOn != o.heaterOn then o'.heaterOn else o.board.heater)
      && o'.alarmLatched == o.alarmLatched
  {
    hide Parse, ProcessTc, OutcomeCode, Data, ModeCommanded, HeaterCommanded, Rejection;
    SteeringOctets(o, buf);
    TcSteers(o, buf);
  }

  // ---- Enable flags ----

  lemma HkListOctets(o: Obc, buf: seq<octet>)
    requires Parse(buf).Parsed? && Parse(buf).tc.service == 3 && Parse(buf).tc.subtype in {5, 6}
    ensures |buf| >= 13 && buf[7] == 3 && buf[8] == Parse(buf).tc.subtype
    ensures ValidList(Parse(buf).tc.data) <==> OutcomeCode(o, buf) == 0
  {
    hide Parse, SlotsLeft;
    TcOctets(buf);
    if |Data(buf)| >= 1 {
      StructuresWithin(Data(buf));
    }
    hide AllWithin;
  }

  lemma HkListNames(data: seq<octet>, k: int)
    requires ValidList(data)
    ensures AllWithin(Sids(data), 2)
    ensures k in Sids(data) <==> ListsStructure(data, k)
  {
    var sids := Sids(data);
    if k in sids {
      var i :| 0 <= i < |sids| && sids[i] == k;
      assert data[1 + i] as int == k;
    }
    if ListsStructure(data, k) {
      var j :| 1 <= j < |data| && data[j] as int == k;
      assert sids[j - 1] == k;
    }
  }

  lemma EventListOctets(o: Obc, buf: seq<octet>)
    requires Parse(buf).Parsed? && Parse(buf).tc.service == 5 && Parse(buf).tc.subtype in {5, 6}
    ensures |buf| >= 13 && buf[7] == 5 && buf[8] == Parse(buf).tc.subtype
    ensures EventListValid(Parse(buf).tc.data) <==> OutcomeCode(o, buf) == 0
  {
    hide Parse, SlotsLeft;
    TcOctets(buf);
    if |Data(buf)| >= 1 && |Data(buf)| == 1 + 2 * Data(buf)[0] as int {
      EventsWithin(Data(buf));
    }
    hide AllWithin;
  }

  lemma EventListNames(data: seq<octet>, k: int)
    requires EventListValid(data)
    ensures |data| >= 1 && |data| == 1 + 2 * data[0] as int
    ensures AllWithin(EventIds(data, data[0] as int), 8)
    ensures k in EventIds(data, data[0] as int) <==> ListsEvent(data, k)
  {
    var ids := EventIds(data, data[0] as int);
    assert forall i {:trigger ids[i]} {:trigger EventAt(data, i)} :: 0 <= i < |ids| ==> ids[i] == EventAt(data, i);
  }

  /** Over any telecommand, structure k is enabled exactly if it was and is not disabled, or a
      (3,5) list that completes names it. */
  lemma HkFlagAfter(o: Obc, buf: seq<octet>, k: int)
    requires 1 <= k <= 2
    ensures ProcessTc(o, buf).obc.hkEnabled[k - 1] ==
      if Parse(buf).Parsed? && buf[7] == 3 && buf[8] in {5, 6}
         && OutcomeCode(o, buf) == 0 && ListsStructure(Data(buf), k)
      then buf[8] == 5 else o.hkEnabled[k - 1]
  {
    hide Parse, Route, Accept, Reject, Complete, Status.Code, SetFlags, EventListValid, ValidList, OutcomeCode,
         ListsStructure;
    match Parse(buf)
    case Refused(st) =>
      RejectFrame(o, buf, st);
    case Parsed(tc) =>
      TcOctets(buf);
      AcceptFrame(o, tc);
      RouteFlags(Accept(o, tc), tc);
      CompleteFrame(Route(Accept(o, tc), tc).obc, tc, Route(Accept(o, tc), tc).status);
      if tc.service == 3 && tc.subtype in {5, 6} {
        HkListOctets(o, buf);
        if ValidList(tc.data) {
          HkListNames(tc.data, k);
          SetFlagsMeaning(o.hkEnabled, Sids(tc.data), tc.subtype == 5, k);
        }
      }
  }

  /** The same for event k and the lists (5,6) and (5,5). */
  lemma EventFlagAfter(o: Obc, buf: seq<octet>, k: int)
    requires 1 <= k <= 8
    ensures ProcessTc(o, buf).obc.evEnabled[k - 1] ==
      if Parse(buf).Parsed? && buf[7] == 5 && buf[8] in {5, 6}
         && OutcomeCode(o, buf) == 0 && ListsEvent(Data(buf), k)
      then buf[8] == 6 else o.evEnabled[k - 1]
  {
    hide Parse, Route, Accept, Reject, Complete, Status.Code, SetFlags, EventListValid, ValidList, OutcomeCode,
         ListsEvent;
    match Parse(buf)
    case Refused(st) =>
      RejectFrame(o, buf, st);
    case Parsed(tc) =>
      TcOctets(buf);
      AcceptFrame(o, tc);
      RouteFlags(Accept(o, tc), tc);
      CompleteFrame(Route(Accept(o, tc), tc).obc, tc, Route(Accept(o, tc), tc).status);
      if tc.service == 5 && tc.subtype in {5, 6} {
        EventListOctets(o, buf);
        if EventListValid(tc.data) {
          EventListNames(tc.data, k);
          SetFlagsMeaning(o.evEnabled, EventIds(tc.data, tc.data[0] as int), tc.subtype == 6, k);
        }
      }
  }

  // ---- The failure code ----

  /** The code with which a string of octets ends, accepted or not; zero if it completes. */
  function FailureOf(o: Obc, buf: seq<octet>): u16 {
    match Parse(buf)
    case Refused(st) => st.Code()
    case Parsed(_) => OutcomeCode(o, buf)
  }

  lemma FailureIsStatus(o: Obc, buf: seq<octet>)
    ensures FailureOf(o, buf) == ProcessTc(o, buf).status.Code()
  {
    hide Parse, Execute, Reject, OutcomeCode, Status.Code;
    if Parse(buf).Parsed? {
      OutcomeExact(o, buf);
    }
  }

  lemma RouteResets(o: Obc, tc: Telecommand)
    ensures Route(o, tc).obc.lastFailure == if IsReset(tc) then 0 else o.lastFailure
  {
    hide Link.Push, Raise, ApplyHeater, SetMode, Link.PushAll, Board.SetTime, GetU16, GetU32;
    HeaterPosts(o, true);
    HeaterPosts(o, false);
    ModePosts(o, Safe);
    ModePosts(o, Nominal);
    if IsOneShot(tc) && ValidList(tc.data) {
      OneShotFrame(o, Sids(tc.data));
    }
  }

  lemma ResetOctets(o: Obc, buf: seq<octet>)
    requires Parse(buf).Parsed?
    ensures |buf| >= 13 && (IsReset(Parse(buf).tc) <==> Performs(o, buf, 4))
  {
    hide Parse, SlotsLeft, HousekeepingCode, EventCode;
    TcOctets(buf);
    assert |Data(buf)| == 1 ==> Data(buf) == [Data(buf)[0]];
  }

  lemma FailureCodeAfter(o: Obc, buf: seq<octet>)
    ensures ProcessTc(o, buf).obc.lastFailure
         == if FailureOf(o, buf) != 0 then FailureOf(o, buf)
            else if Performs(o, buf, 4) then 0 else o.lastFailure
  {
    hide Parse, Route, Accept, Reject, Complete, Status.Code, FailureOf, Performs, IsReset;
    FailureIsStatus(o, buf);
    ZeroIsOk(ProcessTc(o, buf).status);
    match Parse(buf)
    case Refused(st) =>
      RefusalIsNotOk(buf);
      RejectFrame(o, buf, st);
    case Parsed(tc) =>
      AcceptFrame(o, tc);
      RouteResets(Accept(o, tc), tc);
      ResetOctets(o, buf);
      CompleteFrame(Route(Accept(o, tc), tc).obc, tc, Route(Accept(o, tc), tc).status);
  }

  /** The failure code a step leaves, if it left this one before. */
  function NextFailure(o: Obc, s: Step, before: u16): u16 {
    if !s.Command? then before
    else if FailureOf(o, s.buf) != 0 then FailureOf(o, s.buf)
    else if Performs(o, s.buf, 4) then 0
    else before
  }

  /** The code of the latest telecommand that failed since the counters were last reset. */
  function LatestFailure(steps: seq<Step>): u16 {
    if steps == [] then 0 else
    var n := |steps| - 1;
    NextFailure(Run(steps[..n]), steps[n], LatestFailure(steps[..n]))
  }

  lemma StepFailure(o: Obc, s: Step)
    ensures Apply(o, s).lastFailure == NextFailure(o, s, o.lastFailure)
  {
    hide Tick, ProcessTc, FailureOf, Performs;
    match s
    case Command(buf) => FailureCodeAfter(o, buf);
    case Cycle => TickSamples(o);
    case Fetch(_) =>
    case Sense(_) =>
  }

  /** SWREQ-APP-090 over runs: the failure code is that of the latest failure since the last reset. */
  lemma {:induction false} FailureCodeKept(steps: seq<Step>)
    ensures Run(steps).lastFailure == LatestFailure(steps)
  {
    hide Apply, NextFailure, Init;
    if steps == [] {
      PowerOnExact();
    } else {
      var n := |steps| - 1;
      FailureCodeKept(steps[..n]);
      StepFailure(Run(steps[..n]), steps[n]);
    }
  }

  // ---- Power-on ----

  /** SWREQ-APP-010, SWREQ-APP-020, SWREQ-SVC3-070: every field after initialisation. */
  lemma PowerOnExact()
    ensures var o := Init();
      && o.mode == Safe && !o.heaterOn && !o.board.heater && !o.alarmLatched
      && o.uptime == 0 && o.phase == 0 && o.lastOverflow == 0
      && o.temperature == 200 && o.board.sensor == 200
      && o.accepted == 0 && o.rejected == 0 && o.lastFailure == 0
      && o.hkEnabled == [true, false]
      && o.evEnabled == [true, true, true, true, true, true, true, true]
      && o.board.ticks == 0 && o.board.Now() == Cuc(0, 0)
      && o.raised == [EventCall(1, 1, 0)]
    ensures var l := Init().link; var boot := Packet(Event(1, 1, 0), 0, 0, Cuc(0, 0));
      && l.queue == [boot] && l.log == [Attempt(boot, true)] && l.sent == [] && l.overflows == 0
      && l.seqCount == 1 && forall s: octet :: l.counters[s] == if s == 5 then 1 else 0
  {
  }

  /** The step is a (3,5) or a (3,6). */
  predicate ListsHousekeeping(s: Step) {
    s.Command? && Parse(s.buf).Parsed? && s.buf[7] == 3 && s.buf[8] in {5, 6}
  }

  predicate HousekeepingUntouched(steps: seq<Step>) {
    forall i :: 0 <= i < |steps| ==> !ListsHousekeeping(steps[i])
  }

  lemma StepKeepsHousekeeping(o: Obc, s: Step)
    requires !ListsHousekeeping(s)
    ensures Apply(o, s).hkEnabled == o.hkEnabled
  {
    hide Tick, ProcessTc, Parse, OutcomeCode, ListsStructure;
    match s
    case Command(buf) =>
      HkFlagAfter(o, buf, 1);
      HkFlagAfter(o, buf, 2);
      assert |o.hkEnabled| == |Apply(o, s).hkEnabled| == 2;
    case Cycle => TickSamples(o);
    case Fetch(_) =>
    case Sense(_) =>
  }

  lemma {:induction false} HousekeepingAsInitialised(steps: seq<Step>)
    requires HousekeepingUntouched(steps)
    ensures Run(steps).hkEnabled == [true, false]
  {
    hide Apply, Init, ListsHousekeeping;
    if steps == [] {
      PowerOnExact();
    } else {
      var n := |steps| - 1;
      assert forall i :: 0 <= i < n ==> steps[..n][i] == steps[i];
      HousekeepingAsInitialised(steps[..n]);
      StepKeepsHousekeeping(Run(steps[..n]), steps[n]);
    }
  }

  /** SWREQ-SVC3-070: unless ground has changed it, every tenth cycle since initialisation sends
      exactly one housekeeping report, the essential one, telling the state the cycle leaves, and
      no other cycle sends any. */
  lemma DefaultHousekeeping(steps: seq<Step>)
    requires HousekeepingUntouched(steps)
    ensures var o := Run(steps + [Cycle]);
      OfService(3, TickOut(Run(steps)))
      == if Cycles(steps + [Cycle]) % 10 == 0
         then [Essential(o.mode.Nominal?, o.uptime, o.temperature, o.heaterOn)] else []
  {
    hide Tick, TickOut, OfService, Run, HousekeepingUntouched;
    assert (steps + [Cycle])[..|steps|] == steps;
    Cadence(steps);
    HousekeepingAsInitialised(steps);
    TickSamples(Run(steps));
    RunOneMore(steps, Cycle);
    ApplyUnfolds(Run(steps), Cycle);
  }

  lemma RunOneMore(steps: seq<Step>, s: Step)
    ensures Run(steps + [s]) == Apply(Run(steps), s)
  {
    hide Apply, Init;
    assert (steps + [s])[..|steps|] == steps;
  }
}
