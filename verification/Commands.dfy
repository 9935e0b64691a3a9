/** What telecommands change: nothing when they fail, and the counters that say how many did
    (src/obc_app.c:157-190, src/svc03_housekeeping.c:97-136, src/svc05_event.c:74-105,
    src/svc08_function.c:20-104). */
module Commands {
  import opened Downlink
  import opened HalHost
  import opened Octets
  import opened Onboard
  import opened Postings
  import opened Status
  import opened Telecommand
  import opened ThermalControl
  import opened TmQueue

  // ---- A failed command changes nothing but the books ----

  lemma RouteFailure(o: Obc, tc: Telecommand)
    requires Route(o, tc).status != Ok
    ensures Route(o, tc).obc == o.(link := Route(o, tc).obc.link)
  {
    hide Link.Push, Raise, ApplyHeater, SetMode;
    if IsOneShot(tc) && ValidList(tc.data) {
      OneShotFrame(o, Sids(tc.data));
    }
  }

  /** Whenever a telecommand does not complete, for whatever reason and however far it got, mode,
      heater, alarm latch, enable flags, housekeeping phase, thermistor, time and uptime are as
      they were: only the telecommand counters, the failure code, the link and the list of raised
      events have moved. */
  lemma FailedCommandChangesNothing(o: Obc, buf: seq<octet>)
    requires ProcessTc(o, buf).status != Ok
    ensures var o' := ProcessTc(o, buf).obc;
      o' == o.(accepted := o'.accepted, rejected := o'.rejected, lastFailure := ProcessTc(o, buf).status.Code(),
               link := o'.link, raised := o.raised + Rejection(ProcessTc(o, buf).status))
  {
    hide Route, Accept, Reject, Complete, Status.Code;
    match Parse(buf)
    case Refused(st) =>
      RejectFrame(o, buf, st);
    case Parsed(tc) =>
      AcceptFrame(o, tc);
      RouteFailure(Accept(o, tc), tc);
      CompleteFrame(Route(Accept(o, tc), tc).obc, tc, Route(Accept(o, tc), tc).status);
  }

  // ---- Enable lists ----

  /** A list is applied as a whole: every flag it names takes the new value, no other moves. */
  lemma {:induction false} SetFlagsMeaning(flags: seq<bool>, ids: seq<int>, value: bool, k: int)
    requires AllWithin(ids, |flags|) && 1 <= k <= |flags|
    ensures SetFlags(flags, ids, value)[k - 1] == if k in ids then value else flags[k - 1]
  {
    if ids != [] {
      var n := |ids| - 1;
      SetFlagsMeaning(flags, ids[..n], value, k);
      assert ids == ids[..n] + [ids[n]];
    }
  }

  /** A well-formed list of event identifiers, all of them defined. */
  predicate EventListValid(data: seq<octet>) {
    |data| >= 1 && |data| == 1 + 2 * data[0] as int && data[0] > 0 && AllWithin(EventIds(data, data[0] as int), 8)
  }

  lemma RouteFlags(o: Obc, tc: Telecommand)
    ensures Route(o, tc).obc.hkEnabled ==
      if tc.service == 3 && tc.subtype in {5, 6} && ValidList(tc.data)
      then SetFlags(o.hkEnabled, Sids(tc.data), tc.subtype == 5)
      else o.hkEnabled
    ensures Route(o, tc).obc.evEnabled ==
      if tc.service == 5 && tc.subtype in {5, 6} && EventListValid(tc.data)
      then SetFlags(o.evEnabled, EventIds(tc.data, tc.data[0] as int), tc.subtype == 6)
      else o.evEnabled
  {
    hide Link.Push, Raise, ApplyHeater, SetMode, Link.PushAll, SetFlags;
    HeaterPosts(o, true);
    HeaterPosts(o, false);
    ModePosts(o, Safe);
    ModePosts(o, Nominal);
    if IsOneShot(tc) && ValidList(tc.data) {
      OneShotFrame(o, Sids(tc.data));
    }
  }

  predicate IsFunction(tc: Telecommand, fid: octet, args: nat) {
    tc.service == 8 && tc.subtype == 1 && |tc.data| == 1 + args && tc.data[0] == fid
  }

  lemma ArgumentFields(data: seq<octet>)
    ensures |data| == 3 ==> GetU16(data[1..], 0) == GetU16(data, 1)
    ensures |data| == 7 ==> GetU32(data[1..], 0) == GetU32(data, 1) && GetU16(data[1..], 4) == GetU16(data, 5)
  {
  }

  /** The board after a telecommand, but for the heater line. */
  function BoardAfter(b: Board, tc: Telecommand): Board {
    if IsFunction(tc, 3, 2) then b.(sensor := Signed(GetU16(tc.data, 1)))
    else if IsFunction(tc, 5, 6) then b.SetTime(Telemetry.Cuc(GetU32(tc.data, 1), GetU16(tc.data, 5)))
    else b
  }

  lemma FunctionBoard(o: Obc, tc: Telecommand)
    requires tc.service == 8
    ensures Function8(o, tc).obc.board.(heater := o.board.heater) == BoardAfter(o.board, tc).(heater := o.board.heater)
  {
    ArgumentFields(tc.data);
    hide GetU16, GetU32, Link.Push, Raise, ApplyHeater, SetMode, Link.PushAll, Board.SetTime;
    HeaterPosts(o, true);
    HeaterPosts(o, false);
    ModePosts(o, Safe);
    ModePosts(o, Nominal);
  }

  lemma RouteBoard(o: Obc, tc: Telecommand)
    ensures Route(o, tc).obc.board.(heater := o.board.heater) == BoardAfter(o.board, tc).(heater := o.board.heater)
  {
    if tc.service == 8 {
      FunctionBoard(o, tc);
    } else if IsOneShot(tc) && ValidList(tc.data) {
      OneShotFrame(o, Sids(tc.data));
    }
    hide GetU16, GetU32, Link.Push, Function8;
  }

  lemma NowOfBoard(b: Board, heater: bool, sensor: i16)
    ensures b.(heater := heater, sensor := sensor).Now() == b.Now()
  {
  }

  lemma BoardParts(b: Board, tc: Telecommand)
    ensures BoardAfter(b, tc).sensor == if IsFunction(tc, 3, 2) then Signed(GetU16(tc.data, 1)) else b.sensor
    ensures BoardAfter(b, tc).ticks == b.ticks
    ensures BoardAfter(b, tc).Now() ==
      if !IsFunction(tc, 5, 6) then b.Now()
      else if GetU16(tc.data, 5) >= b.Fraction() then Telemetry.Cuc(GetU32(tc.data, 1), GetU16(tc.data, 5))
      else Telemetry.Cuc((GetU32(tc.data, 1) + 1) % TWO32, GetU16(tc.data, 5))
  {
    hide Board.Fraction, Board.Now, Board.ElapsedMs, GetU16, GetU32;
    if IsFunction(tc, 5, 6) {
      SetTimeReadBack(b, Telemetry.Cuc(GetU32(tc.data, 1), GetU16(tc.data, 5)));
    } else if IsFunction(tc, 3, 2) {
      NowOfBoard(b, b.heater, Signed(GetU16(tc.data, 1)));
    }
  }

  /** Only function 3 moves the thermistor, to the value it carries; only function 5 moves the
      time, which then reads as commanded if the fine part allows, and one second late if not. */
  lemma SensorAndTimeAfter(o: Obc, buf: seq<octet>)
    ensures var b, b' := o.board, ProcessTc(o, buf).obc.board;
      match Parse(buf)
      case Refused(_) => b' == b
      case Parsed(tc) =>
        && b'.sensor == (if IsFunction(tc, 3, 2) then Signed(GetU16(tc.data, 1)) else b.sensor)
        && b'.ticks == b.ticks
        && b'.Now() == (if !IsFunction(tc, 5, 6) then b.Now()
                        else if GetU16(tc.data, 5) >= b.Fraction()
                        then Telemetry.Cuc(GetU32(tc.data, 1), GetU16(tc.data, 5))
                        else Telemetry.Cuc((GetU32(tc.data, 1) + 1) % TWO32, GetU16(tc.data, 5)))
  {
    hide Route, Accept, Reject, Complete, Status.Code, Board.Now, Board.Fraction, GetU16, GetU32, Signed, BoardAfter;
    match Parse(buf)
    case Refused(st) =>
      RejectFrame(o, buf, st);
    case Parsed(tc) =>
      var routed := Route(Accept(o, tc), tc);
      var after := BoardAfter(o.board, tc);
      AcceptFrame(o, tc);
      RouteBoard(Accept(o, tc), tc);
      CompleteFrame(routed.obc, tc, routed.status);
      NowOfBoard(routed.obc.board, after.heater, after.sensor);
      BoardParts(o.board, tc);
      assert routed.obc.board.(heater := after.heater, sensor := after.sensor) == after;
  }

  // ---- The counters ----

  predicate IsReset(tc: Telecommand) {
    tc.service == 8 && tc.subtype == 1 && tc.data == [4]
  }

  /** Telecommands accepted, and rejected, since the last counter reset. */
  function AcceptedCount(steps: seq<Step>): nat {
    if steps == [] then 0 else
    var before := AcceptedCount(steps[..|steps| - 1]);
    match steps[|steps| - 1]
    case Command(buf) =>
      (match Parse(buf)
       case Refused(_) => before
       case Parsed(tc) => if IsReset(tc) then 0 else before + 1)
    case Cycle => before
    case Fetch(_) => before
    case Sense(_) => before
  }

  function RejectedCount(steps: seq<Step>): nat {
    if steps == [] then 0 else
    var before := RejectedCount(steps[..|steps| - 1]);
    match steps[|steps| - 1]
    case Command(buf) =>
      (match Parse(buf)
       case Refused(_) => before + 1
       case Parsed(tc) => if IsReset(tc) then 0 else before)
    case Cycle => before
    case Fetch(_) => before
    case Sense(_) => before
  }

  lemma RouteCounters(o: Obc, tc: Telecommand)
    ensures Route(o, tc).obc.accepted == if IsReset(tc) then 0 else o.accepted
    ensures Route(o, tc).obc.rejected == if IsReset(tc) then 0 else o.rejected
  {
    hide Link.Push, Raise, ApplyHeater, SetMode, Link.PushAll;
    HeaterPosts(o, true);
    HeaterPosts(o, false);
    ModePosts(o, Safe);
    ModePosts(o, Nominal);
    if IsOneShot(tc) && ValidList(tc.data) {
      OneShotFrame(o, Sids(tc.data));
    }
  }

  lemma TcCounters(o: Obc, buf: seq<octet>)
    ensures var o' := ProcessTc(o, buf).obc;
      match Parse(buf)
      case Refused(_) => o'.accepted == o.accepted && o'.rejected == Saturated(o.rejected as int + 1)
      case Parsed(tc) =>
        && o'.accepted == (if IsReset(tc) then 0 else Saturated(o.accepted as int + 1))
        && o'.rejected == (if IsReset(tc) then 0 else o.rejected)
  {
    hide Route, Accept, Reject, Complete, IsReset, Status.Code;
    match Parse(buf)
    case Refused(st) =>
      RejectFrame(o, buf, st);
    case Parsed(tc) =>
      AcceptFrame(o, tc);
      RouteCounters(Accept(o, tc), tc);
      CompleteFrame(Route(Accept(o, tc), tc).obc, tc, Route(Accept(o, tc), tc).status);
  }

  lemma SaturatedStep(n: nat)
    ensures Saturated(Saturated(n) as int + 1) == Saturated(n + 1)
  {
  }

  /** Over every run the counters are the true counts since the last reset, up to 65535. */
  lemma {:induction false} CountersCount(steps: seq<Step>)
    ensures Run(steps).accepted == Saturated(AcceptedCount(steps))
    ensures Run(steps).rejected == Saturated(RejectedCount(steps))
  {
    hide Tick, ProcessTc, Parse, IsReset, Saturated;
    if steps == [] {
      InitCounters();
    } else {
      var before := steps[..|steps| - 1];
      var o := Run(before);
      CountersCount(before);
      SaturatedStep(AcceptedCount(before));
      SaturatedStep(RejectedCount(before));
      NothingCounted();
      match steps[|steps| - 1]
      case Command(buf) => TcCounters(o, buf);
      case Cycle => TickSamples(o);
      case Fetch(_) =>
      case Sense(_) =>
    }
  }

  lemma NothingCounted()
    ensures Saturated(0) == 0
  {
  }

  lemma InitCounters()
    ensures Init().accepted == 0 && Init().rejected == 0 && Saturated(0) == 0
  {
    hide Link.Push;
  }
}
