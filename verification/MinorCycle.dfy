/** One minor cycle in the numbers of docs/ICD.md sections 7 and 9: which reports it sends, word for
    word, and which state it leaves (src/obc_app.c:203-256). */
module MinorCycle {
  import opened Downlink
  import opened Execution
  import opened HalHost
  import opened Interface
  import opened Octets
  import opened Onboard
  import opened Postings
  import opened Reports
  import opened Telemetry
  import opened ThermalControl
  import opened TmQueue

  /** NOMINAL survives a sample below 400. */
  function NominalAfter(o: Obc): bool {
    o.mode.Nominal? && o.board.sensor < 400
  }

  /** The heater is off outside NOMINAL and from 250 on, on up to 50, and as it was in between. */
  function HeaterAfter(o: Obc): bool {
    NominalAfter(o) && (o.board.sensor <= 50 || (o.heaterOn && o.board.sensor < 250))
  }

  /** The alarm, the heater, the mode. */
  function ThermalReports(o: Obc): seq<Report> {
    If(o.mode.Nominal? && o.board.sensor >= 400 && !o.alarmLatched && o.evEnabled[5],
       Event(6, 4, o.board.sensor % 0x1_0000))
    + If(HeaterAfter(o) != o.heaterOn && o.evEnabled[4], Event(5, 1, if HeaterAfter(o) then 1 else 0))
    + If(NominalAfter(o) != o.mode.Nominal? && o.evEnabled[1], Event(2, 1, 0))
  }

  /** The overflow counter after n more reports. */
  function OverflowsAfter(o: Obc, n: nat): u16 {
    if |o.link.queue| + n <= 16 then o.link.overflows
    else Saturated(o.link.overflows + (|o.link.queue| + n - 16))
  }

  function NoticeReports(o: Obc): seq<Report> {
    var seen := OverflowsAfter(o, |ThermalReports(o)|);
    If(seen != o.lastOverflow && o.evEnabled[3], Event(4, 2, seen))
  }

  /** On every tenth phase the enabled structures, telling the state the cycle leaves. */
  function HousekeepingReports(o: Obc): seq<Report>
    requires |o.link.queue| <= 16
  {
    if (o.phase + 1) % TWO32 < 10 then [] else
    var essential :=
      If(o.hkEnabled[0], Essential(NominalAfter(o), (o.uptime + 1) % TWO32, o.board.sensor, HeaterAfter(o)));
    var before := |ThermalReports(o)| + |NoticeReports(o)| + |essential|;
    var queued: octet := if |o.link.queue| + before <= 16 then |o.link.queue| + before else 16;
    essential
    + If(o.hkEnabled[1], Diagnostic(o.accepted, o.rejected, o.lastFailure, queued, OverflowsAfter(o, before)))
  }

  function CycleReports(o: Obc): seq<Report>
    requires |o.link.queue| <= 16
  {
    ThermalReports(o) + NoticeReports(o) + HousekeepingReports(o)
  }

  lemma AlarmSends(o: Obc)
    ensures AlarmOut(o)
         == At(o.board.Now(), If(!o.alarmLatched && o.evEnabled[5], Event(6, 4, o.temperature % 0x1_0000)))
  {
    hide Board.Now;
    WordOf(o.temperature);
  }

  lemma ThermalSends(o: Obc)
    ensures ThermalOut(Acquire(o)) == At(o.board.Advance().Now(), ThermalReports(o))
  {
    hide Board.Now, Board.Advance, At, AlarmOut, ModeOut, HeaterOut;
    var cold, time := Acquire(o), o.board.Advance().Now();
    SameTime(cold.board, o.board.heater);
    if o.mode.Nominal? && o.board.sensor >= 400 {
      AlarmSends(cold);
      ModeSends(cold, Safe);
      var alarm := If(!o.alarmLatched && o.evEnabled[5], Event(6, 4, o.board.sensor % 0x1_0000));
      AtAppend(time, alarm, ModeReports(cold, false));
      assert ThermalReports(o) == alarm + ModeReports(cold, false);
    } else if !(o.mode.Nominal? && 50 < o.board.sensor < 250) {
      HeaterSends(cold, HeaterAfter(o));
      assert ThermalReports(o) == HeaterReports(cold, HeaterAfter(o));
    } else {
      NothingAt(time);
    }
  }

  lemma NothingAt(time: Cuc)
    ensures At(time, []) == []
  {
  }

  /** What the link counts after some sends. */
  lemma Counted(o: Obc, ps: seq<Posting>, link: Link)
    requires |o.link.queue| <= 16 && link == o.link.PushAll(ps)
    ensures link.overflows == OverflowsAfter(o, |ps|)
    ensures |link.queue| == if |o.link.queue| + |ps| <= 16 then |o.link.queue| + |ps| else 16
  {
    hide Link.PushAll;
    PushAllOverflows(o.link, ps);
    PushAllAttempts(o.link, ps);
  }

  /** Mode, heater and latch after thermal control. */
  lemma WarmState(o: Obc)
    ensures var warm := Thermal(Acquire(o));
      && warm.mode == (if NominalAfter(o) then Nominal else Safe) && warm.heaterOn == HeaterAfter(o)
      && warm.link == o.link.PushAll(ThermalOut(Acquire(o)))
      && warm == Acquire(o).(mode := warm.mode, heaterOn := warm.heaterOn, board := warm.board,
                             alarmLatched := warm.alarmLatched, link := warm.link, raised := warm.raised)
      && warm.board.Now() == o.board.Advance().Now()
  {
    hide Thermal, ThermalOut, Link.PushAll, Board.Now, Board.Advance;
    ThermalPosts(Acquire(o));
    ThermalSamples(Acquire(o));
    SameTime(Acquire(o).board, Thermal(Acquire(o)).board.heater);
  }

  lemma SameTime(b: Board, heater: bool)
    ensures b.(heater := heater).Now() == b.Now()
  {
  }

  lemma NoticeSends(o: Obc)
    requires |o.link.queue| <= 16
    ensures NoticeOut(Thermal(Acquire(o))) == At(o.board.Advance().Now(), NoticeReports(o))
  {
    hide Thermal, ThermalOut, ThermalReports, Board.Now, Board.Advance, OverflowsAfter;
    WarmState(o);
    ThermalSends(o);
    Counted(o, ThermalOut(Acquire(o)), Thermal(Acquire(o)).link);
  }

  lemma HousekeepingSends(o: Obc)
    requires |o.link.queue| <= 16
    ensures HkOut(NoticeOverflow(Thermal(Acquire(o)))) == At(o.board.Advance().Now(), HousekeepingReports(o))
  {
    hide Thermal, ThermalOut, NoticeOut, NoticeOverflow, ThermalReports, NoticeReports, Board.Now, Board.Advance,
         OverflowsAfter, Link.PushAll, HeaterAfter, NominalAfter;
    var cold := Acquire(o);
    var warm := Thermal(cold);
    var noted := NoticeOverflow(warm);
    WarmState(o);
    ThermalSends(o);
    NoticePosts(warm);
    NoticeSends(o);
    PushAllAppend(o.link, ThermalOut(cold), NoticeOut(warm));
    var first := HkOneOut(noted, 1);
    PushAllAppend(o.link, ThermalOut(cold) + NoticeOut(warm), first);
    Counted(o, ThermalOut(cold) + NoticeOut(warm) + first, noted.link.PushAll(first));
    var next := noted.(link := noted.link.PushAll(first));
    HkOneSends(noted, 1);
    HkOneSends(next, 2);
    hide At;
    AtAppend(o.board.Advance().Now(), If(noted.hkEnabled[0], HkReport(noted, 1)),
             If(next.hkEnabled[1], HkReport(next, 2)));
    NothingAt(o.board.Advance().Now());
  }

  lemma HkOneSends(o: Obc, sid: nat)
    requires 1 <= sid <= 2
    ensures HkOneOut(o, sid) == At(o.board.Now(), If(o.hkEnabled[sid - 1], HkReport(o, sid)))
  {
    hide Board.Now, HkReport;
  }

  /** A minor cycle sends exactly these reports, in this order, with the time it has advanced to. */
  lemma CycleExact(o: Obc)
    requires |o.link.queue| <= 16
    ensures TickOut(o) == At(o.board.Advance().Now(), CycleReports(o))
    ensures Tick(o).link == o.link.PushAll(TickOut(o))
  {
    hide Thermal, ThermalOut, NoticeOut, NoticeOverflow, HkOut, Tick, Link.PushAll, At, Board.Now, Board.Advance,
         ThermalReports, NoticeReports, HousekeepingReports;
    var time := o.board.Advance().Now();
    TickPosts(o);
    ThermalSends(o);
    NoticeSends(o);
    HousekeepingSends(o);
    AtAppend(time, ThermalReports(o), NoticeReports(o));
    AtAppend(time, ThermalReports(o) + NoticeReports(o), HousekeepingReports(o));
  }

  /** And leaves exactly this state. */
  lemma CycleState(o: Obc)
    requires |o.link.queue| <= 16
    ensures var o' := Tick(o); var t := o.board.sensor;
      && o' == o.(mode := o'.mode, heaterOn := o'.heaterOn, alarmLatched := o'.alarmLatched, temperature := t,
                  uptime := (o.uptime + 1) % TWO32, phase := o'.phase, lastOverflow := o'.lastOverflow,
                  board := o.board.Advance().(heater := o'.board.heater), link := o'.link, raised := o'.raised)
      && o'.mode == (if NominalAfter(o) then Nominal else Safe)
      && o'.heaterOn == HeaterAfter(o)
      && o'.board.heater == (if o'.heaterOn != o.heaterOn then o'.heaterOn else o.board.heater)
      && (o'.alarmLatched <==> t >= 250 && (o.alarmLatched || (o.mode.Nominal? && t >= 400)))
      && o'.phase == (if (o.phase + 1) % TWO32 < 10 then (o.phase + 1) % TWO32 else 0)
      && o'.lastOverflow == OverflowsAfter(o, |ThermalReports(o)|)
  {
    hide Thermal, ThermalOut, NoticeOut, NoticeOverflow, HkTick, HkOut, Link.PushAll, ThermalReports, OverflowsAfter;
    var cold := Acquire(o);
    var warm := Thermal(cold);
    ThermalPosts(cold);
    ThermalSamples(cold);
    ThermalSends(o);
    Counted(o, ThermalOut(cold), warm.link);
    NoticePosts(warm);
    HkPosts(NoticeOverflow(warm));
  }
}
