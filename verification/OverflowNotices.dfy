/** The queue cannot report its own overflow; the application samples the counter once per cycle.
    No change of the counter goes unreported, as long as the counter still moves. */
module OverflowNotices {
  import opened Downlink
  import opened DownlinkRuns
  import opened HalHost
  import opened Octets
  import opened Onboard
  import opened Postings
  import opened Reports
  import opened Status
  import opened Telecommand
  import opened TmQueue

  predicate IsNotice(r: Report) {
    r.Event? && r.id == 4
  }

  /** No notice among these, and every report fits the event subtypes. */
  ghost predicate Quiet(ps: seq<Posting>) {
    forall i :: 0 <= i < |ps| ==> !IsNotice(ps[i].report) && ps[i].report.Valid()
  }

  /** The drop count the ground was last told, zero if never: the last notice that found room. */
  function LastNotice(log: seq<Attempt>): u16 {
    if log == [] then 0 else
    var last := log[|log| - 1];
    if last.queued && IsNotice(last.packet.report) then last.packet.report.aux
    else LastNotice(log[..|log| - 1])
  }

  lemma {:induction false} QuietPushAll(l: Link, ps: seq<Posting>)
    requires Quiet(ps)
    ensures LastNotice(l.PushAll(ps).log) == LastNotice(l.log)
    ensures l.PushAll(ps).overflows >= l.overflows
    decreases |ps|
  {
    if ps != [] {
      LogExtended(l, ps[0]);
      QuietPushAll(l.Push(ps[0]), ps[1..]);
    }
  }

  lemma HeaterQuiet(o: Obc, on: bool)
    ensures Quiet(HeaterOut(o, on)) && Quiet(AlarmOut(o))
  {
  }

  lemma ModeQuiet(o: Obc, mode: Mode)
    ensures Quiet(ModeOut(o, mode))
  {
    HeaterQuiet(o, false);
  }

  lemma ThermalQuiet(o: Obc)
    ensures Quiet(ThermalOut(o))
  {
    hide ModeOut, HeaterOut, AlarmOut;
    HeaterQuiet(o, false);
    HeaterQuiet(o, true);
    ModeQuiet(o, Safe);
  }

  lemma HkQuiet(o: Obc)
    ensures Quiet(HkOut(o))
  {
  }

  lemma {:induction false} OneShotQuiet(o: Obc, sids: seq<int>)
    requires AllWithin(sids, 2)
    ensures Quiet(OneShotOut(o, sids))
    decreases |sids|
  {
    if sids != [] && o.link.Room() > 0 {
      OneShotQuiet(o.(link := o.link.Push(Now(o, HkReport(o, sids[0])))), sids[1..]);
    }
  }

  lemma ServiceQuiet(o: Obc, tc: Telecommand)
    ensures Quiet(ServiceOut(o, tc))
  {
    hide ModeOut, HeaterOut, AlarmOut, OneShotOut;
    if IsOneShot(tc) && ValidList(tc.data) {
      OneShotQuiet(o, Sids(tc.data));
    }
    HeaterQuiet(o, false);
    HeaterQuiet(o, true);
    ModeQuiet(o, Safe);
    ModeQuiet(o, Nominal);
  }

  lemma CompletionQuiet(o: Obc, tc: Telecommand, st: Status)
    ensures Quiet(CompletionOut(o, tc, st))
  {
  }

  lemma TcQuiet(o: Obc, buf: seq<octet>)
    ensures Quiet(TcOut(o, buf))
  {
    hide ServiceOut, CompletionOut, Route, Accept;
    if Parse(buf).Parsed? {
      var tc := Parse(buf).tc;
      var accepted := Accept(o, tc);
      var routed := Route(accepted, tc);
      ServiceQuiet(accepted, tc);
      CompletionQuiet(routed.obc, tc, routed.status);
    }
  }

  /** The ground knows the count, or the next cycle will see a difference. */
  ghost predicate Told(o: Obc) {
    LastNotice(o.link.log) == o.link.overflows || o.link.overflows != o.lastOverflow
  }

  /** A notice never shows more than was sampled, and whatever the ground was not told is pending,
      or the counter is stuck at its maximum. */
  ghost predicate NoticeKept(o: Obc) {
    && LastNotice(o.link.log) <= o.lastOverflow <= o.link.overflows
    && (Told(o) || o.link.overflows == 0xFFFF)
  }

  /** Sampled now, the notice would show the saturated counter and find no room. */
  predicate Unheard(o: Obc) {
    o.link.overflows == 0xFFFF != o.lastOverflow && o.link.Room() == 0
  }

  /** That is what a minor cycle from here comes to. */
  predicate UnheardBy(o: Obc) {
    Unheard(Thermal(Acquire(o)))
  }

  lemma QuietKeeps(o: Obc, o': Obc, ps: seq<Posting>)
    requires NoticeKept(o) && Quiet(ps)
    requires o'.link == o.link.PushAll(ps) && o'.lastOverflow == o.lastOverflow
    requires |o.link.queue| <= DEPTH
    ensures NoticeKept(o') && (Told(o') <==> Told(o)) && |o'.link.queue| <= DEPTH
  {
    hide Quiet, LastNotice, Link.PushAll;
    QuietPushAll(o.link, ps);
    PushAllAttempts(o.link, ps);
  }

  /** Sampling loses a change exactly if the counter is saturated and the queue is full. */
  lemma NoticeStep(o: Obc)
    requires NoticeKept(o) && o.evEnabled[3] && |o.link.queue| <= DEPTH
    ensures NoticeKept(NoticeOverflow(o)) && |NoticeOverflow(o).link.queue| <= DEPTH
    ensures Told(NoticeOverflow(o)) <==> Told(o) && !Unheard(o)
  {
    if o.link.overflows != o.lastOverflow {
      LogExtended(o.link, Now(o, Event(EVT_OVERFLOW, LOW, o.link.overflows)));
    }
  }

  lemma ThermalFrame(o: Obc)
    ensures Thermal(o).lastOverflow == o.lastOverflow && Thermal(o).evEnabled == o.evEnabled
  {
    hide Thermal, ThermalOut, Link.PushAll;
    ThermalPosts(o);
  }

  lemma HkFrame(o: Obc)
    ensures HkTick(o).lastOverflow == o.lastOverflow
  {
    hide HkTick, HkOut, Link.PushAll;
    HkPosts(o);
  }

  lemma TickKeeps(o: Obc)
    requires NoticeKept(o) && o.evEnabled[3] && |o.link.queue| <= DEPTH
    ensures NoticeKept(Tick(o))
    ensures Told(Tick(o)) <==> Told(o) && !UnheardBy(o)
  {
    hide Thermal, ThermalOut, HkTick, HkOut, NoticeOverflow, NoticeKept, Told, Unheard, Quiet;
    var cold := Acquire(o);
    AcquireKeeps(o);
    ThermalPosts(cold);
    ThermalQuiet(cold);
    ThermalFrame(cold);
    QuietKeeps(cold, Thermal(cold), ThermalOut(cold));
    NoticeStep(Thermal(cold));
    var noted := NoticeOverflow(Thermal(cold));
    HkPosts(noted);
    HkQuiet(noted);
    HkFrame(noted);
    QuietKeeps(noted, HkTick(noted), HkOut(noted));
  }

  lemma AcquireKeeps(o: Obc)
    requires NoticeKept(o)
    ensures NoticeKept(Acquire(o)) && (Told(Acquire(o)) <==> Told(o))
  {
    hide LastNotice;
  }

  ghost predicate EnabledAtCycles(steps: seq<Step>) {
    forall n :: 0 <= n < |steps| && steps[n].Cycle? ==> Run(steps[..n]).evEnabled[3]
  }

  predicate UnheardAt(steps: seq<Step>, n: nat)
    requires n < |steps|
  {
    steps[n].Cycle? && UnheardBy(Run(steps[..n]))
  }

  /** No cycle of the run samples the counter at its maximum, for the first time, with the queue full. */
  ghost predicate AlwaysHeard(steps: seq<Step>) {
    forall n :: 0 <= n < |steps| ==> !UnheardAt(steps, n)
  }

  lemma LastStep(steps: seq<Step>)
    requires steps != []
    ensures var n := |steps| - 1; var before := steps[..n];
      && (EnabledAtCycles(steps) ==> EnabledAtCycles(before))
      && (AlwaysHeard(steps) <==> AlwaysHeard(before) && !UnheardAt(steps, n))
  {
    hide Run, UnheardBy;
    var n := |steps| - 1;
    var before := steps[..n];
    assert forall k :: 0 <= k < n ==> before[..k] == steps[..k];
    assert forall k :: 0 <= k < n ==> UnheardAt(before, k) == UnheardAt(steps, k);
  }

  /** With event 4 enabled at every cycle, in any run: no change of the overflow counter below
      65535 is lost, and the ground is told of the present count, or about to be, exactly if no
      cycle sampled the saturated counter with the queue full. */
  lemma {:induction false} OverflowNeverLost(steps: seq<Step>)
    requires EnabledAtCycles(steps)
    ensures NoticeKept(Run(steps))
    ensures Told(Run(steps)) <==> AlwaysHeard(steps)
  {
    hide Accounted, Apply, NoticeKept, Told, UnheardBy, AlwaysHeard, Tick, ProcessTc, Quiet, TcOut;
    if steps == [] {
      InitKeeps();
    } else {
      var n := |steps| - 1;
      var o := Run(steps[..n]);
      LastStep(steps);
      OverflowNeverLost(steps[..n]);
      QueueBounded(steps[..n]);
      match steps[n]
      case Command(buf) =>
        TcPosts(o, buf);
        TcQuiet(o, buf);
        TcFrame(o, buf);
        ApplyUnfolds(o, steps[n]);
        QuietKeeps(o, ProcessTc(o, buf).obc, TcOut(o, buf));
      case Cycle =>
        ApplyUnfolds(o, steps[n]);
        TickKeeps(o);
      case Fetch(_) =>
        OtherStepsKeep(o, steps[n]);
      case Sense(_) =>
        OtherStepsKeep(o, steps[n]);
    }
  }

  lemma InitKeeps()
    ensures NoticeKept(Init()) && Told(Init()) && AlwaysHeard([])
  {
    LogExtended(Empty, Posting(Event(EVT_BOOT, INFORMATIVE, 0), PowerOn.Now()));
  }

  lemma QueueBounded(steps: seq<Step>)
    ensures |Run(steps).link.queue| <= DEPTH
  {
    RunAccounted(steps);
    hide Run, Survivors, Drops, Built, Numbered;
  }

  lemma OtherStepsKeep(o: Obc, s: Step)
    requires NoticeKept(o) && (s.Fetch? || s.Sense?)
    ensures NoticeKept(Apply(o, s)) && (Told(Apply(o, s)) <==> Told(o))
  {
    hide ProcessTc, Tick, LastNotice;
  }

  // ---- Once the counter sticks ----

  ghost predicate Stuck(o: Obc) {
    o.link.overflows == o.lastOverflow == 0xFFFF
  }

  lemma StuckStep(o: Obc, s: Step)
    requires Stuck(o)
    ensures Stuck(Apply(o, s)) && LastNotice(Apply(o, s).link.log) == LastNotice(o.link.log)
  {
    hide ProcessTc, TcOut, Thermal, ThermalOut, HkTick, HkOut, Quiet, LastNotice, Link.PushAll;
    match s
    case Command(buf) =>
      TcPosts(o, buf);
      TcQuiet(o, buf);
      TcFrame(o, buf);
      QuietPushAll(o.link, TcOut(o, buf));
    case Cycle =>
      ThermalKeepsNotice(Acquire(o));
      HkKeepsNotice(Thermal(Acquire(o)));
    case Fetch(_) =>
    case Sense(_) =>
  }

  lemma ThermalKeepsNotice(o: Obc)
    ensures Thermal(o).lastOverflow == o.lastOverflow && Thermal(o).link.overflows >= o.link.overflows
    ensures LastNotice(Thermal(o).link.log) == LastNotice(o.link.log)
  {
    hide Thermal, ThermalOut, Quiet, LastNotice, Link.PushAll;
    ThermalPosts(o);
    ThermalQuiet(o);
    ThermalFrame(o);
    QuietPushAll(o.link, ThermalOut(o));
  }

  lemma HkKeepsNotice(o: Obc)
    ensures HkTick(o).lastOverflow == o.lastOverflow && HkTick(o).link.overflows >= o.link.overflows
    ensures LastNotice(HkTick(o).link.log) == LastNotice(o.link.log)
  {
    hide HkTick, HkOut, Quiet, LastNotice, Link.PushAll;
    HkPosts(o);
    HkQuiet(o);
    HkFrame(o);
    QuietPushAll(o.link, HkOut(o));
  }

  /** The maximum once sampled, no notice is ever sent again, whatever the unit goes through. */
  lemma {:induction false} NoNoticeOnceStuck(o: Obc, after: seq<Step>)
    requires Stuck(o)
    ensures Stuck(Onward(o, after)) && LastNotice(Onward(o, after).link.log) == LastNotice(o.link.log)
    decreases |after|
  {
    hide Apply, Stuck, LastNotice;
    if after != [] {
      NoNoticeOnceStuck(o, after[..|after| - 1]);
      StuckStep(Onward(o, after[..|after| - 1]), after[|after| - 1]);
    }
  }

  /** The exception: after a cycle that samples the maximum with the queue full, the last notice the
      ground was sent stays the last. */
  lemma SaturatedNoticeLost(o: Obc, after: seq<Step>)
    requires UnheardBy(o)
    ensures var o' := Onward(Tick(o), after);
      Stuck(o') && LastNotice(o'.link.log) == LastNotice(o.link.log)
  {
    hide Thermal, HkTick, LastNotice, Onward;
    var warm := Thermal(Acquire(o));
    ThermalKeepsNotice(Acquire(o));
    LogExtended(warm.link, Now(warm, Event(EVT_OVERFLOW, LOW, warm.link.overflows)));
    assert LastNotice(NoticeOverflow(warm).link.log) == LastNotice(warm.link.log) by { UnheardAppends(warm); }
    HkKeepsNotice(NoticeOverflow(warm));
    NoNoticeOnceStuck(Tick(o), after);
  }

  lemma UnheardAppends(o: Obc)
    requires Unheard(o)
    ensures Stuck(NoticeOverflow(o)) && LastNotice(NoticeOverflow(o).link.log) == LastNotice(o.link.log)
  {
    LogExtended(o.link, Now(o, Event(EVT_OVERFLOW, LOW, o.link.overflows)));
  }

  // ---- A run that gets there ----

  /** Nothing but strings too short to be telecommands, and no fetch. */
  function Flood(n: nat): (s: seq<Step>)
    ensures |s| == n
  {
    seq(n, _ => Command([]))
  }

  ghost predicate Flooded(o: Obc, n: nat) {
    && o.mode.Safe? && !o.heaterOn && o.evEnabled == seq(8, _ => true)
    && o.lastOverflow == 0 && LastNotice(o.link.log) == 0
    && |o.link.queue| == (if 1 + 2 * n <= DEPTH then 1 + 2 * n else DEPTH)
    && o.link.overflows == (if 1 + 2 * n <= DEPTH then 0 else Saturated(1 + 2 * n - DEPTH))
  }

  lemma RejectionStep(o: Obc, n: nat)
    requires Flooded(o, n)
    ensures Flooded(ProcessTc(o, []).obc, n + 1)
  {
    hide LastNotice, Quiet, Link.PushAll, Reject, Status.Code;
    TcPosts(o, []);
    TcQuiet(o, []);
    RejectFrame(o, [], Truncated);
    QuietPushAll(o.link, TcOut(o, []));
    PushAllAttempts(o.link, TcOut(o, []));
    PushAllOverflows(o.link, TcOut(o, []));
  }

  lemma {:induction false} FloodReaches(n: nat)
    ensures Flooded(Run(Flood(n)), n)
  {
    hide ProcessTc, Flooded;
    if n == 0 {
      InitFlooded();
    } else {
      assert Flood(n)[..n - 1] == Flood(n - 1);
      FloodReaches(n - 1);
      RejectionStep(Run(Flood(n - 1)), n - 1);
    }
  }

  lemma InitFlooded()
    ensures Flooded(Init(), 0)
  {
    LogExtended(Empty, Posting(Event(EVT_BOOT, INFORMATIVE, 0), PowerOn.Now()));
  }

  /** After 32775 such strings the counter stands at its maximum, unsampled, with the queue full;
      the next cycle's notice is lost, and in no continuation does a notice show a single one of the
      drops. */
  lemma SaturationReached(n: nat, after: seq<Step>)
    requires n >= 32775
    ensures EnabledAtCycles(Flood(n) + [Cycle]) && UnheardAt(Flood(n) + [Cycle], n)
    ensures var o := Run(Flood(n) + [Cycle] + after); Stuck(o) && LastNotice(o.link.log) == 0
  {
    hide Tick, Run, LastNotice, UnheardBy, Flood, Stuck, Onward;
    FloodReaches(n);
    FloodUnheard(Run(Flood(n)), n);
    CycleAfter(Flood(n), after);
    SaturatedNoticeLost(Run(Flood(n)), after);
    assert (Flood(n) + [Cycle])[..n] == Flood(n);
    OnlyCycle(n);
  }

  lemma CycleAfter(before: seq<Step>, after: seq<Step>)
    ensures Run(before + [Cycle] + after) == Onward(Tick(Run(before)), after)
  {
    hide Tick, Init;
    OnwardAppend(Init(), before + [Cycle], after);
    OnwardAppend(Init(), before, [Cycle]);
    assert [Cycle][..0] == [];
    ApplyUnfolds(Run(before), Cycle);
  }

  lemma OnlyCycle(n: nat)
    requires Flooded(Run(Flood(n)), n)
    ensures EnabledAtCycles(Flood(n) + [Cycle])
  {
    hide Run, LastNotice;
    var steps := Flood(n) + [Cycle];
    assert steps[..n] == Flood(n);
    assert forall k :: 0 <= k < n ==> steps[k] == Command([]);
  }

  lemma FloodUnheard(o: Obc, n: nat)
    requires Flooded(o, n) && n >= 32775
    ensures UnheardBy(o)
  {
    hide LastNotice, Thermal;
    ThermalPosts(Acquire(o));
    ThermalFrame(Acquire(o));
    assert ThermalOut(Acquire(o)) == [];
    PushAllNone(o.link);
  }

  // ---- When the notice is sure to get through ----

  lemma ThermalShort(o: Obc)
    ensures |ThermalOut(o)| <= 3
  {
  }

  /** A cycle that starts with a pending change queues the notice, with the count as it was,
      exactly if thermal control leaves a slot free; four free slots are always enough. */
  lemma NoticeDelivered(o: Obc)
    requires o.evEnabled[3] && |o.link.queue| <= DEPTH
    requires o.link.overflows != o.lastOverflow
    ensures LastNotice(Tick(o).link.log)
         == if |ThermalOut(Acquire(o))| < o.link.Room() then o.link.overflows else LastNotice(o.link.log)
    ensures |ThermalOut(Acquire(o))| < o.link.Room() ==> Tick(o).lastOverflow == o.link.overflows
    ensures |ThermalOut(Acquire(o))| <= 3
  {
    hide Thermal, ThermalOut, HkTick, HkOut, Quiet, Link.PushAll;
    var cold := Acquire(o);
    var warm := Thermal(cold);
    ThermalPosts(cold);
    ThermalShort(cold);
    ThermalKeepsNotice(cold);
    ThermalFrame(cold);
    PushAllAttempts(o.link, ThermalOut(cold));
    assert warm.link.Room() > 0 <==> |ThermalOut(cold)| < o.link.Room();
    LogExtended(warm.link, Now(warm, Event(EVT_OVERFLOW, LOW, warm.link.overflows)));
    var noted := NoticeOverflow(warm);
    assert LastNotice(noted.link.log)
        == if warm.link.Room() > 0 then warm.link.overflows else LastNotice(warm.link.log);
    HkKeepsNotice(noted);
  }
}
