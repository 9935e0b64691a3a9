/** Periodic housekeeping over whole runs, and what the ground reads in it
    (src/svc03_housekeeping.c:58-87, 165-180). */
module HousekeepingRuns {
  import opened Arithmetic
  import opened Downlink
  import opened HalHost
  import opened Octets
  import opened Onboard
  import opened OverflowNotices
  import opened Postings
  import opened Reports
  import opened Telemetry
  import opened ThermalControl

  /** Minor cycles since initialisation, without the wrap of the uptime counter. */
  function Cycles(steps: seq<Step>): nat {
    if steps == [] then 0 else Cycles(steps[..|steps| - 1]) + (if steps[|steps| - 1].Cycle? then 1 else 0)
  }

  lemma PhaseStep(n: nat)
    ensures NextPhase(n % 10) == (n + 1) % 10
    ensures (n % 0x1_0000_0000 + 1) % TWO32 == (n + 1) % 0x1_0000_0000
    ensures (n % 10 + 1) % TWO32 < HK_PERIOD <==> (n + 1) % 10 != 0
  {
    ReducedSum(n, 1, HK_PERIOD);
    ReducedSum(n, 1, TWO32);
    var p := n % HK_PERIOD;
    Euclid(0, p + 1, TWO32);
    if p + 1 < HK_PERIOD {
      Euclid(0, p + 1, HK_PERIOD);
    } else {
      Euclid(1, 0, HK_PERIOD);
    }
  }

  lemma StepPhase(o: Obc, s: Step)
    ensures Apply(o, s).phase == if s.Cycle? then NextPhase(o.phase) else o.phase
    ensures Apply(o, s).uptime == if s.Cycle? then (o.uptime + 1) % TWO32 else o.uptime
  {
    hide Tick, ProcessTc, NextPhase;
    match s
    case Command(buf) => TcFrame(o, buf);
    case Cycle => TickSamples(o);
    case Fetch(_) =>
    case Sense(_) =>
  }

  lemma InitPhase()
    ensures Init().phase == 0 && Init().uptime == 0
  {
    hide Link.Push;
  }

  /** Whatever telecommands are interleaved, the phase counts cycles modulo ten. */
  lemma {:induction false} PhaseCounts(steps: seq<Step>)
    ensures Run(steps).phase == Cycles(steps) % 10
    ensures Run(steps).uptime == Cycles(steps) % 0x1_0000_0000
  {
    hide Apply, Init, NextPhase;
    if steps == [] {
      InitPhase();
    } else {
      var before := steps[..|steps| - 1];
      PhaseCounts(before);
      PhaseStep(Cycles(before));
      StepPhase(Run(before), steps[|steps| - 1]);
    }
  }

  lemma {:induction false} NoHk(ps: seq<Posting>)
    requires forall i :: 0 <= i < |ps| ==> ps[i].report.Event?
    ensures OfService(3, ps) == []
  {
    if ps != [] {
      NoHk(ps[..|ps| - 1]);
    }
  }

  lemma ThermalIsEvents(o: Obc)
    ensures forall i :: 0 <= i < |ThermalOut(o)| ==> ThermalOut(o)[i].report.Event?
    ensures forall i :: 0 <= i < |NoticeOut(o)| ==> NoticeOut(o)[i].report.Event?
  {
  }

  /** What is due at the end of a cycle, told by the state the cycle leaves: one report per enabled
      structure, in ascending order. The diagnostic counts the queue just before itself. */
  function Due(o: Obc, before: Link): seq<Report> {
    var first := if o.hkEnabled[0] then [Essential(o.mode.Nominal?, o.uptime, o.temperature, o.heaterOn)] else [];
    var link := if o.hkEnabled[0] then before.Push(Now(o, first[0])) else before;
    var second := Diagnostic(o.accepted, o.rejected, o.lastFailure, |link.queue| % 0x100, link.overflows);
    first + (if o.hkEnabled[1] then [second] else [])
  }

  lemma HkOutDue(o: Obc)
    ensures OfService(3, HkOut(o)) == if (o.phase + 1) % TWO32 < HK_PERIOD then [] else Due(HkTick(o), o.link)
  {
    hide Link.Push, HkTick;
    HkPosts(o);
    var first := HkOneOut(o, 1);
    var next := o.(link := o.link.PushAll(first));
    if o.hkEnabled[0] {
      PushAllOne(o.link, first[0]);
    } else {
      PushAllNone(o.link);
    }
    hide Link.PushAll;
    OfServiceAppend(3, first, HkOneOut(next, 2));
    OneReport(o, 1);
    OneReport(next, 2);
  }

  lemma OneReport(o: Obc, sid: nat)
    requires 1 <= sid <= 2
    ensures OfService(3, HkOneOut(o, sid)) == if o.hkEnabled[sid - 1] then [HkReport(o, sid)] else []
  {
    var ps := HkOneOut(o, sid);
    assert OfService(3, []) == [];
    if |ps| == 1 {
      assert ps[..0] == [];
    }
  }

  /** The cadence: in any run, a cycle attempts housekeeping exactly when it is the tenth, the
      twentieth, and so on since initialisation, and then one report per enabled structure that
      tells the state the cycle leaves. */
  lemma Cadence(steps: seq<Step>)
    ensures var o := Run(steps);
      var before := NoticeOverflow(Thermal(Acquire(o))).link;
      OfService(3, TickOut(o)) == if (Cycles(steps) + 1) % 10 == 0 then Due(Tick(o), before) else []
  {
    hide Run, Thermal, ThermalOut, NoticeOverflow, NoticeOut, HkOut, Due, HkTick, OfService, Link.PushAll, Acquire;
    var o := Run(steps);
    var warm := Thermal(Acquire(o));
    var noted := NoticeOverflow(warm);
    PhaseCounts(steps);
    PhaseStep(Cycles(steps));
    NotedPhase(o);
    hide Cycles;
    ThermalIsEvents(Acquire(o));
    ThermalIsEvents(warm);
    NoHk(ThermalOut(Acquire(o)));
    NoHk(NoticeOut(warm));
    OfServiceAppend(3, ThermalOut(Acquire(o)), NoticeOut(warm));
    OfServiceAppend(3, ThermalOut(Acquire(o)) + NoticeOut(warm), HkOut(noted));
    HkOutDue(noted);
  }

  lemma NotedPhase(o: Obc)
    ensures NoticeOverflow(Thermal(Acquire(o))).phase == o.phase
  {
    hide Thermal, NoticeOverflow, ThermalOut, NoticeOut, Link.PushAll;
    ThermalPosts(Acquire(o));
    NoticePosts(Thermal(Acquire(o)));
  }

  // ---- Everything sent can be read ----

  ghost predicate Readable(p: Packet) {
    p.seqCount < 0x4000 && p.report.Valid()
  }

  /** The ground decodes a packet to the report, the numbers and the time the unit gave it. */
  lemma GroundReadsPacket(p: Packet)
    requires Readable(p)
    ensures p.Tm().Valid()
    ensures ParseTm(p.Tm().Octets()) == Decoded(GroundTm(SpacePacket.APID, p.Tm(), DESTINATION, p.Tm().Octets()))
    ensures Decode(p.Tm().service, p.Tm().subtype, p.Tm().data) == Some(p.report)
  {
    hide TmPacket.Octets, ParseTm, Decode;
    GroundReads(p.Tm());
    DecodeReport(p.report);
  }

  ghost predicate AllReadable(l: Link) {
    l.seqCount < 0x4000 && forall k :: 0 <= k < |l.log| ==> Readable(l.log[k].packet)
  }

  lemma {:induction false} PushAllReadable(l: Link, ps: seq<Posting>)
    requires AllReadable(l) && forall i :: 0 <= i < |ps| ==> ps[i].report.Valid()
    ensures AllReadable(l.PushAll(ps))
    decreases |ps|
  {
    if ps != [] {
      LogExtended(l, ps[0]);
      PushAllReadable(l.Push(ps[0]), ps[1..]);
    }
  }

  lemma TickValid(o: Obc)
    ensures forall i :: 0 <= i < |TickOut(o)| ==> TickOut(o)[i].report.Valid()
  {
    hide Thermal, ThermalOut, NoticeOverflow, HkOut;
    var warm := Thermal(Acquire(o));
    ThermalQuiet(Acquire(o));
    HkQuiet(NoticeOverflow(warm));
  }

  /** Every packet ever built in any run is decoded by the ground to exactly its report. */
  lemma {:induction false} RunReadable(steps: seq<Step>)
    ensures AllReadable(Run(steps).link)
  {
    hide Tick, ProcessTc, TcOut, TickOut;
    if steps == [] {
      LogExtended(Empty, Posting(Event(EVT_BOOT, INFORMATIVE, 0), PowerOn.Now()));
    } else {
      var o := Run(steps[..|steps| - 1]);
      RunReadable(steps[..|steps| - 1]);
      match steps[|steps| - 1]
      case Command(buf) =>
        TcPosts(o, buf);
        TcQuiet(o, buf);
        PushAllReadable(o.link, TcOut(o, buf));
      case Cycle =>
        TickPosts(o);
        TickValid(o);
        PushAllReadable(o.link, TickOut(o));
      case Fetch(_) =>
      case Sense(_) =>
    }
  }
}
