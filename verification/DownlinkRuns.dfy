/** Whole runs of the downlink: the books balance, the numbering tells of every lost packet, and
    which reports of a step join the queue. */
module DownlinkRuns {
  import opened Downlink
  import opened HalHost
  import opened Octets
  import opened Onboard
  import opened Postings
  import opened Reports
  import opened TmQueue

  lemma StepAccounted(o: Obc, s: Step)
    requires Accounted(o.link)
    ensures Accounted(Apply(o, s).link)
  {
    hide Accounted, ProcessTc, Tick, TcOut, TickOut;
    match s
    case Command(buf) =>
      TcPosts(o, buf);
      PushAllAccounted(o.link, TcOut(o, buf));
    case Cycle =>
      TickPosts(o);
      PushAllAccounted(o.link, TickOut(o));
    case Fetch(cap) =>
      PopAccounted(o.link, cap);
    case Sense(_) =>
  }

  lemma InitAccounted()
    ensures Accounted(Init().link)
  {
    EmptyAccounted();
    PushAccounted(Empty, Posting(Event(EVT_BOOT, INFORMATIVE, 0), PowerOn.Now()));
  }

  /** The books balance after every interleaving of telecommands, cycles and fetches. */
  lemma {:induction false} RunAccounted(steps: seq<Step>)
    ensures Accounted(Run(steps).link)
  {
    hide Accounted, Apply;
    if steps == [] {
      InitAccounted();
    } else {
      RunAccounted(steps[..|steps| - 1]);
      StepAccounted(Run(steps[..|steps| - 1]), steps[|steps| - 1]);
    }
  }

  /** Every packet built since initialisation was taken, is waiting, or was counted as dropped. */
  lemma RunConserves(steps: seq<Step>)
    ensures var l := Run(steps).link;
      && |l.log| == |l.sent| + |l.queue| + Drops(l.log)
      && l.overflows == Saturated(Drops(l.log))
  {
    hide Run, Survivors, Drops;
    RunAccounted(steps);
    Conservation(Run(steps).link.log);
  }

  // ---- The stream the ground receives ----

  /** The place in the history of the n-th survivor. */
  lemma {:induction false} SurvivorAt(log: seq<Attempt>, n: nat) returns (k: nat)
    requires n < |Survivors(log)|
    ensures k < |log| && log[k].queued && log[k].packet == Survivors(log)[n]
    ensures |Survivors(log[..k])| == n
  {
    var last := |log| - 1;
    if n < |Survivors(log[..last])| {
      k := SurvivorAt(log[..last], n);
      assert log[..last][..k] == log[..k];
    } else {
      k := last;
    }
  }

  lemma {:induction false} SurvivorsGrow(log: seq<Attempt>, i: nat, j: nat)
    requires i <= j <= |log|
    ensures |Survivors(log[..i])| <= |Survivors(log[..j])|
    ensures i < j && log[i].queued ==> |Survivors(log[..i])| < |Survivors(log[..j])|
    decreases j
  {
    if i < j {
      assert log[..j][..j - 1] == log[..j - 1];
      SurvivorsGrow(log, i, j - 1);
    }
  }

  /** Neighbours in the downlink stream, taken or still waiting: the gap in their sequence counts
      is the number of packets dropped between them, modulo 16384. */
  lemma StreamGap(steps: seq<Step>, n: nat) returns (i: nat, j: nat)
    requires var l := Run(steps).link; n + 1 < |l.sent + l.queue|
    ensures var l := Run(steps).link; var s := l.sent + l.queue;
      && i < j < |l.log| && s[n] == l.log[i].packet && s[n + 1] == l.log[j].packet
      && (s[n + 1].seqCount - s[n].seqCount - 1) % 0x4000 == (Drops(l.log[..j]) - Drops(l.log[..i])) % 0x4000
      && Drops(l.log[..j]) - Drops(l.log[..i]) == j - i - 1
  {
    hide Run, Numbered, Built;
    var l := Run(steps).link;
    RunAccounted(steps);
    i := SurvivorAt(l.log, n);
    j := SurvivorAt(l.log, n + 1);
    if j <= i {
      SurvivorsGrow(l.log, j, i);
    }
    forall k | i < k < j
      ensures !l.log[k].queued
    {
      SurvivorsGrow(l.log, i, k);
      SurvivorsGrow(l.log, k, j);
    }
    hide Survivors, Drops;
    DropsBetween(l.log, i, j);
    SequenceGap(l, i, j);
  }

  lemma {:induction false} SurvivorPlace(log: seq<Attempt>, k: nat)
    requires k < |log| && log[k].queued
    ensures var n := |Survivors(log[..k])|; n < |Survivors(log)| && Survivors(log)[n] == log[k].packet
  {
    var last := |log| - 1;
    if k < last {
      SurvivorPlace(log[..last], k);
      assert log[..last][..k] == log[..k];
    }
  }

  /** Neighbours of one service in the downlink stream, whatever other services send between them:
      the gap in their message counters is the number of packets of that service dropped between
      them, modulo 65536. */
  lemma ServiceStreamGap(steps: seq<Step>, n: nat, m: nat) returns (i: nat, j: nat)
    requires var l := Run(steps).link; var s := l.sent + l.queue;
      && n < m < |s| && s[n].report.Service() == s[m].report.Service()
      && forall k :: n < k < m ==> s[k].report.Service() != s[n].report.Service()
    ensures var l := Run(steps).link; var s := l.sent + l.queue; var service := s[n].report.Service();
      && i < j < |l.log| && s[n] == l.log[i].packet && s[m] == l.log[j].packet
      && (s[m].msgCounter - s[n].msgCounter - 1) % 0x1_0000
         == (DropsOf(l.log[..j], service) - DropsOf(l.log[..i], service)) % 0x1_0000
  {
    hide Run, Numbered, Built, Report.Service, Survivors, Drops, DropsOf;
    var l := Run(steps).link;
    RunAccounted(steps);
    i := SurvivorAt(l.log, n);
    j := SurvivorAt(l.log, m);
    if j <= i {
      SurvivorsGrow(l.log, j, i);
    }
    forall k | i < k < j && l.log[k].Service() == l.log[i].Service()
      ensures !l.log[k].queued
    {
      if l.log[k].queued {
        SurvivorsGrow(l.log, i, k);
        SurvivorsGrow(l.log, k, j);
        SurvivorPlace(l.log, k);
        assert false;
      }
    }
    ServiceGap(l, i, j);
  }

  // ---- What joins the queue ----

  /** A telecommand attempts the reports of `TcOut`, and a prefix of them joins the queue. */
  lemma TelecommandTrace(o: Obc, buf: seq<octet>)
    requires |o.link.queue| <= DEPTH
    ensures Attempted(o.link, TcOut(o, buf), ProcessTc(o, buf).obc.link)
  {
    hide ProcessTc, TcOut, Link.PushAll, Attempted;
    TcPosts(o, buf);
    PushAllAttempts(o.link, TcOut(o, buf));
  }

  /** The same for a minor cycle. */
  lemma TickTrace(o: Obc)
    requires |o.link.queue| <= DEPTH
    ensures Attempted(o.link, TickOut(o), Tick(o).link)
  {
    hide Tick, TickOut, Link.PushAll, Attempted;
    TickPosts(o);
    PushAllAttempts(o.link, TickOut(o));
  }
}
