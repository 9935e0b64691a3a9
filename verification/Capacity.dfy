/** How much one step can send, and the runs of the host driver, which drains the downlink after
    every step (sim/obc_sim.c:91-107, 147-196). */
module Capacity {
  import opened Downlink
  import opened HalHost
  import opened Octets
  import opened Onboard
  import opened OverflowNotices
  import opened Postings
  import opened Reports
  import opened SpacePacket
  import opened Status
  import opened Telecommand
  import opened Telemetry
  import opened TmQueue

  lemma HkShort(o: Obc)
    ensures |HkOut(o)| <= 2 && |NoticeOut(o)| <= 1
  {
  }

  /** A minor cycle sends at most six reports. */
  lemma TickShort(o: Obc)
    ensures |TickOut(o)| <= 6
  {
    hide Thermal, ThermalOut, NoticeOut, HkOut, NoticeOverflow;
    ThermalShort(Acquire(o));
    HkShort(Thermal(Acquire(o)));
    HkShort(NoticeOverflow(Thermal(Acquire(o))));
  }

  lemma {:induction false} OneShotLength(o: Obc, sids: seq<int>)
    requires AllWithin(sids, 2)
    ensures |OneShotOut(o, sids)| == if |sids| <= o.link.Room() then |sids| else o.link.Room() + 1
    ensures OneShot(o, sids).status == if |sids| <= o.link.Room() then Ok else QueueFull
    decreases |sids|
  {
    if sids != [] && o.link.Room() > 0 {
      OneShotLength(o.(link := o.link.Push(Now(o, HkReport(o, sids[0])))), sids[1..]);
    }
  }

  lemma ServiceShort(o: Obc, tc: Telecommand)
    requires !(IsOneShot(tc) && ValidList(tc.data))
    ensures |ServiceOut(o, tc)| <= 2
    ensures Route(o, tc).status != Ok ==> |ServiceOut(o, tc)| <= 1
    ensures Route(o, tc).status != Ok && tc.service != 17 ==> |ServiceOut(o, tc)| == 0
    ensures tc.service == 17 ==> |ServiceOut(o, tc)| <= 1
    ensures Route(o, tc).status == QueueFull ==> o.link.Room() == 0
  {
    hide Link.Push, Raise, ApplyHeater, SetMode;
  }

  /** The one-shot list of an accepted (3,27) telecommand, if it is that. */
  function OneShotCount(buf: seq<octet>): nat {
    match Parse(buf)
    case Refused(_) => 0
    case Parsed(tc) => if IsOneShot(tc) && ValidList(tc.data) then tc.data[0] else 0
  }

  lemma CountMeansList(buf: seq<octet>)
    ensures OneShotCount(buf) > 0 <==>
      Parse(buf).Parsed? && IsOneShot(Parse(buf).tc) && ValidList(Parse(buf).tc.data)
    ensures OneShotCount(buf) > 0 ==> |Parse(buf).tc.data| > 0 && OneShotCount(buf) == Parse(buf).tc.data[0] as int
  {
  }

  lemma CompletionShort(o: Obc, tc: Telecommand, st: Status)
    ensures |CompletionOut(o, tc, st)| <= 2 && (st == Ok ==> |CompletionOut(o, tc, st)| <= 1)
  {
  }

  lemma AcceptRoom(o: Obc, tc: Telecommand)
    requires |o.link.queue| < DEPTH
    ensures Accept(o, tc).link.Room() == o.link.Room() - Asked(tc, ACK_ACCEPTANCE)
    ensures |AckOut(o, AckRequested(tc, ACK_ACCEPTANCE), AcceptanceSuccess(tc.requestId))| == Asked(tc, ACK_ACCEPTANCE)
    ensures |Accept(o, tc).link.queue| <= DEPTH
  {
  }

  function Asked(tc: Telecommand, mask: nat): nat
    requires mask in {1, 2, 4, 8}
  {
    if AckRequested(tc, mask) then 1 else 0
  }

  /** What a one-shot list would send if there were room for all of it: its acknowledgements and
      one report per entry. Zero if the octets are no such list. */
  function Load(buf: seq<octet>): nat {
    if OneShotCount(buf) == 0 then 0 else
    var tc := Parse(buf).tc;
    Asked(tc, ACK_ACCEPTANCE) + OneShotCount(buf) + Asked(tc, ACK_COMPLETION)
  }

  lemma OneShotRoute(o: Obc, tc: Telecommand)
    requires IsOneShot(tc) && ValidList(tc.data)
    ensures var n: int := tc.data[0];
      && |ServiceOut(o, tc)| == (if n <= o.link.Room() then n else o.link.Room() + 1)
      && Route(o, tc).status == (if n <= o.link.Room() then Ok else QueueFull)
  {
    OneShotLength(o, Sids(tc.data));
  }

  /** With at least one free slot, a one-shot list stops half-way exactly if its entries do not fit
      behind the acceptance report. */
  lemma ListSends(o: Obc, buf: seq<octet>)
    requires |o.link.queue| < DEPTH && OneShotCount(buf) > 0
    ensures var tc := Parse(buf).tc; var n := Asked(tc, ACK_ACCEPTANCE) + OneShotCount(buf);
      && ProcessTc(o, buf).status == (if n <= o.link.Room() then Ok else QueueFull)
      && (n <= o.link.Room() ==> |TcOut(o, buf)| == Load(buf))
      && (n > o.link.Room() ==> |TcOut(o, buf)| > o.link.Room())
  {
    hide ServiceOut, Route, Accept, ValidList, Complete, EventOut, Status.Code, AckRequested;
    var tc := Parse(buf).tc;
    CountMeansList(buf);
    AcceptRoom(o, tc);
    OneShotRoute(Accept(o, tc), tc);
  }

  /** From an empty queue, a telecommand loses no report exactly if its load is at most sixteen;
      one that is no one-shot list sends at most four. */
  lemma TcShort(o: Obc, buf: seq<octet>)
    requires o.link.queue == []
    ensures OneShotCount(buf) == 0 ==> |TcOut(o, buf)| <= 4
    ensures |TcOut(o, buf)| <= 16 <==> Load(buf) <= 16
    ensures 0 < Load(buf) <= 16 ==> |TcOut(o, buf)| == Load(buf)
  {
    hide ServiceOut, CompletionOut, Route, Accept, ValidList;
    if OneShotCount(buf) > 0 {
      ListSends(o, buf);
    } else if Parse(buf).Parsed? {
      var tc := Parse(buf).tc;
      var routed := Route(Accept(o, tc), tc);
      AcceptRoom(o, tc);
      CompletionShort(routed.obc, tc, routed.status);
      CountMeansList(buf);
      ServiceShort(Accept(o, tc), tc);
    }
  }

  /** The list completes although a report is lost exactly if acceptance and entries fill the queue
      to the last slot and a completion report is asked for: then that is the report dropped. */
  lemma FullListLosesCompletion(o: Obc, buf: seq<octet>)
    requires o.link.queue == [] && OneShotCount(buf) > 0
    ensures var tc := Parse(buf).tc;
      (ProcessTc(o, buf).status == Ok && |TcOut(o, buf)| > DEPTH)
      <==> Asked(tc, ACK_ACCEPTANCE) + OneShotCount(buf) == DEPTH && AckRequested(tc, ACK_COMPLETION)
    ensures var done := ProcessTc(o, buf); var l := done.obc.link;
      done.status == Ok && |TcOut(o, buf)| > DEPTH ==>
        && |l.queue| == DEPTH && |l.log| > 0
        && !l.log[|l.log| - 1].queued
        && l.log[|l.log| - 1].packet.report == CompletionSuccess(Parse(buf).tc.requestId)
  {
    hide ProcessTc, TcOut, ValidList, AckRequested, Link.PushAll;
    ListSends(o, buf);
    if ProcessTc(o, buf).status == Ok && |TcOut(o, buf)| > DEPTH {
      TcPosts(o, buf);
      PushAllAttempts(o.link, TcOut(o, buf));
      LastIsCompletion(o, buf);
      assert AttemptedAt(o.link, TcOut(o, buf)[DEPTH], ProcessTc(o, buf).obc.link, DEPTH);
    }
  }

  lemma LastIsCompletion(o: Obc, buf: seq<octet>)
    requires Parse(buf).Parsed? && ProcessTc(o, buf).status == Ok && AckRequested(Parse(buf).tc, ACK_COMPLETION)
    ensures |TcOut(o, buf)| > 0
    ensures TcOut(o, buf)[|TcOut(o, buf)| - 1].report == CompletionSuccess(Parse(buf).tc.requestId)
  {
    hide ServiceOut, Route, Accept, Complete, AckRequested;
  }

  // ---- The break of the one-shot loop ----

  /** A one-shot request for n essential reports. */
  function OneShotTc(n: octet, acks: octet): Telecommand
    requires acks < 0x10
  {
    var prim := PrimaryHeader(0, 1, 1, APID, UNSEGMENTED, 0, n as int + 7);
    Telecommand(prim, PUS_VERSION_C, acks, 3, 27, 0, [n] + seq(n as int, _ => 1), GetU32(Pack(prim), 0))
  }

  lemma OneShotTcParsed(n: octet, acks: octet)
    requires acks < 0x10 && n > 0
    ensures WellFormed(OneShotTc(n, acks)) && Parse(Encode(OneShotTc(n, acks))) == Parsed(OneShotTc(n, acks))
    ensures OneShotCount(Encode(OneShotTc(n, acks))) == n as int
  {
    hide Parse, Encode, Pack;
    var tc := OneShotTc(n, acks);
    ParseEncode(tc);
    assert Sids(tc.data) == seq(n as int, _ => 1);
  }

  /** Sent right after initialisation, with the boot event still queued, such a request is answered
      by QUEUE_FULL exactly if entries and acceptance report exceed the fifteen slots left. */
  lemma BreakReached(n: octet, acks: octet)
    requires acks < 0x10 && n > 0
    ensures var tc := OneShotTc(n, acks);
      && WellFormed(tc)
      && (ProcessTc(Init(), Encode(tc)).status == QueueFull <==> Asked(tc, ACK_ACCEPTANCE) + n as int > 15)
  {
    hide ProcessTc, Parse, Encode, AckRequested, TcOut, OneShotTc;
    OneShotTcParsed(n, acks);
    ListSends(Init(), Encode(OneShotTc(n, acks)));
  }

  // ---- Step, then drain ----

  /** `drain_downlink`: fetch until the queue is empty. */
  function Drain(l: Link): Link
    decreases |l.queue|
  {
    if l.queue == [] || l.Pop(MAX_PACKET) == l then l else Drain(l.Pop(MAX_PACKET))
  }

  /** Every queued packet fits the driver's buffer, so draining empties the queue, in order. */
  lemma {:induction false} DrainEmpties(l: Link)
    ensures Drain(l) == l.(queue := [], sent := l.sent + l.queue)
    decreases |l.queue|
  {
    hide Link.Pop;
    if l.queue == [] {
      assert l.sent + l.queue == l.sent;
    } else {
      PopFits(l);
      DrainEmpties(l.Pop(MAX_PACKET));
      assert (l.sent + [l.queue[0]]) + l.queue[1..] == l.sent + l.queue;
    }
  }

  lemma PopFits(l: Link)
    requires l.queue != []
    ensures l.Pop(MAX_PACKET) == l.(queue := l.queue[1..], sent := l.sent + [l.queue[0]])
    ensures l.Pop(MAX_PACKET) != l
  {
    hide Report.Data;
    assert |l.Pop(MAX_PACKET).queue| < |l.queue|;
  }

  /** `serve_client`: initialise and drain, then one telecommand or one cycle at a time. */
  function Serve(steps: seq<Step>): Obc {
    var o := if steps == [] then Init() else Apply(Serve(steps[..|steps| - 1]), steps[|steps| - 1]);
    o.(link := Drain(o.link))
  }

  lemma {:induction false} DrainIsFetches(o: Obc) returns (fetches: seq<Step>)
    ensures Onward(o, fetches) == o.(link := Drain(o.link))
    decreases |o.link.queue|
  {
    hide Link.Pop, Drain;
    DrainEmpties(o.link);
    fetches := [];
    if o.link.queue == [] {
      assert o.link.sent + o.link.queue == o.link.sent;
    } else {
      PopFits(o.link);
      var fetched := o.(link := o.link.Pop(MAX_PACKET));
      assert Apply(o, Fetch(MAX_PACKET)) == fetched;
      DrainEmpties(fetched.link);
      assert (o.link.sent + [o.link.queue[0]]) + o.link.queue[1..] == o.link.sent + o.link.queue;
      var rest := DrainIsFetches(fetched);
      OnwardAppend(o, [Fetch(MAX_PACKET)], rest);
      assert [Fetch(MAX_PACKET)][..0] == [];
      fetches := [Fetch(MAX_PACKET)] + rest;
    }
  }

  /** Whatever holds in every run holds for the driver: each of its states is reached by a run. */
  lemma {:induction false} ServeIsRun(steps: seq<Step>) returns (run: seq<Step>)
    ensures Run(run) == Serve(steps)
    decreases |steps|
  {
    hide Apply, Drain, Init;
    var done := [];
    if steps != [] {
      var n := |steps| - 1;
      var before := ServeIsRun(steps[..n]);
      done := before + [steps[n]];
      assert done[..|done| - 1] == before;
    }
    var fetches := DrainIsFetches(Run(done));
    OnwardAppend(Init(), done, fetches);
    run := done + fetches;
  }

  ghost predicate AllDelivered(l: Link) {
    && l.queue == [] && l.overflows == 0 && |l.sent| == |l.log|
    && forall k :: 0 <= k < |l.log| ==> l.log[k].queued && l.sent[k] == l.log[k].packet
  }

  lemma PushDelivered(l: Link, p: Posting)
    requires |l.queue| < DEPTH && |l.sent + l.queue| == |l.log|
    requires forall k :: 0 <= k < |l.log| ==> l.log[k].queued && (l.sent + l.queue)[k] == l.log[k].packet
    ensures |l.Push(p).sent + l.Push(p).queue| == |l.Push(p).log|
    ensures forall k :: 0 <= k < |l.Push(p).log| ==>
      l.Push(p).log[k].queued && (l.Push(p).sent + l.Push(p).queue)[k] == l.Push(p).log[k].packet
  {
    assert l.Push(p).sent + l.Push(p).queue == (l.sent + l.queue) + [l.Stamp(p)];
  }

  lemma {:induction false} PushAllDelivered(l: Link, ps: seq<Posting>)
    requires |l.queue| + |ps| <= DEPTH && l.overflows == 0 && |l.sent + l.queue| == |l.log|
    requires forall k :: 0 <= k < |l.log| ==> l.log[k].queued && (l.sent + l.queue)[k] == l.log[k].packet
    ensures AllDelivered(Drain(l.PushAll(ps)))
    decreases |ps|
  {
    hide Link.Push;
    if ps == [] {
      DrainEmpties(l);
    } else {
      PushDelivered(l, ps[0]);
      PushCount(l, ps[0]);
      PushAllDelivered(l.Push(ps[0]), ps[1..]);
    }
  }

  lemma PushCount(l: Link, p: Posting)
    requires |l.queue| < DEPTH
    ensures |l.Push(p).queue| == |l.queue| + 1 && l.Push(p).overflows == l.overflows
  {
  }

  ghost predicate AllFit(steps: seq<Step>) {
    forall i :: 0 <= i < |steps| && steps[i].Command? ==> Load(steps[i].buf) <= 16
  }

  lemma AllFitLast(steps: seq<Step>)
    requires steps != []
    ensures var n := |steps| - 1;
      AllFit(steps) <==> AllFit(steps[..n]) && (steps[n].Command? ==> Load(steps[n].buf) <= 16)
  {
    hide Load;
    var n := |steps| - 1;
    assert forall i :: 0 <= i < n ==> steps[..n][i] == steps[i];
  }

  /** What a step sends, if it sends. */
  function StepOut(o: Obc, s: Step): seq<Posting> {
    match s
    case Command(buf) => TcOut(o, buf)
    case Cycle => TickOut(o)
    case Fetch(_) => []
    case Sense(_) => []
  }

  lemma StepSends(o: Obc, s: Step)
    requires o.link.queue == []
    ensures Apply(o, s).link == o.link.PushAll(StepOut(o, s))
    ensures |StepOut(o, s)| <= DEPTH <==> (s.Command? ==> Load(s.buf) <= 16)
  {
    hide Tick, ProcessTc, TcOut, TickOut, Load, OneShotCount;
    ApplyUnfolds(o, s);
    PushAllNone(o.link);
    match s
    case Command(buf) =>
      TcPosts(o, buf);
      TcShort(o, buf);
    case Cycle =>
      TickPosts(o);
      TickShort(o);
    case Fetch(_) =>
      OtherSteps(o, s);
    case Sense(_) =>
      OtherSteps(o, s);
  }

  lemma Overflowing(l: Link, ps: seq<Posting>)
    requires l.queue == []
    ensures Drain(l.PushAll(ps)).queue == []
    ensures l.overflows > 0 || |ps| > DEPTH ==> Drain(l.PushAll(ps)).overflows > 0
  {
    hide Drain, Link.PushAll;
    DrainEmpties(l.PushAll(ps));
    PushAllOverflows(l, ps);
  }

  lemma {:induction false} ServeExact(steps: seq<Step>)
    ensures Serve(steps).link.queue == []
    ensures if AllFit(steps) then AllDelivered(Serve(steps).link) else Serve(steps).link.overflows > 0
  {
    hide Apply, Drain, AllDelivered, AllFit, StepOut, Load, Link.PushAll;
    if steps == [] {
      InitDelivered();
      DeliveredStart(Serve([]).link);
    } else {
      var n := |steps| - 1;
      var o := Serve(steps[..n]);
      ServeExact(steps[..n]);
      AllFitLast(steps);
      StepSends(o, steps[n]);
      Overflowing(o.link, StepOut(o, steps[n]));
      if AllFit(steps) {
        DeliveredStart(o.link);
        PushAllDelivered(o.link, StepOut(o, steps[n]));
      }
    }
  }

  /** A driver that drains after every step receives every packet the unit ever builds, exactly if
      no telecommand of the session is a one-shot list with a load of more than sixteen. */
  lemma DrainedRunsLoseNothing(steps: seq<Step>)
    ensures AllDelivered(Serve(steps).link) <==> AllFit(steps)
  {
    hide AllFit, Serve;
    ServeExact(steps);
  }

  lemma DeliveredStart(l: Link)
    requires AllDelivered(l)
    ensures l.queue == [] && l.overflows == 0 && l.sent + l.queue == l.sent && |l.sent| == |l.log|
    ensures forall k :: 0 <= k < |l.log| ==> l.log[k].queued && l.sent[k] == l.log[k].packet
  {
  }

  lemma OtherSteps(o: Obc, s: Step)
    requires o.link.queue == [] && (s.Fetch? || s.Sense?)
    ensures Apply(o, s).link == o.link
  {
    hide Tick, ProcessTc;
  }

  lemma InitDelivered()
    ensures AllDelivered(Serve([]).link) && AllFit([])
  {
    var p := Posting(Event(EVT_BOOT, INFORMATIVE, 0), PowerOn.Now());
    PushDelivered(Empty, p);
    DrainEmpties(Empty.Push(p));
  }
}
