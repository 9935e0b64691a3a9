/** The host driver around the flight software, over an abstract octet stream (sim/obc_sim.c):
    framing of the uplink by the declared packet length, and draining of the downlink. */
module Sim {
  import opened Capacity
  import opened Downlink
  import opened DownlinkRuns
  import opened Flight
  import opened HousekeepingRuns
  import opened Octets
  import opened Onboard
  import opened Postings
  import opened PusTm
  import opened Reports
  import opened SpacePacket
  import opened Status
  import opened Telecommand
  import opened Telemetry
  import opened TmQueue

  // ---- Uplink framing ----

  /** What one call of `receive_tc` hands over, and what stays in the stream. */
  datatype Received = Closed | Received(packet: seq<octet>, rest: seq<octet>)

  function ReceiveTc(stream: seq<octet>): (r: Received)
    ensures r.Received? ==> |r.rest| < |stream| && stream == r.packet + r.rest
  {
    if |stream| < HEADER_LEN then Closed else
    var total := Unpack(stream).TotalLength();
    if total > MAX_PACKET || total <= HEADER_LEN then Received(stream[..HEADER_LEN], stream[HEADER_LEN..])
    else if |stream| < total then Closed
    else Received(stream[..total], stream[total..])
  }

  /** Everything the unit is given before the stream closes. */
  function Frames(stream: seq<octet>): seq<seq<octet>>
    decreases |stream|
  {
    match ReceiveTc(stream)
    case Closed => []
    case Received(packet, rest) => [packet] + Frames(rest)
  }

  function Concat(ps: seq<seq<octet>>): seq<octet> {
    if ps == [] then [] else ps[0] + Concat(ps[1..])
  }

  /** The packet says how long it is. */
  predicate Declared(p: seq<octet>) {
    |p| > 6 && Unpack(p).TotalLength() == |p|
  }

  /** It also fits the receive buffer. */
  predicate Framed(p: seq<octet>) {
    Declared(p) && |p| <= 256
  }

  lemma UnpackPrefix(p: seq<octet>, rest: seq<octet>)
    requires |p| >= HEADER_LEN
    ensures Unpack(p + rest) == Unpack(p)
  {
  }

  /** A packet that declares its own length comes out first and whole, or only its header does. */
  lemma FirstFrame(p: seq<octet>, rest: seq<octet>)
    requires Declared(p)
    ensures ReceiveTc(p + rest)
         == if Framed(p) then Received(p, rest) else Received(p[..HEADER_LEN], p[HEADER_LEN..] + rest)
  {
    hide Unpack;
    UnpackPrefix(p, rest);
    if Framed(p) {
      assert (p + rest)[..|p|] == p && (p + rest)[|p|..] == rest;
    } else {
      assert (p + rest)[..HEADER_LEN] == p[..HEADER_LEN] && (p + rest)[HEADER_LEN..] == p[HEADER_LEN..] + rest;
    }
  }

  /** Packets that declare their own length, whatever their contents, come out as they went in
      exactly if each fits the receive buffer. */
  lemma {:induction false} FramingExact(ps: seq<seq<octet>>)
    requires forall i :: 0 <= i < |ps| ==> Declared(ps[i])
    ensures Frames(Concat(ps)) == ps <==> forall i :: 0 <= i < |ps| ==> |ps[i]| <= 256
  {
    hide Unpack, ReceiveTc, Declared;
    if ps != [] {
      var rest := Concat(ps[1..]);
      FirstFrame(ps[0], rest);
      FramingExact(ps[1..]);
      if |ps[0]| <= MAX_PACKET {
        assert Frames(Concat(ps)) == [ps[0]] + Frames(rest);
        assert ps == [ps[0]] + ps[1..];
        assert ([ps[0]] + Frames(rest))[1..] == Frames(rest);
      } else {
        assert Frames(Concat(ps))[0] == ps[0][..HEADER_LEN];
      }
    }
  }

  /** Every telecommand the parser would accept within the buffer is framed. */
  lemma AcceptedIsFramed(p: seq<octet>)
    requires Parse(p).Parsed? && |p| <= MAX_PACKET
    ensures Framed(p)
  {
    hide Crc.Crc16;
  }

  /** A header that declares more than the buffer holds is handed over alone, and the unit rejects
      it as truncated, with its request identifier. What follows, its own body first, is not
      discarded: it is framed as if it were further telecommands. */
  lemma OversizeHeader(h: seq<octet>, rest: seq<octet>, o: Obc)
    requires |h| == 6 && Unpack(h).TotalLength() > 256
    ensures Frames(h + rest) == [h] + Frames(rest)
    ensures ProcessTc(o, h).status == Truncated
    ensures TcOut(o, h)[0] == Now(o, AcceptanceFailure(GetU32(h, 0), Truncated.Code()))
  {
    UnpackPrefix(h, rest);
    assert (h + rest)[..HEADER_LEN] == h && (h + rest)[HEADER_LEN..] == rest;
    hide Unpack, Reject, Link.Push;
  }

  // ---- Downlink draining ----

  /** A non-empty queue shows as a non-zero count, and its packets are printable. */
  lemma QueueShown(unit: Flight)
    requires unit.Valid()
    ensures unit.tm.queue.count == |unit.Model().link.queue|
    ensures forall p :: p in unit.Model().link.queue ==> p.Tm().Valid()
  {
    hide TmPacket.Valid;
    var tm := unit.tm;
    ShownNumbers(tm.link, tm.seqCount, tm.msgCounter[..], tm.queue.contents, tm.queue.overflows);
  }

  /** One turn of the loop. */
  method DrainOne(unit: Flight) returns (st: Status, packet: seq<octet>)
    requires unit.Valid() && unit.Model().link.queue != []
    modifies unit.Repr
    ensures unit.Valid() && st == Ok
    ensures unit.Model() == old(unit.Model()).(link := old(unit.Model()).link.Pop(MAX_PACKET))
    ensures var oldest := old(unit.Model()).link.queue[0]; oldest.Tm().Valid() && packet == oldest.Tm().Octets()
  {
    hide TmPacket.Octets, TmPacket.Valid, Shown, Link.Pop;
    QueueShown(unit);
    PopFits(unit.Model().link);
    var buf := new octet[MAX_PACKET];
    var len;
    st, len := unit.Fetch(buf);
    packet := buf[..len];
  }

  /** These octet strings are those packets, one for one. */
  ghost predicate Printed(out: seq<seq<octet>>, ps: seq<Packet>) {
    |out| == |ps| && forall i :: 0 <= i < |ps| ==> ps[i].Tm().Valid() && out[i] == ps[i].Tm().Octets()
  }

  lemma PrintedNone()
    ensures Printed([], [])
  {
  }

  lemma PrintedOne(out: seq<seq<octet>>, ps: seq<Packet>, packet: seq<octet>, p: Packet)
    requires Printed(out, ps) && p.Tm().Valid() && packet == p.Tm().Octets()
    ensures Printed(out + [packet], ps + [p])
  {
    hide TmPacket.Octets, TmPacket.Valid;
  }

  /** `drain_downlink`: what goes out is the queue, oldest first, and the queue ends empty. */
  method DrainDownlink(unit: Flight) returns (out: seq<seq<octet>>)
    requires unit.Valid()
    modifies unit.Repr
    ensures unit.Valid() && unit.Model() == old(unit.Model()).(link := Drain(old(unit.Model()).link))
    ensures Printed(out, old(unit.Model()).link.queue)
  {
    PrintedNone();
    hide *;
    ghost var start := unit.Model();
    ghost var link, taken := start.link, [];
    QueueShown(unit);
    DrainEmpties(start.link);
    out := [];
    assert taken + link.queue == start.link.queue;
    while unit.tm.queue.count > 0
      invariant unit.Valid() && unit.tm.queue.count == |link.queue|
      invariant unit.Model() == start.(link := link)
      invariant Drain(link) == Drain(start.link)
      invariant taken + link.queue == start.link.queue && Printed(out, taken)
      decreases |link.queue|
    {
      ghost var oldest := link.queue[0];
      var st, packet := DrainOne(unit);
      if st != Ok {
        break;
      }
      PopFits(link);
      DrainStep(link);
      PrintedOne(out, taken, packet, oldest);
      out := out + [packet];
      taken, link := taken + [oldest], link.Pop(MAX_PACKET);
      assert unit.Model() == start.(link := link);
      QueueShown(unit);
    }
    DrainEmpties(link);
    assert taken + link.queue == taken;
  }

  lemma DrainStep(l: Link)
    requires l.queue != []
    ensures Drain(l.Pop(MAX_PACKET)) == Drain(l)
  {
    PopFits(l);
    hide Link.Pop;
  }

  // ---- The driver's loop ----

  lemma PrintedAppend(a: seq<seq<octet>>, ps: seq<Packet>, b: seq<seq<octet>>, qs: seq<Packet>)
    requires Printed(a, ps) && Printed(b, qs)
    ensures Printed(a + b, ps + qs)
  {
    hide TmPacket.Octets, TmPacket.Valid;
  }

  /** Telecommands and cycles take nothing off the queue. */
  lemma NothingTaken(o: Obc, s: Step)
    requires (s.Command? || s.Cycle?) && |o.link.queue| <= DEPTH
    ensures Apply(o, s).link.sent == o.link.sent
  {
    hide TcOut, TickOut, Link.PushAll, ProcessTc, Tick;
    match s
    case Command(buf) =>
      TcPosts(o, buf);
      PushAllAttempts(o.link, TcOut(o, buf));
    case Cycle =>
      TickPosts(o);
      PushAllAttempts(o.link, TickOut(o));
  }

  lemma ServeStep(steps: seq<Step>, s: Step)
    ensures var o := Apply(Serve(steps), s); Serve(steps + [s]) == o.(link := Drain(o.link))
  {
    hide Apply, Drain, Onboard.Init;
    assert (steps + [s])[..|steps|] == steps;
  }

  lemma ServeStart()
    ensures Serve([]) == Onboard.Init().(link := Drain(Onboard.Init().link))
    ensures Onboard.Init().link.sent == [] && |Onboard.Init().link.queue| <= DEPTH
  {
    hide Drain;
  }

  lemma Drained(o: Obc)
    ensures Drain(o.link).sent == o.link.sent + o.link.queue && Drain(o.link).queue == []
  {
    DrainEmpties(o.link);
    hide Drain;
  }

  /** Why the select call returns: the tick is over, or there is something to read. */
  datatype Wake = Timeout | Input

  /** What the unit goes through while the stream is open. */
  function Session(stream: seq<octet>, wakes: seq<Wake>): seq<Step>
    decreases |wakes|
  {
    if wakes == [] then []
    else if wakes[0].Timeout? then [Cycle] + Session(stream, wakes[1..])
    else
      match ReceiveTc(stream)
      case Closed => []
      case Received(packet, rest) => [Command(packet)] + Session(rest, wakes[1..])
  }

  function Inputs(wakes: seq<Wake>): nat {
    if wakes == [] then 0 else (if wakes[0].Input? then 1 else 0) + Inputs(wakes[1..])
  }

  /** The telecommands among some steps. */
  function Telecommands(steps: seq<Step>): seq<seq<octet>> {
    if steps == [] then [] else
    (if steps[0].Command? then [steps[0].buf] else []) + Telecommands(steps[1..])
  }

  /** The telecommands of a session are the frames of the stream, as many as there was input for. */
  lemma {:induction false} SessionFrames(stream: seq<octet>, wakes: seq<Wake>)
    ensures var all := Frames(stream); var n := Inputs(wakes);
      Telecommands(Session(stream, wakes)) == if n <= |all| then all[..n] else all
    decreases |wakes|
  {
    hide ReceiveTc;
    if wakes != [] {
      if wakes[0].Timeout? {
        SessionFrames(stream, wakes[1..]);
        assert ([Cycle] + Session(stream, wakes[1..]))[1..] == Session(stream, wakes[1..]);
      } else if ReceiveTc(stream).Received? {
        var r := ReceiveTc(stream);
        SessionFrames(r.rest, wakes[1..]);
        assert Frames(stream) == [r.packet] + Frames(r.rest);
        assert ([Command(r.packet)] + Session(r.rest, wakes[1..]))[1..] == Session(r.rest, wakes[1..]);
      }
    }
  }

  /** While the stream lasts, every wake-up is one step: a cycle for a timeout, a telecommand for
      input. */
  lemma {:induction false} SessionInStep(stream: seq<octet>, wakes: seq<Wake>)
    requires Inputs(wakes) <= |Frames(stream)|
    ensures |Session(stream, wakes)| == |wakes|
    ensures forall i :: 0 <= i < |wakes| ==>
      if wakes[i].Timeout? then Session(stream, wakes)[i].Cycle? else Session(stream, wakes)[i].Command?
    decreases |wakes|
  {
    hide ReceiveTc;
    if wakes != [] {
      if wakes[0].Timeout? {
        SessionInStep(stream, wakes[1..]);
      } else {
        var r := ReceiveTc(stream);
        assert r.Received?;
        assert Frames(stream) == [r.packet] + Frames(r.rest);
        SessionInStep(r.rest, wakes[1..]);
      }
    }
  }

  /** One turn of the loop after the select call. */
  method ServeOne(unit: Flight, s: Step) returns (out: seq<seq<octet>>)
    requires unit.Valid() && (s.Command? || s.Cycle?) && unit.Model().link.queue == []
    modifies unit.Repr
    ensures unit.Valid()
    ensures var o := Apply(old(unit.Model()), s); unit.Model() == o.(link := Drain(o.link))
    ensures unit.Model().link.queue == []
    ensures var before := old(unit.Model()).link.sent; var sent := unit.Model().link.sent;
      |before| <= |sent| && sent == before + sent[|before|..] && Printed(out, sent[|before|..])
  {
    hide Parse, Reject, Execute, Onboard.Tick, Onboard.ProcessTc, Drain, TmPacket.Octets, TmPacket.Valid, Printed;
    ghost var before := unit.Model();
    NothingTaken(before, s);
    if s.Cycle? {
      unit.Tick();
    } else {
      var _ := unit.ProcessTc(s.buf);
    }
    ghost var after := unit.Model();
    Drained(after);
    out := DrainDownlink(unit);
    assert (before.link.sent + after.link.queue)[|before.link.sent|..] == after.link.queue;
  }

  /** Accepting a connection: initialise, and drain the boot event. */
  method Connect(unit: Flight) returns (out: seq<seq<octet>>)
    requires unit.Valid()
    modifies unit.Repr
    ensures unit.Valid() && unit.Model() == Serve([]) && Serve([]).link.queue == []
    ensures Printed(out, Serve([]).link.sent)
  {
    hide *;
    ServeStart();
    unit.Init();
    Drained(unit.Model());
    out := DrainDownlink(unit);
    ghost var link := Onboard.Init().link;
    assert link.sent + link.queue == link.queue;
  }

  /** One turn of the loop, and what has been written up to its end. */
  method Turn(unit: Flight, s: Step, written: seq<seq<octet>>, ghost steps: seq<Step>) returns (out: seq<seq<octet>>)
    requires unit.Valid() && unit.Model() == Serve(steps) && Serve(steps).link.queue == []
    requires (s.Command? || s.Cycle?) && Printed(written, Serve(steps).link.sent)
    modifies unit.Repr
    ensures unit.Valid() && unit.Model() == Serve(steps + [s]) && Serve(steps + [s]).link.queue == []
    ensures Printed(out, Serve(steps + [s]).link.sent)
  {
    hide *;
    ghost var sent := Serve(steps).link.sent;
    ServeStep(steps, s);
    var more := ServeOne(unit, s);
    PrintedAppend(written, sent, more, Serve(steps + [s]).link.sent[|sent|..]);
    out := written + more;
  }

  /** `serve_client`: the octets that leave are the packets taken off the queue over the whole
      session, in order. */
  method ServeClient(unit: Flight, stream: seq<octet>, wakes: seq<Wake>) returns (out: seq<seq<octet>>)
    requires unit.Valid()
    modifies unit.Repr
    ensures unit.Valid() && unit.Model() == Serve(Session(stream, wakes))
    ensures Printed(out, Serve(Session(stream, wakes)).link.sent)
  {
    hide *;
    out := Connect(unit);
    var rest := stream;
    ghost var steps := [];
    assert wakes[0..] == wakes;
    for i := 0 to |wakes|
      invariant unit.Valid() && unit.Model() == Serve(steps) && Serve(steps).link.queue == []
      invariant Printed(out, Serve(steps).link.sent)
      invariant Session(stream, wakes) == steps + Session(rest, wakes[i..])
    {
      SessionStep(rest, wakes, i);
      var step := Cycle;
      if wakes[i].Input? {
        var received := ReceiveTc(rest);
        if received.Closed? {
          assert steps + [] == steps;
          return;
        }
        step, rest := Command(received.packet), received.rest;
      }
      out := Turn(unit, step, out, steps);
      assert steps + ([step] + Session(rest, wakes[i + 1..])) == (steps + [step]) + Session(rest, wakes[i + 1..]);
      steps := steps + [step];
    }
    SessionOver(rest, wakes);
    assert steps + [] == steps;
  }

  lemma SessionOver(stream: seq<octet>, wakes: seq<Wake>)
    ensures Session(stream, wakes[|wakes|..]) == []
  {
  }

  lemma SessionStep(stream: seq<octet>, wakes: seq<Wake>, i: nat)
    requires i < |wakes|
    ensures Session(stream, wakes[i..])
         == if wakes[i].Timeout? then [Cycle] + Session(stream, wakes[i + 1..]) else
            match ReceiveTc(stream)
            case Closed => []
            case Received(packet, rest) => [Command(packet)] + Session(rest, wakes[i + 1..])
  {
    hide ReceiveTc;
    assert wakes[i..][1..] == wakes[i + 1..];
  }

  /** The ground reads this packet as the k-th one, with exactly its report. */
  ghost predicate HeardAs(octets: seq<octet>, p: Packet, k: nat) {
    && p.Tm().Valid() && octets == p.Tm().Octets()
    && ParseTm(octets) == Decoded(GroundTm(APID, p.Tm(), DESTINATION, octets))
    && Decode(p.Tm().service, p.Tm().subtype, p.Tm().data) == Some(p.report)
    && p.seqCount == k % 0x4000
  }

  lemma PacketHeard(octets: seq<octet>, p: Packet, k: nat)
    requires Readable(p) && p.Tm().Valid() && octets == p.Tm().Octets() && p.seqCount == k % 0x4000
    ensures HeardAs(octets, p, k)
  {
    hide TmPacket.Octets, TmPacket.Valid, ParseTm, Decode, Readable, Packet.Tm;
    GroundReadsPacket(p);
  }

  /** End to end: if no one-shot list among the telecommands overloads the queue, then what the
      ground reads from the octets of a session, one packet after the other and with consecutive
      counts, is every report the unit ever sent, in order. */
  lemma SessionHeard(stream: seq<octet>, wakes: seq<Wake>, out: seq<seq<octet>>)
    requires AllFit(Session(stream, wakes)) && Printed(out, Serve(Session(stream, wakes)).link.sent)
    ensures var log := Serve(Session(stream, wakes)).link.log;
      |out| == |log| && forall k :: 0 <= k < |log| ==> HeardAs(out[k], log[k].packet, k)
  {
    hide Run, Serve, Session, AllFit, HeardAs, Accounted, Readable, Packet.Tm, TmPacket.Octets, TmPacket.Valid;
    var steps := Session(stream, wakes);
    DrainedRunsLoseNothing(steps);
    var run := ServeIsRun(steps);
    RunAccounted(run);
    RunReadable(run);
    var l := Serve(steps).link;
    forall k | 0 <= k < |l.log|
      ensures HeardAs(out[k], l.log[k].packet, k)
    {
      NumbersAt(l, k);
      PacketHeard(out[k], l.log[k].packet, k);
    }
  }
}
