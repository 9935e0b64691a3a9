/** Telemetry generation in place (src/pus_tm.c): a packet is printed into the caller's buffer,
    numbered, and pushed onto the queue. */
module PusTm {
  import opened Crc
  import opened Downlink
  import opened HalHost
  import opened Octets
  import opened Reports
  import opened SpacePacket
  import opened Status
  import opened Telemetry
  import opened TmQueue

  // ---- Writing at a place in a buffer (include/pus/pus_bytes.h) ----

  method WriteU16(buf: array<octet>, at: nat, v: u16)
    requires at + 2 <= buf.Length
    modifies buf
    ensures buf[..at + 2] == old(buf[..at]) + PutU16(v)
    ensures buf[at + 2..] == old(buf[at + 2..])
  {
    buf[at] := v / 0x100;
    buf[at + 1] := v % 0x100;
    assert buf[..at] == old(buf[..at]);
    assert buf[..at + 2] == buf[..at] + [buf[at], buf[at + 1]];
  }

  method WriteU32(buf: array<octet>, at: nat, v: u32)
    requires at + 4 <= buf.Length
    modifies buf
    ensures buf[..at + 4] == old(buf[..at]) + PutU32(v)
    ensures buf[at + 4..] == old(buf[at + 4..])
  {
    WriteU16(buf, at, v / 0x1_0000);
    ghost var rest := buf[at + 2..];
    WriteU16(buf, at + 2, v % 0x1_0000);
    assert buf[at + 4..] == rest[2..];
  }

  method WriteOctets(buf: array<octet>, at: nat, src: seq<octet>)
    requires at + |src| <= buf.Length
    modifies buf
    ensures buf[..at + |src|] == old(buf[..at]) + src
    ensures buf[at + |src|..] == old(buf[at + |src|..])
  {
    for i := 0 to |src|
      invariant buf[..at + i] == old(buf[..at]) + src[..i]
      invariant buf[at + |src|..] == old(buf[at + |src|..])
    {
      buf[at + i] := src[i];
      assert buf[..at + i + 1] == buf[..at + i] + [src[i]];
    }
  }

  /** Appends the error control field of everything before it. */
  method Seal(buf: array<octet>, at: nat)
    requires at + 2 <= buf.Length
    modifies buf
    ensures buf[..at + 2] == old(buf[..at]) + PutU16(Crc16(old(buf[..at])))
    ensures buf[at + 2..] == old(buf[at + 2..])
  {
    hide Crc16;
    var crc := ComputeCrc16(buf[..at]);
    WriteU16(buf, at, crc);
  }

  class PusTm {
    const queue: TmQueue
    const hal: Hal
    var seqCount: u16
    const msgCounter: array<u16>

    /** What the numbers and the queue stand for, with the history of every packet built. */
    ghost var link: Link
    ghost const Repr: set<object>

    ghost predicate Valid()
      reads this, Repr, queue, queue.Repr
    {
      && Repr == {this, msgCounter} + queue.Repr
      && this !in queue.Repr && msgCounter !in queue.Repr && hal !in Repr
      && queue.Valid()
      && msgCounter.Length == 256
      && Shown(link, seqCount, msgCounter[..], queue.contents, queue.overflows)
    }

    constructor (hal: Hal)
      ensures Valid() && fresh(Repr)
      ensures this.hal == hal && link == Empty
      ensures this in Repr && queue in Repr && queue.Repr <= Repr && hal !in Repr
    {
      var ring := new TmQueue();
      var counters := new u16[256](_ => 0);
      this.hal := hal;
      queue := ring;
      msgCounter := counters;
      seqCount := 0;
      link := Empty;
      Repr := {this, counters} + ring.Repr;
    }

    /** `tm_queue_init` and `pus_tm_reset`, as `obc_init` calls them. */
    method Restart()
      requires Valid()
      modifies Repr
      ensures Valid() && link == Empty
    {
      queue.Init();
      seqCount := 0;
      for i := 0 to msgCounter.Length
        invariant queue.Valid() && queue.contents == [] && queue.overflows == 0 && seqCount == 0
        invariant forall k :: 0 <= k < i ==> msgCounter[k] == 0
      {
        msgCounter[i] := 0;
      }
      link := Empty;
      assert msgCounter[..] == Empty.counters;
    }

    ghost function Next(service: octet, subtype: octet, src: seq<octet>): TmPacket
      requires Valid()
      reads this, Repr, queue, queue.Repr, hal
    {
      TmPacket(seqCount, service, subtype, msgCounter[service], hal.Model().Now(), src)
    }

    /** `pus_tm_build`: prints the next packet at the start of the buffer, or nothing at all. */
    method Build(buf: array<octet>, service: octet, subtype: octet, src: seq<octet>) returns (st: Status, len: nat)
      requires Valid() && buf !in Repr
      modifies buf, this`seqCount, msgCounter
      ensures st == if 21 + |src| > buf.Length || 21 + |src| > 256 then BufferTooSmall else Ok
      ensures st != Ok ==> buf[..] == old(buf[..]) && seqCount == old(seqCount) && msgCounter[..] == old(msgCounter[..])
      ensures st == Ok ==> old(Next(service, subtype, src)).Valid() && len == TM_MIN_LEN + |src| <= buf.Length
      ensures st == Ok ==> buf[..len] == old(Next(service, subtype, src)).Octets() && buf[len..] == old(buf[len..])
      ensures st == Ok ==> seqCount == (old(seqCount) + 1) % 0x4000
      ensures st == Ok ==>
        msgCounter[..] == old(msgCounter[..])[service := (old(msgCounter[service]) as int + 1) % 0x1_0000]
    {
      len := TM_MIN_LEN + |src|;
      if len > buf.Length || len > MAX_PACKET {
        return BufferTooSmall, 0;
      }
      hide TmPacket.Octets, Pack, PutU16, PutU32, Shown;
      Print(buf, service, subtype, src);
      seqCount := (seqCount + 1) % 0x4000;
      msgCounter[service] := (msgCounter[service] as int + 1) % 0x1_0000;
      st := Ok;
    }

    /** Headers, source data, error control. */
    method Print(buf: array<octet>, service: octet, subtype: octet, src: seq<octet>)
      requires Valid() && buf !in Repr && TM_MIN_LEN + |src| <= buf.Length && TM_MIN_LEN + |src| <= MAX_PACKET
      modifies buf
      ensures Valid() && Next(service, subtype, src).Valid()
      ensures Next(service, subtype, src) == old(Next(service, subtype, src))
      ensures buf[..TM_MIN_LEN + |src|] == Next(service, subtype, src).Octets()
      ensures buf[TM_MIN_LEN + |src|..] == old(buf[TM_MIN_LEN + |src|..])
    {
      hide Pack, PutU16, PutU32, Crc16;
      ghost var p := Next(service, subtype, src);
      ghost var rest := buf[19..];
      var body := 19 + |src|;
      WriteHeaders(buf, service, subtype, body + 2);
      WriteOctets(buf, 19, src);
      assert buf[body..] == rest[|src|..];
      assert buf[..body] == p.Protected();
      Seal(buf, body);
      assert buf[body + 2..] == rest[|src| + 2..];
    }

    /** The primary and the secondary header. */
    method WriteHeaders(buf: array<octet>, service: octet, subtype: octet, total: nat)
      requires Valid() && buf !in Repr && TM_MIN_LEN <= total <= buf.Length && total <= MAX_PACKET
      modifies buf
      ensures var p := Next(service, subtype, seq(total - TM_MIN_LEN, _ => 0));
        buf[..19] == Pack(p.Header()) + p.SecondaryHeader()
      ensures buf[19..] == old(buf[19..])
    {
      ghost var tail := buf[19..];
      var header := PrimaryHeader(0, 0, 1, APID, UNSEGMENTED, seqCount, total - HEADER_LEN - 1);
      ghost var rest := buf[6..];
      var st := PackInto(header, buf);
      WriteOctets(buf, 6, [0x20, service, subtype]);
      assert buf[9..] == rest[3..];
      WriteU16(buf, 9, msgCounter[service]);
      assert buf[11..] == rest[5..];
      WriteU16(buf, 11, DESTINATION);
      assert buf[13..] == rest[7..];
      var coarse, fine := hal.GetCucTime();
      WriteU32(buf, 13, coarse);
      assert buf[17..] == rest[11..];
      WriteU16(buf, 17, fine);
      assert buf[19..] == rest[13..] == tail;
    }

    /** `pus_tm_send`. Data that fits no packet changes nothing; a report is numbered whether or not
        it finds room, and queued if it does. */
    method Send(service: octet, subtype: octet, src: seq<octet>, ghost r: Report) returns (st: Status)
      requires Valid()
      requires TM_MIN_LEN + |src| <= MAX_PACKET ==>
        service == r.Service() && subtype == r.Subtype() && src == r.Data()
      modifies Repr
      ensures Valid() && hal.Model() == old(hal.Model())
      ensures 21 + |src| > 256 ==> st == BufferTooSmall && link == old(link)
      ensures TM_MIN_LEN + |src| <= MAX_PACKET ==> link == old(link).Push(Posting(r, hal.Model().Now()))
      ensures TM_MIN_LEN + |src| <= MAX_PACKET ==> st == if old(link).Room() > 0 then Ok else QueueFull
    {
      hide Shown, Link.Push, TmPacket.Octets, TmPacket.Valid, Report.Service, Report.Subtype, Report.Data;
      ShownNumbers(link, seqCount, msgCounter[..], queue.contents, queue.overflows);
      ghost var p := Posting(r, hal.Model().Now());
      var packet := new octet[MAX_PACKET];
      var len;
      st, len := Build(packet, service, subtype, src);
      if st != Ok {
        return;
      }
      ShownPushed(link, p, old(msgCounter[..]), queue.contents);
      assert packet[..len] == link.Stamp(p).Tm().Octets();
      st := queue.Push(packet[..len]);
      link := link.Push(p);
    }

    /** `tm_queue_pop` into the caller's buffer. */
    method Fetch(buf: array<octet>) returns (st: Status, len: nat)
      requires Valid() && buf !in Repr
      modifies Repr, buf
      ensures Valid() && link == old(link).Pop(buf.Length)
      ensures st == Ok ==> old(link).queue != [] && len <= buf.Length && buf[..len] == old(link).queue[0].Tm().Octets()
      ensures st != Ok ==> link == old(link) && buf[..] == old(buf[..])
    {
      ShownPopped(link, seqCount, msgCounter[..], queue.contents, queue.overflows, buf.Length);
      ShownNumbers(link, seqCount, msgCounter[..], queue.contents, queue.overflows);
      hide Shown, TmPacket.Octets;
      st, len := queue.Pop(buf);
      link := link.Pop(buf.Length);
    }
  }

  /** A link is shown by these statics: the queue holds the octets of its packets. */
  ghost predicate Shown(l: Link, seqCount: u16, counters: seq<u16>, contents: seq<seq<octet>>, overflows: u16) {
    && l.seqCount == seqCount < 0x4000 && l.counters == counters && l.overflows == overflows
    && |contents| == |l.queue| <= DEPTH
    && forall i :: 0 <= i < |contents| ==> l.queue[i].Tm().Valid() && contents[i] == l.queue[i].Tm().Octets()
  }

  lemma ShownNumbers(l: Link, seqCount: u16, counters: seq<u16>, contents: seq<seq<octet>>, overflows: u16)
    requires Shown(l, seqCount, counters, contents, overflows)
    ensures l.seqCount == seqCount < 0x4000 && l.counters == counters && l.overflows == overflows
    ensures |contents| == |l.queue| <= DEPTH
  {
  }

  /** A push keeps statics and packets in step, whether the packet joins or is dropped. */
  lemma ShownPushed(l: Link, p: Posting, counters: seq<u16>, contents: seq<seq<octet>>)
    requires Shown(l, l.seqCount, counters, contents, l.overflows) && l.Stamp(p).Tm().Valid()
    ensures var s, full := p.report.Service(), |contents| == DEPTH;
      && |contents| == |l.queue|
      && Shown(l.Push(p), (l.seqCount + 1) % 0x4000, counters[s := (counters[s] as int + 1) % 0x1_0000],
               if full then contents else contents + [l.Stamp(p).Tm().Octets()],
               if full then Saturated(l.overflows as int + 1) else l.overflows)
  {
    hide TmPacket.Octets;
  }

  lemma ShownPopped(l: Link, seqCount: u16, counters: seq<u16>, contents: seq<seq<octet>>, overflows: u16, cap: nat)
    requires Shown(l, seqCount, counters, contents, overflows)
    ensures contents == [] || cap < |contents[0]| ==> l.Pop(cap) == l
    ensures contents != [] && cap >= |contents[0]| ==>
      Shown(l.Pop(cap), seqCount, counters, contents[1..], overflows) && l.queue != []
    ensures contents != [] ==> contents[0] == l.queue[0].Tm().Octets()
  {
    if contents != [] {
      assert contents[0] == l.queue[0].Tm().Octets();
    }
  }
}
