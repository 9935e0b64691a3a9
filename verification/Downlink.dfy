/** Telemetry numbering and queueing (src/pus_tm.c, src/tm_queue.c) as a value with its history:
    every packet ever built, whether it found room, and every packet ever taken off the queue. */
module Downlink {
  import opened Arithmetic
  import opened Octets
  import opened Reports
  import opened Telemetry
  import opened TmQueue

  /** A report on its way to `pus_tm_send`, with the time it will be stamped with. */
  datatype Posting = Posting(report: Report, time: Cuc)

  datatype Packet = Packet(report: Report, seqCount: u16, msgCounter: u16, time: Cuc)
  {
    function Tm(): TmPacket {
      TmPacket(seqCount, report.Service(), report.Subtype(), msgCounter, time, report.Data())
    }
  }

  datatype Attempt = Attempt(packet: Packet, queued: bool)
  {
    function Service(): octet {
      packet.report.Service()
    }
  }

  type Counters = c: seq<u16> | |c| == 256 witness seq(256, _ => 0)

  datatype Link = Link(
    seqCount: u16,
    counters: Counters,
    queue: seq<Packet>,
    overflows: u16,
    log: seq<Attempt>,
    sent: seq<Packet>)
  {
    function Room(): nat {
      if |queue| < DEPTH then DEPTH - |queue| else 0
    }

    function Stamp(p: Posting): Packet {
      Packet(p.report, seqCount, counters[p.report.Service()], p.time)
    }

    /** `pus_tm_send`: the numbers advance even when the packet finds no room. */
    function Push(p: Posting): Link {
      var packet, s := Stamp(p), p.report.Service();
      var numbered := this.(
        seqCount := (seqCount + 1) % 0x4000,
        counters := counters[s := (counters[s] as int + 1) % 0x1_0000],
        log := log + [Attempt(packet, Room() > 0)]);
      if Room() > 0 then numbered.(queue := queue + [packet])
      else numbered.(overflows := Saturated(overflows as int + 1))
    }

    /** `tm_queue_pop` into a buffer of `cap` octets. */
    function Pop(cap: nat): Link {
      if queue == [] || cap < TM_MIN_LEN + |queue[0].report.Data()| then this
      else this.(queue := queue[1..], sent := sent + [queue[0]])
    }

    function PushAll(ps: seq<Posting>): Link
      decreases |ps|
    {
      if ps == [] then this else Push(ps[0]).PushAll(ps[1..])
    }
  }

  const Empty: Link := Link(0, seq(256, _ => 0), [], 0, [], [])

  // ---- Accounts ----

  /** The packets that found room, in order. */
  function Survivors(log: seq<Attempt>): seq<Packet> {
    if log == [] then [] else
    var last := log[|log| - 1];
    Survivors(log[..|log| - 1]) + (if last.queued then [last.packet] else [])
  }

  function Drops(log: seq<Attempt>): nat {
    if log == [] then 0 else
    Drops(log[..|log| - 1]) + (if log[|log| - 1].queued then 0 else 1)
  }

  /** How many packets of a service were built. */
  function Built(log: seq<Attempt>, service: octet): nat {
    if log == [] then 0 else
    Built(log[..|log| - 1], service) + (if log[|log| - 1].Service() == service then 1 else 0)
  }

  /** The k-th packet carries k, and its place within its service, both wrapped. */
  ghost predicate Numbered(log: seq<Attempt>) {
    forall k :: 0 <= k < |log| ==>
      && log[k].packet.seqCount == k % 0x4000
      && log[k].packet.msgCounter == Built(log[..k], log[k].Service()) % 0x1_0000
  }

  ghost predicate Accounted(l: Link) {
    && |l.queue| <= 16
    && l.sent + l.queue == Survivors(l.log)
    && l.overflows == Saturated(Drops(l.log))
    && l.seqCount == |l.log| % 0x4000
    && (forall s: octet :: l.counters[s] == Built(l.log, s) % 0x1_0000)
    && Numbered(l.log)
  }

  lemma EmptyAccounted()
    ensures Accounted(Empty)
  {
  }

  lemma NumberedAppended(log: seq<Attempt>, a: Attempt)
    requires Numbered(log)
    requires a.packet.seqCount == |log| % 0x4000
    requires a.packet.msgCounter == Built(log, a.Service()) % 0x1_0000
    ensures Numbered(log + [a])
  {
    var all := log + [a];
    forall k | 0 <= k < |all|
      ensures all[k].packet.seqCount == k % 0x4000
      ensures all[k].packet.msgCounter == Built(all[..k], all[k].Service()) % 0x1_0000
    {
      assert all[..k] == if k < |log| then log[..k] else log;
    }
  }

  lemma LogExtended(l: Link, p: Posting)
    ensures var a := Attempt(l.Stamp(p), l.Room() > 0);
      && l.Push(p).log == l.log + [a] && (l.log + [a])[..|l.log|] == l.log
  {
  }

  lemma PushSurvivors(l: Link, p: Posting)
    requires l.sent + l.queue == Survivors(l.log) && l.overflows == Saturated(Drops(l.log)) && |l.queue| <= DEPTH
    ensures l.Push(p).sent + l.Push(p).queue == Survivors(l.Push(p).log)
    ensures l.Push(p).overflows == Saturated(Drops(l.Push(p).log))
  {
    LogExtended(l, p);
    assert l.sent + (l.queue + [l.Stamp(p)]) == (l.sent + l.queue) + [l.Stamp(p)];
  }

  lemma PushCounters(l: Link, p: Posting, s: octet)
    requires l.counters[s] == Built(l.log, s) % 0x1_0000
    ensures l.Push(p).counters[s] == Built(l.Push(p).log, s) % 0x1_0000
  {
    LogExtended(l, p);
    ReducedSum(Built(l.log, s), 1, 0x1_0000);
  }

  lemma PushAccounted(l: Link, p: Posting)
    requires Accounted(l)
    ensures Accounted(l.Push(p))
  {
    hide Survivors, Drops, Built, Numbered;
    var l' := l.Push(p);
    PushSurvivors(l, p);
    LogExtended(l, p);
    NumberedAppended(l.log, Attempt(l.Stamp(p), l.Room() > 0));
    forall s: octet
      ensures l'.counters[s] == Built(l'.log, s) % 0x1_0000
    {
      PushCounters(l, p, s);
    }
  }

  lemma PopAccounted(l: Link, cap: nat)
    requires Accounted(l)
    ensures Accounted(l.Pop(cap))
  {
    if l.Pop(cap) != l {
      assert l.Pop(cap).sent + l.Pop(cap).queue == l.sent + l.queue;
    }
  }

  lemma {:induction false} PushAllAccounted(l: Link, ps: seq<Posting>)
    requires Accounted(l)
    ensures Accounted(l.PushAll(ps))
    decreases |ps|
  {
    if ps != [] {
      PushAccounted(l, ps[0]);
      PushAllAccounted(l.Push(ps[0]), ps[1..]);
    }
  }

  lemma {:induction false} PushAllAppend(l: Link, ps: seq<Posting>, qs: seq<Posting>)
    ensures l.PushAll(ps + qs) == l.PushAll(ps).PushAll(qs)
    decreases |ps|
  {
    if ps == [] {
      assert ps + qs == qs;
    } else {
      assert (ps + qs)[0] == ps[0] && (ps + qs)[1..] == ps[1..] + qs;
      PushAllAppend(l.Push(ps[0]), ps[1..], qs);
    }
  }

  lemma PushAllOne(l: Link, p: Posting)
    ensures l.PushAll([p]) == l.Push(p)
    ensures l.PushAll([]) == l
  {
  }

  lemma PushAllNone(l: Link)
    ensures l.PushAll([]) == l
  {
  }

  /** From l to l' exactly these reports were attempted, in order, and those that joined the queue
      are the first ones, as many as there were free slots. */
  ghost predicate Attempted(l: Link, ps: seq<Posting>, l': Link) {
    var n, m := |l.log|, |l.queue|;
    && |l'.log| == n + |ps| && l'.log[..n] == l.log
    && |l'.queue| == m + (if |ps| <= l.Room() then |ps| else l.Room()) && l'.queue[..m] == l.queue
    && l'.sent == l.sent
    && forall i :: 0 <= i < |ps| ==> AttemptedAt(l, ps[i], l', i)
  }

  ghost predicate AttemptedAt(l: Link, p: Posting, l': Link, i: nat)
    requires |l.log| + i < |l'.log| && (i < l.Room() ==> |l.queue| + i < |l'.queue|)
  {
    var a := l'.log[|l.log| + i];
    && a.packet.report == p.report && a.packet.time == p.time
    && a.queued == (i < l.Room())
    && (a.queued ==> l'.queue[|l.queue| + i] == a.packet)
  }

  /** Nothing leaves the queue while reports are posted. */
  lemma {:induction false} PushAllAttempts(l: Link, ps: seq<Posting>)
    requires |l.queue| <= DEPTH
    ensures Attempted(l, ps, l.PushAll(ps))
    ensures l.PushAll(ps).overflows >= l.overflows
    ensures |ps| <= l.Room() ==> l.PushAll(ps).overflows == l.overflows
    decreases |ps|
  {
    if ps != [] {
      var m := l.Push(ps[0]);
      PushAllAttempts(m, ps[1..]);
      var l', n := l.PushAll(ps), |l.log|;
      assert l' == m.PushAll(ps[1..]);
      assert l'.log[..n] == l'.log[..n + 1][..n] == l.log;
      assert l'.queue[..|l.queue|] == l'.queue[..|m.queue|][..|l.queue|] == l.queue;
      forall i | 0 <= i < |ps|
        ensures AttemptedAt(l, ps[i], l', i)
      {
        if i > 0 {
          assert AttemptedAt(m, ps[1..][i - 1], l', i - 1);
          assert ps[1..][i - 1] == ps[i];
        } else {
          assert l'.log[n] == l'.log[..n + 1][n] == m.log[n];
          assert m.Room() >= 0 && (l.Room() > 0 ==> l'.queue[|l.queue|] == l'.queue[..|m.queue|][|l.queue|]);
        }
      }
    }
  }

  /** The overflow counter rises by what found no room, up to its maximum. */
  lemma {:induction false} PushAllOverflows(l: Link, ps: seq<Posting>)
    requires |l.queue| <= DEPTH
    ensures l.PushAll(ps).overflows
         == if |ps| <= l.Room() then l.overflows else Saturated(l.overflows + (|ps| - l.Room()))
    decreases |ps|
  {
    if ps != [] {
      PushAllOverflows(l.Push(ps[0]), ps[1..]);
    }
  }

  // ---- What the ground can conclude from the numbers ----

  lemma {:induction false} Conservation(log: seq<Attempt>)
    ensures |log| == |Survivors(log)| + Drops(log)
  {
    if log != [] {
      Conservation(log[..|log| - 1]);
    }
  }

  lemma {:induction false} DropsBetween(log: seq<Attempt>, i: nat, j: nat)
    requires i < j <= |log| && log[i].queued
    requires forall k :: i < k < j ==> !log[k].queued
    ensures Drops(log[..j]) == Drops(log[..i]) + (j - i - 1)
    decreases j
  {
    assert log[..j][..j - 1] == log[..j - 1];
    if i + 1 < j {
      DropsBetween(log, i, j - 1);
    }
  }

  lemma WrappedDifference(a: nat, b: nat, m: nat)
    requires m > 0
    ensures (b % m - a % m - 1) % m == (b - a - 1) % m
  {
    var qa, qb := a / m, b / m;
    assert b % m - a % m - 1 == b - a - 1 - m * (qb - qa);
    Shifted(b - a - 1, qb - qa, m);
  }

  lemma NumbersAt(l: Link, k: nat)
    requires Accounted(l) && k < |l.log|
    ensures l.log[k].packet.seqCount == k % 0x4000
    ensures l.log[k].packet.msgCounter == Built(l.log[..k], l.log[k].Service()) % 0x1_0000
  {
    hide Survivors, Drops, Built;
  }

  /** Between two neighbouring survivors the sequence counts differ by one more than the number
      of packets dropped in between, modulo 16384. */
  lemma SequenceGap(l: Link, i: nat, j: nat)
    requires Accounted(l) && i < j < |l.log| && l.log[i].queued && l.log[j].queued
    requires forall k :: i < k < j ==> !l.log[k].queued
    ensures (l.log[j].packet.seqCount - l.log[i].packet.seqCount - 1) % 0x4000
         == (Drops(l.log[..j]) - Drops(l.log[..i])) % 0x4000
  {
    hide Accounted, Drops;
    DropsBetween(l.log, i, j);
    NumbersAt(l, i);
    NumbersAt(l, j);
    WrappedDifference(i, j, 0x4000);
  }

  /** Dropped packets of one service. */
  function DropsOf(log: seq<Attempt>, service: octet): nat {
    if log == [] then 0 else
    var last := log[|log| - 1];
    DropsOf(log[..|log| - 1], service) + (if last.Service() == service && !last.queued then 1 else 0)
  }

  lemma {:induction false} DropsOfBetween(log: seq<Attempt>, s: octet, i: nat, j: nat)
    requires i < j <= |log| && log[i].queued && log[i].Service() == s
    requires forall k :: i < k < j && log[k].Service() == s ==> !log[k].queued
    ensures Built(log[..j], s) == Built(log[..i], s) + 1 + (DropsOf(log[..j], s) - DropsOf(log[..i], s))
    ensures DropsOf(log[..j], s) >= DropsOf(log[..i], s)
    decreases j
  {
    assert log[..j][..j - 1] == log[..j - 1];
    if i + 1 < j {
      DropsOfBetween(log, s, i, j - 1);
    }
  }

  /** The same within one service, modulo 65536. */
  lemma ServiceGap(l: Link, i: nat, j: nat)
    requires Accounted(l) && i < j < |l.log| && l.log[i].queued && l.log[j].queued
    requires l.log[i].Service() == l.log[j].Service()
    requires forall k :: i < k < j && l.log[k].Service() == l.log[i].Service() ==> !l.log[k].queued
    ensures var s := l.log[i].Service();
      (l.log[j].packet.msgCounter - l.log[i].packet.msgCounter - 1) % 0x1_0000
        == (DropsOf(l.log[..j], s) - DropsOf(l.log[..i], s)) % 0x1_0000
  {
    hide Accounted, DropsOf, Built;
    var s := l.log[i].Service();
    NumbersAt(l, i);
    NumbersAt(l, j);
    DropsOfBetween(l.log, s, i, j);
    WrappedDifference(Built(l.log[..i], s), Built(l.log[..j], s), 0x1_0000);
  }
}
