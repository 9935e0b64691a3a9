/** The downlink queue (src/tm_queue.c): a ring of sixteen packet slots that drops the newest
    packet when it is full and counts the drops up to 65535. */
module TmQueue {
  import opened Octets
  import opened Status

  const DEPTH: nat := 16
  const SLOT: nat := 256

  /** A sixteen-bit counter that sticks at its maximum. */
  function Saturated(n: nat): u16 {
    if n < 0xFFFF then n else 0xFFFF
  }

  ghost function Slot(slots: seq<octet>, lengths: seq<nat>, k: nat): seq<octet>
    requires |slots| == DEPTH * SLOT && |lengths| == DEPTH && k < DEPTH && lengths[k] <= SLOT
  {
    slots[SLOT * k..SLOT * k + lengths[k]]
  }

  /** The ring holds these packets, oldest first. */
  ghost predicate Holds(slots: seq<octet>, lengths: seq<nat>, head: nat, count: nat, contents: seq<seq<octet>>) {
    && |slots| == DEPTH * SLOT && |lengths| == DEPTH
    && head < DEPTH && |contents| == count <= DEPTH
    && (forall k :: 0 <= k < DEPTH ==> lengths[k] <= SLOT)
    && forall i :: 0 <= i < count ==> contents[i] == Slot(slots, lengths, (head + i) % DEPTH)
  }

  lemma SameSlot(s: seq<octet>, t: seq<octet>, l: seq<nat>, m: seq<nat>, tail: nat, k: nat)
    requires |s| == |t| == DEPTH * SLOT && |l| == |m| == DEPTH && k < DEPTH && tail < DEPTH && k != tail
    requires l[k] == m[k] <= SLOT
    requires s[..SLOT * tail] == t[..SLOT * tail] && s[SLOT * tail + SLOT..] == t[SLOT * tail + SLOT..]
    ensures Slot(s, l, k) == Slot(t, m, k)
  {
    if k < tail {
      assert SLOT * k + l[k] <= SLOT * tail;
      assert Slot(s, l, k) == s[..SLOT * tail][SLOT * k..SLOT * k + l[k]];
      assert Slot(t, m, k) == t[..SLOT * tail][SLOT * k..SLOT * k + l[k]];
    } else {
      var d := SLOT * tail + SLOT;
      assert d <= SLOT * k;
      assert Slot(s, l, k) == s[d..][SLOT * k - d..SLOT * k - d + l[k]];
      assert Slot(t, m, k) == t[d..][SLOT * k - d..SLOT * k - d + l[k]];
    }
  }

  /** Writing the slot behind the newest packet appends, wherever the ring wraps. */
  lemma HoldsAppended(s: seq<octet>, t: seq<octet>, l: seq<nat>, head: nat, count: nat,
                      contents: seq<seq<octet>>, packet: seq<octet>)
    requires Holds(s, l, head, count, contents) && count < DEPTH && |t| == |s| && |packet| <= SLOT
    requires var tail := (head + count) % DEPTH;
      && t[SLOT * tail..SLOT * tail + |packet|] == packet
      && s[..SLOT * tail] == t[..SLOT * tail] && s[SLOT * tail + SLOT..] == t[SLOT * tail + SLOT..]
    ensures Holds(t, l[(head + count) % DEPTH := |packet| as nat], head, count + 1, contents + [packet])
  {
    var tail := (head + count) % DEPTH;
    var m := l[tail := |packet| as nat];
    forall i | 0 <= i < count
      ensures contents[i] == Slot(t, m, (head + i) % DEPTH)
    {
      var k := (head + i) % DEPTH;
      assert k != tail;
      SameSlot(s, t, l, m, tail, k);
    }
  }

  lemma NextIndex(head: nat, i: nat)
    ensures ((head + 1) % DEPTH + i) % DEPTH == (head + (i + 1)) % DEPTH
  {
  }

  /** Moving the head drops the oldest packet. */
  lemma HoldsRemoved(s: seq<octet>, l: seq<nat>, head: nat, count: nat, contents: seq<seq<octet>>)
    requires Holds(s, l, head, count, contents) && count > 0
    ensures contents[0] == Slot(s, l, head)
    ensures Holds(s, l, (head + 1) % DEPTH, count - 1, contents[1..])
  {
    hide Slot;
    assert contents[0] == Slot(s, l, (head + 0) % DEPTH);
    forall i | 0 <= i < count - 1
      ensures contents[1..][i] == Slot(s, l, ((head + 1) % DEPTH + i) % DEPTH)
    {
      NextIndex(head, i);
      assert contents[1..][i] == contents[i + 1] == Slot(s, l, (head + (i + 1)) % DEPTH);
    }
  }

  class TmQueue {
    const slots: array<octet>   // slot k occupies the octets from SLOT * k
    const lengths: array<nat>
    var head: nat
    var count: nat
    var overflows: u16

    /** The queue as a sequence of packets, oldest first. */
    ghost var contents: seq<seq<octet>>
    ghost const Repr: set<object>

    ghost predicate Valid()
      reads this, Repr
    {
      && Repr == {this, slots, lengths}
      && Holds(slots[..], lengths[..], head, count, contents)
    }

    constructor ()
      ensures Valid() && fresh(Repr)
      ensures contents == [] && overflows == 0
    {
      slots := new octet[DEPTH * SLOT];
      lengths := new nat[DEPTH](_ => 0);
      head, count, overflows := 0, 0, 0;
      contents := [];
      Repr := {this, slots, lengths};
    }

    method Init()
      requires Valid()
      modifies this
      ensures Valid()
      ensures contents == [] && overflows == 0
    {
      head := 0;
      count := 0;
      overflows := 0;
      contents := [];
    }

    method Push(packet: seq<octet>) returns (st: Status)
      requires Valid()
      modifies Repr
      ensures Valid()
      ensures st == if |packet| == 0 || |packet| > 256 then BadLength
                    else if |old(contents)| == 16 then QueueFull else Ok
      ensures contents == if st == Ok then old(contents) + [packet] else old(contents)
      ensures overflows == if st == QueueFull then Saturated(old(overflows) as int + 1) else old(overflows)
    {
      if |packet| == 0 || |packet| > SLOT {
        return BadLength;
      }
      if count >= DEPTH {
        if overflows < 0xFFFF {
          overflows := overflows + 1;
        }
        return QueueFull;
      }

      ghost var slots0, lengths0 := slots[..], lengths[..];
      var tail := (head + count) % DEPTH;
      CopyIn(tail, packet);
      lengths[tail] := |packet|;
      HoldsAppended(slots0, slots[..], lengths0, head, count, contents, packet);
      assert lengths[..] == lengths0[tail := |packet| as nat];
      count := count + 1;
      contents := contents + [packet];
      st := Ok;
    }

    /** The copy loop of the push: one slot is overwritten, the others stay. */
    method CopyIn(tail: nat, packet: seq<octet>)
      requires slots.Length == DEPTH * SLOT && tail < DEPTH && |packet| <= SLOT
      modifies slots
      ensures slots[SLOT * tail..SLOT * tail + |packet|] == packet
      ensures slots[..SLOT * tail] == old(slots[..SLOT * tail])
      ensures slots[SLOT * tail + SLOT..] == old(slots[SLOT * tail + SLOT..])
    {
      for i := 0 to |packet|
        invariant slots[SLOT * tail..SLOT * tail + i] == packet[..i]
        invariant slots[..SLOT * tail] == old(slots[..SLOT * tail])
        invariant slots[SLOT * tail + SLOT..] == old(slots[SLOT * tail + SLOT..])
      {
        slots[SLOT * tail + i] := packet[i];
        assert slots[SLOT * tail..SLOT * tail + i + 1] == slots[SLOT * tail..SLOT * tail + i] + [packet[i]];
      }
    }

    method Pop(buf: array<octet>) returns (st: Status, len: nat)
      requires Valid() && buf !in Repr
      modifies this, buf
      ensures Valid() && overflows == old(overflows)
      ensures st == if old(contents) == [] then QueueFull
                    else if buf.Length < |old(contents)[0]| then BufferTooSmall else Ok
      ensures st != Ok ==> contents == old(contents) && buf[..] == old(buf[..])
      ensures st == Ok ==> contents == old(contents)[1..] && len == |old(contents)[0]| <= buf.Length
      ensures st == Ok ==> buf[..len] == old(contents)[0] && buf[len..] == old(buf[len..])
    {
      len := 0;
      if count == 0 {
        return QueueFull, 0;
      }
      HoldsRemoved(slots[..], lengths[..], head, count, contents);
      if buf.Length < lengths[head] {
        return BufferTooSmall, 0;
      }
      len := lengths[head];
      CopyOut(buf);
      RemoveOldest();
      st := Ok;
    }

    /** The copy loop of the pop. */
    method CopyOut(buf: array<octet>)
      requires Valid() && buf !in Repr && count > 0 && lengths[head] <= buf.Length
      modifies buf
      ensures Valid()
      ensures var len := lengths[head]; buf[..len] == contents[0] && buf[len..] == old(buf[len..])
    {
      HoldsRemoved(slots[..], lengths[..], head, count, contents);
      var len := lengths[head];
      ghost var packet := slots[SLOT * head..SLOT * head + len];
      assert packet == contents[0];
      for i := 0 to len
        invariant buf[..i] == packet[..i]
        invariant buf[len..] == old(buf[len..])
      {
        buf[i] := slots[SLOT * head + i];
        assert buf[..i + 1] == buf[..i] + [packet[i]];
      }
    }

    method RemoveOldest()
      requires Valid() && count > 0
      modifies this
      ensures Valid() && contents == old(contents)[1..] && overflows == old(overflows)
    {
      HoldsRemoved(slots[..], lengths[..], head, count, contents);
      assert |contents| > 0;
      hide Holds;
      head := (head + 1) % DEPTH;
      count := count - 1;
      contents := contents[1..];
    }
  }
}
