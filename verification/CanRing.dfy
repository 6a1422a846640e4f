/**
 The CAN receive ring (can_bus.c): the interrupt is the only producer, can_rx_pop the only consumer, and the interrupt
 may come between any two of its steps.
 */
module CanRing {
  import opened Bits
  import opened Rings

  const RING := 32   // CAN_RX_RING

  datatype Header = Header(id: nat, ext: bool, rtr: bool, dlc: nat, ts: nat)
  datatype Frame = Frame(header: Header, data: seq<byte>)

  // A received frame and whether the ring had room for it.
  datatype Arrival = Arrival(frame: Frame, kept: bool)

  function Kept(log: seq<Arrival>): seq<Frame> {
    if log == [] then []
    else
      var a := log[|log| - 1];
      Kept(log[..|log| - 1]) + (if a.kept then [a.frame] else [])
  }

  lemma KeptOneMore(log: seq<Arrival>, a: Arrival)
    ensures Kept(log + [a]) == Kept(log) + (if a.kept then [a.frame] else [])
  {
    assert (log + [a])[..|log|] == log;
  }

  /** Accepted and dropped are everything received. */
  lemma {:induction false} KeptAndDropped(log: seq<Arrival>)
    ensures |Kept(log)| + Drops(log) == |log|
  {
    if log != [] { KeptAndDropped(log[..|log| - 1]); }
  }

  function Drops(log: seq<Arrival>): (n: nat)
    ensures n <= |log|
  {
    if log == [] then 0 else Drops(log[..|log| - 1]) + (if log[|log| - 1].kept then 0 else 1)
  }

  // x & (RING - 1)
  function Mask(x: nat): (r: nat)
    ensures r == x % RING
  {
    assert Pow2(5) == 32;
    AndLow(5, x);
    LowOf5(x);
    And(x, RING - 1)
  }

  function Pending(head: nat, tail: nat): (n: nat)
    ensures n < RING
  {
    (head - tail) % RING
  }

  lemma PopDrops(ring: seq<Frame>, tail: nat, n: nat)
    requires |ring| == RING && 0 < n && tail < RING
    ensures ring[tail] == Queued(ring, tail, n)[0]
    ensures Queued(ring, (tail + 1) % RING, n - 1) == Queued(ring, tail, n)[1..]
  {
    var t := (tail + 1) % RING;
    forall k | 0 <= k < n - 1
      ensures Slot(RING, t, k) == Slot(RING, tail, k + 1)
    {
    }
  }

  lemma IndexSteps(head: nat, tail: nat)
    requires head < RING && tail < RING
    ensures Slot(RING, tail, Pending(head, tail)) == head
    ensures Pending(head, tail) < RING - 1 ==> Pending((head + 1) % RING, tail) == Pending(head, tail) + 1
    ensures (head + 1) % RING == tail <==> Pending(head, tail) == RING - 1
    ensures head == tail <==> Pending(head, tail) == 0
    ensures head != tail ==> Pending(head, (tail + 1) % RING) == Pending(head, tail) - 1
  {
    hide Pending;
    var up, down := (head + 1) % RING, (tail + 1) % RING;
    assert up == (if head == RING - 1 then 0 else head + 1) && down == (if tail == RING - 1 then 0 else tail + 1);
    PendingIs(head, tail);
    PendingIs(up, tail);
    PendingIs(head, down);
  }

  lemma PendingIs(head: nat, tail: nat)
    requires head < RING && tail < RING
    ensures Pending(head, tail) == if head >= tail then head - tail else head - tail + RING
  {
  }

  class Ring {
    const slots: array<Frame>
    var head: nat
    var tail: nat
    var overflow: nat                 // a 32-bit counter
    ghost var log: seq<Arrival>       // everything the controller ever delivered
    ghost var popped: seq<Frame>      // everything can_rx_pop ever handed out

    ghost predicate Indices()
      reads this
    {
      slots.Length == RING && head < RING && tail < RING
    }

    ghost function Contents(): seq<Frame>
      requires Indices()
      reads this, slots
    {
      Queued(slots[..], tail, Pending(head, tail))
    }

    /** Popped frames and then the pending ones are the accepted frames, in order and unmodified; the counter has
        every dropped one. */
    ghost predicate Valid()
      reads this, slots
    {
      Indices() && Kept(log) == popped + Contents() && overflow == Drops(log) % U32
    }

    constructor (blank: Frame)
      ensures Valid() && fresh(slots) && log == [] && popped == []
    {
      slots, head, tail, overflow, log, popped := new Frame[RING](_ => blank), 0, 0, 0, [], [];
    }

    // One message of the interrupt's loop: written, then published, or counted when 31 are pending.
    method Push(f: Frame)
      requires Valid()
      modifies this`head, this`overflow, this`log, slots
      ensures Valid() && popped == old(popped)
      ensures var room := |old(Contents())| < RING - 1;
              log == old(log) + [Arrival(f, room)] && Contents() == old(Contents()) + if room then [f] else []
    {
      hide Kept, Drops, Queued, Pending, Slot, Mask;
      var h := head;
      var next := Mask(h + 1);
      IndexSteps(head, tail);
      KeptOneMore(log, Arrival(f, next != tail));
      DropsOneMore(log, Arrival(f, next != tail));
      if next == tail {
        overflow := (overflow + 1) % U32;
        log := log + [Arrival(f, false)];
        return;
      }
      WriteAppends(slots[..], tail, Pending(head, tail), f);
      ghost var was := slots[..];
      slots[h] := f;
      assert slots[..] == was[h := f];
      head := next;
      log := log + [Arrival(f, true)];
    }

    // HAL_FDCAN_RxFifo0Callback: any number of messages, or the interrupt does not come at all.
    method Interrupt()
      requires Valid()
      modifies this`head, this`overflow, this`log, slots
      ensures Valid() && popped == old(popped) && old(log) <= log && old(Contents()) <= Contents()
      ensures old(tail != head) ==> slots[tail] == old(slots[tail])
    {
      hide Kept, Drops, Queued, Pending;
      IndexSteps(head, tail);
      if head != tail { PopDrops(slots[..], tail, Pending(head, tail)); }
      var n: nat := *;
      while n > 0
        invariant Valid() && popped == old(popped) && old(log) <= log && old(Contents()) <= Contents()
      {
        var f: Frame := *;
        Push(f);
        n := n - 1;
      }
      IndexSteps(head, tail);
      if head != tail { PopDrops(slots[..], tail, Pending(head, tail)); }
    }

    /** can_rx_pop, with the interrupt between any two of its steps, even in the middle of copying a frame: what it
        hands out is the next frames accepted, oldest first, and it stops only at `max` or at an empty ring. */
    method Pop(max: nat) returns (out: seq<Frame>)
      requires Valid()
      modifies this, slots
      ensures Valid() && popped == old(popped) + out && |out| <= max && old(log) <= log
      ensures if max <= |old(Contents())| then out == old(Contents())[..max] else old(Contents()) <= out
    {
      hide Kept, Drops, Queued, Pending;
      out := [];
      ghost var first := Contents();
      Interrupt();
      while |out| < max && tail != head
        invariant Valid() && popped == old(popped) + out && |out| <= max && old(log) <= log
        invariant first <= out + Contents()
        decreases max - |out|
      {
        ghost var c := Contents();
        var f := PopOne();
        Moved(first, out, c, f, Contents());
        out := out + [f];
      }
      assert tail == head ==> Contents() == [] by { IndexSteps(head, tail); }
      assert max <= |first| ==> out == first[..max];
    }

    // One turn of the loop.
    method PopOne() returns (f: Frame)
      requires Valid() && head != tail
      modifies this, slots
      ensures Valid() && popped == old(popped) + [f] && old(log) <= log
      ensures old(Contents()) != [] && old(Contents())[0] == f && old(Contents())[1..] <= Contents()
    {
      hide Kept, Drops, Queued, Pending;
      ghost var c := Contents();
      assert c != [] by { IndexSteps(head, tail); }
      Interrupt();
      assert head != tail by { IndexSteps(head, tail); }
      ghost var c0 := Contents();
      f := Copy();
      ghost var c1 := Contents();
      Interrupt();
      ghost var c2 := Contents();
      TailOfPrefix(c, c0);
      TailOfPrefix(c0, c1);
      TailOfPrefix(c1, c2);
      Give(f);
      Interrupt();
    }

    // The struct copy: two reads, the interrupt between them.
    method Copy() returns (f: Frame)
      requires Valid() && head != tail
      modifies this`head, this`overflow, this`log, slots
      ensures Valid() && popped == old(popped) && old(log) <= log && old(Contents()) <= Contents() && head != tail
      ensures Contents() != [] && f == Contents()[0] == old(Contents())[0]
    {
      hide Kept, Drops, Queued, Pending;
      IndexSteps(head, tail);
      PopDrops(slots[..], tail, Pending(head, tail));
      var h := slots[tail].header;
      Interrupt();
      IndexSteps(head, tail);
      PopDrops(slots[..], tail, Pending(head, tail));
      f := Frame(h, slots[tail].data);
    }

    // The tail moves on.
    method Give(ghost f: Frame)
      requires Valid() && Contents() != [] && Contents()[0] == f
      modifies this`tail, this`popped
      ensures Valid() && log == old(log) && popped == old(popped) + [f] && Contents() == old(Contents())[1..]
    {
      hide Kept, Drops, Queued, Pending, Mask;
      IndexSteps(head, tail);
      PopDrops(slots[..], tail, Pending(head, tail));
      popped := popped + [f];
      tail := Mask(tail + 1);
    }

    /** can_get_status: the pending count is the queue's length at the moment its head was read. */
    method Waiting() returns (pending: nat)
      requires Valid()
      modifies this`head, this`overflow, this`log, slots
      ensures Valid() && pending == |old(Contents())| && old(Contents()) <= Contents()
    {
      var h := head;
      Wraps(head, tail);
      Interrupt();
      pending := Mask((h - tail) % U32);
    }
  }

  lemma TailOfPrefix(a: seq<Frame>, b: seq<Frame>)
    requires a <= b && a != []
    ensures a[0] == b[0] && a[1..] <= b[1..]
  {
  }

  lemma Moved(first: seq<Frame>, out: seq<Frame>, c: seq<Frame>, f: Frame, c2: seq<Frame>)
    requires first <= out + c && c != [] && c[0] == f && c[1..] <= c2
    ensures first <= (out + [f]) + c2
  {
    assert c == [f] + c[1..];
    assert out + c == (out + [f]) + c[1..];
  }

  lemma DropsOneMore(log: seq<Arrival>, a: Arrival)
    ensures Drops(log + [a]) == Drops(log) + (if a.kept then 0 else 1)
  {
    assert (log + [a])[..|log|] == log;
  }

  // (head - tail) & 31 in 32-bit arithmetic
  lemma Wraps(head: nat, tail: nat)
    requires head < RING && tail < RING
    ensures (head - tail) % U32 % RING == Pending(head, tail)
  {
  }
}
