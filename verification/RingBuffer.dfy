/** The bounded tick queue of rust/tick-parser: a circular array with ever-growing head and tail. */
module TickQueue {
  import opened Prelude
  import opened Arithmetic

  datatype RawTick = RawTick(exchange: string, symbol: string, timestampNs: int, price: real, volume: real)

  const BLANK_TICK := RawTick("", "", 0, 0.0, 0.0)

  /** The array slot of an ever-growing position. */
  function Slot(position: nat, capacity: nat): (slot: nat)
    requires capacity > 0
    ensures slot < capacity
  {
    position % capacity
  }

  /** Positions less than a whole turn apart never share a slot. */
  lemma SlotsDiffer(a: nat, b: nat, capacity: nat)
    requires a < b < a + capacity
    ensures Slot(a, capacity) != Slot(b, capacity)
  {
    var q, r := a / capacity, b / capacity;
    assert a == q * capacity + a % capacity && b == r * capacity + b % capacity;
    ProductDistributes(r, q, capacity);
    MultiplesApart(r - q, capacity);
  }

  class RingBuffer {
    const capacity: nat
    const buffer: array<RawTick>
    var head: nat
    var tail: nat

    ghost predicate Valid()
      reads this
    {
      buffer.Length == capacity && tail <= head <= tail + capacity
    }

    /** The undrained ticks, oldest first. */
    ghost function Contents(): (ticks: seq<RawTick>)
      reads this, buffer
      requires Valid()
      ensures |ticks| == head - tail
    {
      seq(head - tail,
          i requires 0 <= i < head - tail reads this, buffer requires Valid() => buffer[Slot(tail + i, capacity)])
    }

    constructor (capacity: nat)
      ensures Valid() && fresh(buffer) && this.capacity == capacity && Contents() == []
    {
      this.capacity := capacity;
      buffer := new RawTick[capacity](_ => BLANK_TICK);
      head, tail := 0, 0;
    }

    method Push(tick: RawTick) returns (ok: bool)
      requires Valid()
      modifies this`head, buffer
      ensures Valid()
      ensures ok <==> |old(Contents())| < capacity
      ensures Contents() == if ok then old(Contents()) + [tick] else old(Contents())
    {
      hide Slot;
      var claimed := head;
      head := head + 1;
      if claimed - tail >= capacity {
        head := head - 1;
        return false;
      }
      forall p: nat | tail <= p < claimed
        ensures Slot(p, capacity) != Slot(claimed, capacity)
      {
        SlotsDiffer(p, claimed, capacity);
      }
      buffer[Slot(claimed, capacity)] := tick;
      ok := true;
    }

    method Drain() returns (ticks: seq<RawTick>)
      requires Valid()
      modifies this`tail
      ensures Valid()
      ensures ticks == old(Contents()) && Contents() == []
    {
      hide Slot;
      var len := head - tail;
      ticks := [];
      var i := 0;
      while i < len
        invariant 0 <= i <= len && ticks == Contents()[..i]
      {
        ticks := ticks + [buffer[Slot(tail + i, capacity)]];
        i := i + 1;
      }
      tail := head;
    }
  }

  // ---------------------------------------------------------------- runs of the queue

  datatype Action = Push(tick: RawTick) | Drain

  /** A bounded queue with the ticks it has accepted and the ticks it has handed out. */
  datatype History = History(queue: seq<RawTick>, accepted: seq<RawTick>, drained: seq<RawTick>)

  function After(capacity: nat, actions: seq<Action>): History {
    if actions == [] then History([], [], [])
    else
      var h := After(capacity, Front(actions));
      match Last(actions)
      case Push(tick) =>
        if |h.queue| < capacity then History(h.queue + [tick], h.accepted + [tick], h.drained) else h
      case Drain => History([], h.accepted, h.drained + h.queue)
  }

  /** MAIN: over every run the queue stays within its capacity, and what has been drained followed by what is
      queued is exactly what was accepted, in order: nothing is lost, repeated or reordered. */
  lemma {:induction false} FirstInFirstOut(capacity: nat, actions: seq<Action>)
    ensures var h := After(capacity, actions);
            |h.queue| <= capacity && h.drained + h.queue == h.accepted
  {
    if actions != [] {
      FirstInFirstOut(capacity, Front(actions));
      var h := After(capacity, Front(actions));
      if Last(actions).Push? {
        assert h.drained + (h.queue + [Last(actions).tick]) == (h.drained + h.queue) + [Last(actions).tick];
      } else {
        assert (h.drained + h.queue) + [] == h.drained + h.queue;
      }
    }
  }

  /** The ring buffer run through the same actions. */
  method Replay(capacity: nat, actions: seq<Action>) returns (ring: RingBuffer, drained: seq<RawTick>)
    ensures fresh(ring) && ring.Valid() && ring.capacity == capacity
    ensures ring.Contents() == After(capacity, actions).queue && drained == After(capacity, actions).drained
  {
    ring := new RingBuffer(capacity);
    drained := [];
    var i := 0;
    while i < |actions|
      invariant 0 <= i <= |actions|
      invariant fresh(ring) && fresh(ring.buffer) && ring.Valid() && ring.capacity == capacity
      invariant ring.Contents() == After(capacity, actions[..i]).queue
      invariant drained == After(capacity, actions[..i]).drained
    {
      assert Front(actions[..i + 1]) == actions[..i] && Last(actions[..i + 1]) == actions[i];
      match actions[i] {
        case Push(tick) => var ok := ring.Push(tick);
        case Drain =>
          var out := ring.Drain();
          drained := drained + out;
      }
      i := i + 1;
    }
    assert actions[..i] == actions;
  }
}
