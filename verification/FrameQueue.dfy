/** The frame queue: eight slots used in a circle, where a push to a full queue drops the oldest frame. */
module FrameQueue {
  import opened Options

  const DEPTH: nat := 8

  /** Slots are not cleared when their frame is popped. */
  datatype Queue = Queue(slots: seq<Option<nat>>, head: nat, tail: nat, count: nat)

  /** The slot `k` places after `from`. */
  function After(from: nat, k: nat): (slot: nat)
    ensures slot < DEPTH
  {
    (from + k) % DEPTH
  }

  lemma AfterNext(from: nat, k: nat)
    ensures After(After(from, 1), k) == After(from, k + 1)
  {
  }

  lemma AfterDistinct(from: nat, j: nat, k: nat)
    requires j < k < DEPTH
    ensures After(from, j) != After(from, k)
  {
  }

  predicate Valid(q: Queue) {
    && |q.slots| == DEPTH
    && q.head < DEPTH && q.tail < DEPTH && q.count <= DEPTH
    && q.tail == After(q.head, q.count)
    && forall k :: 0 <= k < q.count ==> q.slots[After(q.head, k)].Some?
  }

  /** The blocks waiting in the queue, oldest first. */
  function Contents(q: Queue): (blocks: seq<nat>)
    requires Valid(q)
    ensures |blocks| == q.count
  {
    seq(q.count, k requires 0 <= k < q.count => q.slots[After(q.head, k)].value)
  }

  const EMPTY: Queue := Queue(seq(DEPTH, _ => None), 0, 0, 0)

  /** A push, and the block it drops. */
  function Pushed(q: Queue, block: nat): (r: (Queue, Option<nat>))
    requires Valid(q)
  {
    var full := q.count >= DEPTH;
    var drop := if full then q.slots[q.head] else None;
    var head := if full then After(q.head, 1) else q.head;
    var count := if full then q.count - 1 else q.count;
    (Queue(q.slots[q.tail := Some(block)], head, After(q.tail, 1), count + 1), drop)
  }

  /** A pop, and the block it takes. */
  function Popped(q: Queue): (r: (Queue, Option<nat>))
    requires Valid(q)
  {
    if q.count > 0 then
      (q.(head := After(q.head, 1), count := q.count - 1), q.slots[q.head])
    else (q, None)
  }

  /** The circle is a FIFO that forgets its oldest entry when it holds eight. */
  lemma {:induction false} PushIsFifo(q: Queue, block: nat)
    requires Valid(q)
    ensures
      var (p, drop) := Pushed(q, block);
      var c := Contents(q);
      && Valid(p)
      && Contents(p) == (if |c| == DEPTH then c[1..] else c) + [block]
      && drop == (if |c| == DEPTH then Some(c[0]) else None)
  {
    hide After;
    var (p, drop) := Pushed(q, block);
    var c := Contents(q);
    var shift := if q.count == DEPTH then 1 else 0;
    assert After(q.head, 0) == q.head && After(q.head, DEPTH) == q.head by {
      Around(q.head);
    }
    AfterNext(q.head, p.count - 1);
    AfterNext(q.head, DEPTH - 1);
    PushedTail(q);
    forall k | 0 <= k < p.count
      ensures p.slots[After(p.head, k)] == if k < p.count - 1 then q.slots[After(q.head, k + shift)] else Some(block)
    {
      AfterNext(q.head, k);
      if k < p.count - 1 && k + shift < q.count {
        if q.count < DEPTH {
          AfterDistinct(q.head, k, q.count);
        } else {
          AfterDistinct(q.head, 0, k + 1);
        }
      }
    }
    assert Valid(p);
    assert Contents(p) == (if |c| == DEPTH then c[1..] else c) + [block];
  }

  lemma Around(from: nat)
    requires from < DEPTH
    ensures After(from, 0) == from && After(from, DEPTH) == from
  {
  }

  /** The new tail is again `count` places after the new head, and the old one the last of those. */
  lemma {:induction false} PushedTail(q: Queue)
    requires Valid(q)
    ensures
      var p := Pushed(q, 0).0;
      After(q.tail, 1) == After(p.head, p.count) && q.tail == After(p.head, p.count - 1)
  {
    hide After;
    AfterTwice(q.head, q.count, 1);
    AfterTwice(q.head, 1, DEPTH);
    AfterTwice(q.head, 1, DEPTH - 1);
  }

  lemma AfterTwice(from: nat, j: nat, k: nat)
    ensures After(After(from, j), k) == After(from, j + k)
  {
  }

  lemma {:induction false} PopIsFifo(q: Queue)
    requires Valid(q)
    ensures
      var (p, block) := Popped(q);
      var c := Contents(q);
      && Valid(p) && p.slots == q.slots
      && (c == [] ==> p == q && block == None)
      && (c != [] ==> block == Some(c[0]) && Contents(p) == c[1..])
  {
    hide After;
    Around(q.head);
    if q.count > 0 {
      var p := Popped(q).0;
      AfterNext(q.head, p.count);
      forall k | 0 <= k < p.count
        ensures p.slots[After(p.head, k)] == q.slots[After(q.head, k + 1)]
      {
        AfterNext(q.head, k);
      }
      assert Valid(p);
      assert Contents(p) == Contents(q)[1..];
    }
  }

  /** Every waiting block sits in some slot. */
  lemma {:induction false} ContentsInSlots(q: Queue, block: nat)
    requires Valid(q) && block in Contents(q)
    ensures Some(block) in q.slots
  {
    var k :| 0 <= k < q.count && Contents(q)[k] == block;
    assert q.slots[After(q.head, k)] == Some(block);
  }

  class CircularQueue {
    var slots: array<Option<nat>>
    var head: nat
    var tail: nat
    var count: nat

    function Value(): Queue
      reads this, slots
    {
      Queue(slots[..], head, tail, count)
    }

    constructor ()
      ensures fresh(slots) && Valid(Value()) && Contents(Value()) == []
    {
      slots := new Option<nat>[DEPTH](_ => None);
      head, tail, count := 0, 0, 0;
    }

    method Push(block: nat) returns (drop: Option<nat>)
      requires Valid(Value())
      modifies this`head, this`tail, this`count, slots
      ensures (Value(), drop) == Pushed(old(Value()), block)
      ensures Valid(Value())
    {
      PushIsFifo(Value(), block);
      drop := None;
      if count >= DEPTH {
        drop := slots[head];
        head := After(head, 1);
        count := count - 1;
      }
      slots[tail] := Some(block);
      tail := After(tail, 1);
      count := count + 1;
    }

    /** The test after the wait; an empty queue is a wait that timed out or was ended by a stop. */
    method Pop() returns (block: Option<nat>)
      requires Valid(Value())
      modifies this`head, this`count
      ensures (Value(), block) == Popped(old(Value()))
      ensures Valid(Value())
    {
      PopIsFifo(Value());
      block := None;
      if count > 0 {
        block := slots[head];
        head := After(head, 1);
        count := count - 1;
      }
    }
  }
}
