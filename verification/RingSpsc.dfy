/**
 The byte ring shared by one writing and one reading thread, in steps as small as the code's shared accesses:
 load the other side's position, copy one byte, publish the own position.
 Each load, copy and store is one sequentially consistent step; a run is any interleaving of steps.
 */
module RingSpsc {
  import opened Bits
  import opened RingIndex

  /** `count` is fixed when the other position is loaded, however stale it becomes. */
  datatype Producer = Resting | Copying(src: seq<byte>, count: nat, done: nat)

  datatype Consumer = Waiting | Taking(count: nat, dst: seq<byte>)

  /**
   The shared memory, the local state of both threads, and the history:
   every byte whose write was published and every byte whose read was.
   */
  datatype State = State(
    data: seq<byte>, writePos: uint64, readPos: uint64,
    producer: Producer, consumer: Consumer,
    published: seq<byte>, consumed: seq<byte>)

  datatype Action =
    | StartWrite(src: seq<byte>)
    | CopyIn
    | PublishWrite
    | StartRead(len: nat)
    | CopyOut
    | PublishRead

  function Initial(order: nat): State {
    State(seq(Pow2(order), _ => 0), 0, 0, Resting, Waiting, [], [])
  }

  /** The slot of byte `k` of a transfer of `count` bytes that began at `pos`. */
  function TransferSlot(cap: nat, pos: uint64, count: nat, k: nat): nat
    requires cap > 0
  {
    ChunkIndex(pos, cap - 1, Min(cap - And(pos, cap - 1), count), k)
  }

  /** The free space and the unread data the code computes from the two positions. */
  function SpaceSeen(s: State): nat {
    (|s.data| - Distance(s.readPos, s.writePos)) % WORD
  }

  function DataSeen(s: State): nat {
    Distance(s.readPos, s.writePos)
  }

  /** One step of a thread; a step that is not enabled changes nothing. */
  function Step(s: State, a: Action): (t: State)
    requires |s.data| > 0
    ensures |t.data| == |s.data|
  {
    var cap := |s.data|;
    match a
    case StartWrite(src) =>
      var count := Min(|src|, SpaceSeen(s));
      if s.producer.Resting? && count > 0 then s.(producer := Copying(src, count, 0)) else s
    case CopyIn =>
      if s.producer.Copying? && s.producer.done < s.producer.count <= |s.producer.src| then
        var p := s.producer;
        var slot := TransferSlot(cap, s.writePos, p.count, p.done);
        if slot < cap then
          s.(data := s.data[slot := p.src[p.done]], producer := p.(done := p.done + 1))
        else s
      else s
    case PublishWrite =>
      if s.producer.Copying? && s.producer.done == s.producer.count <= |s.producer.src| then
        s.(writePos := Advance(s.writePos, s.producer.count),
           producer := Resting,
           published := s.published + s.producer.src[..s.producer.count])
      else s
    case StartRead(len) =>
      var count := Min(len, DataSeen(s));
      if s.consumer.Waiting? && count > 0 then s.(consumer := Taking(count, [])) else s
    case CopyOut =>
      if s.consumer.Taking? && |s.consumer.dst| < s.consumer.count then
        var c := s.consumer;
        var slot := TransferSlot(cap, s.readPos, c.count, |c.dst|);
        if slot < cap then s.(consumer := c.(dst := c.dst + [s.data[slot]])) else s
      else s
    case PublishRead =>
      if s.consumer.Taking? && |s.consumer.dst| == s.consumer.count then
        s.(readPos := Advance(s.readPos, s.consumer.count),
           consumer := Waiting,
           consumed := s.consumed + s.consumer.dst)
      else s
  }

  /** Everything the reading thread has copied out, published or not. */
  function Obtained(s: State): seq<byte> {
    s.consumed + if s.consumer.Taking? then s.consumer.dst else []
  }

  /** The true free space. */
  function Free(s: State): int {
    |s.data| - (|s.published| - |s.consumed|)
  }

  /**
   What holds between any two steps. `|published|` and `|consumed|` are the positions that never wrap.
   */
  ghost predicate Inv(s: State, order: nat) {
    var cap, w, r := Pow2(order), |s.published|, |s.consumed|;
    && order <= 63
    && |s.data| == cap
    && s.writePos == w % WORD && s.readPos == r % WORD
    && r <= w <= r + cap
    && (forall i :: r <= i < w ==> s.data[Slot(i, cap)] == s.published[i])
    && (s.producer.Copying? ==>
          && 0 < s.producer.count <= |s.producer.src|
          && s.producer.done <= s.producer.count <= Free(s)
          && forall k :: 0 <= k < s.producer.done ==> s.data[Slot(w + k, cap)] == s.producer.src[k])
    && (s.consumer.Taking? ==> |s.consumer.dst| <= s.consumer.count && r + s.consumer.count <= w)
    && Obtained(s) <= s.published
  }

  lemma {:induction false} InitialInv(order: nat)
    requires order <= 63
    ensures Inv(Initial(order), order)
  {
  }

  /** When they are loaded, the positions give the true free space and amount of data. */
  lemma {:induction false} SeenIsTrue(s: State, order: nat)
    requires Inv(s, order)
    ensures SpaceSeen(s) == Free(s) && DataSeen(s) == |s.published| - |s.consumed|
  {
    hide Slot, Pow2;
    OrderBound(order);
    TrueDistance(|s.consumed|, |s.published|);
  }

  /** A byte of a transfer goes to the slot of its position. */
  lemma {:induction false} TransferSlotIs(order: nat, pos: nat, count: nat, k: nat)
    requires order <= 63 && k < count <= Pow2(order)
    ensures TransferSlot(Pow2(order), pos % WORD, count, k) == Slot(pos + k, Pow2(order))
  {
    ChunkIndexIsSlot(pos, order, count, k);
  }

  lemma {:induction false} AdvanceWraps(pos: nat, n: nat)
    ensures Advance(pos % WORD, n) == (pos + n) % WORD
  {
  }

  lemma {:induction false} StartKeeps(s: State, order: nat, a: Action)
    requires Inv(s, order) && (a.StartWrite? || a.StartRead?)
    ensures Inv(Step(s, a), order)
  {
    hide Slot, Pow2, SpaceSeen, DataSeen;
    SeenIsTrue(s, order);
  }

  /** Slots of bytes that are in the ring, or being put there, together. */
  lemma {:induction false} SlotsApart(i: nat, j: nat, cap: nat)
    requires i < j < i + cap
    ensures Slot(i, cap) != Slot(j, cap)
  {
    SlotsDistinct(i, 0, j - i, cap);
  }

  lemma {:induction false} CopyInKeeps(s: State, order: nat)
    requires Inv(s, order)
    ensures Inv(Step(s, CopyIn), order)
  {
    hide Slot, Pow2, TransferSlot;
    var cap, w, r, p := Pow2(order), |s.published|, |s.consumed|, s.producer;
    if p.Copying? && p.done < p.count {
      TransferSlotIs(order, w, p.count, p.done);
      forall i | r <= i < w + p.done
        ensures Slot(i, cap) != Slot(w + p.done, cap)
      {
        SlotsApart(i, w + p.done, cap);
      }
    }
  }

  lemma {:induction false} PublishWriteKeeps(s: State, order: nat)
    requires Inv(s, order)
    ensures Inv(Step(s, PublishWrite), order)
  {
    hide Slot, Pow2, Advance, Distance;
    var cap, w, r, p := Pow2(order), |s.published|, |s.consumed|, s.producer;
    if p.Copying? && p.done == p.count {
      AdvanceWraps(w, p.count);
      var t := Step(s, PublishWrite);
      assert Obtained(t) == Obtained(s) <= s.published <= t.published;
      forall i | r <= i < |t.published|
        ensures t.data[Slot(i, cap)] == t.published[i]
      {
        if i >= w {
          assert i == w + (i - w);
        }
      }
    }
  }

  lemma {:induction false} CopyOutKeeps(s: State, order: nat)
    requires Inv(s, order)
    ensures Inv(Step(s, CopyOut), order)
  {
    hide Slot, Pow2, TransferSlot;
    var r, c := |s.consumed|, s.consumer;
    if c.Taking? && |c.dst| < c.count {
      TransferSlotIs(order, r, c.count, |c.dst|);
      assert Obtained(s) + [s.published[r + |c.dst|]] <= s.published;
    }
  }

  lemma {:induction false} PublishReadKeeps(s: State, order: nat)
    requires Inv(s, order)
    ensures Inv(Step(s, PublishRead), order)
  {
    hide Slot, Pow2;
    if s.consumer.Taking? && |s.consumer.dst| == s.consumer.count {
      AdvanceWraps(|s.consumed|, s.consumer.count);
    }
  }

  lemma {:induction false} StepKeeps(s: State, order: nat, a: Action)
    requires Inv(s, order)
    ensures Inv(Step(s, a), order)
  {
    match a
    case StartWrite(_) => StartKeeps(s, order, a);
    case StartRead(_) => StartKeeps(s, order, a);
    case CopyIn => CopyInKeeps(s, order);
    case PublishWrite => PublishWriteKeeps(s, order);
    case CopyOut => CopyOutKeeps(s, order);
    case PublishRead => PublishReadKeeps(s, order);
  }

  /** The state after some steps of the two threads, in any order. */
  function Steps(s: State, run: seq<Action>): (t: State)
    requires |s.data| > 0
    ensures |t.data| > 0
  {
    if run == [] then s else Step(Steps(s, run[..|run| - 1]), run[|run| - 1])
  }

  /** The state after a run from the empty ring. */
  function Exec(order: nat, run: seq<Action>): (s: State)
    requires order <= 63
    ensures |s.data| > 0
  {
    Steps(Initial(order), run)
  }

  lemma {:induction false} StepsKeep(s: State, order: nat, run: seq<Action>)
    requires Inv(s, order)
    ensures Inv(Steps(s, run), order)
    decreases |run|
  {
    hide Step;
    if run != [] {
      StepsKeep(s, order, run[..|run| - 1]);
      StepKeeps(Steps(s, run[..|run| - 1]), order, run[|run| - 1]);
    }
  }

  lemma {:induction false} RunKeeps(order: nat, run: seq<Action>)
    requires order <= 63
    ensures Inv(Exec(order, run), order)
  {
    hide Inv, Step;
    InitialInv(order);
    StepsKeep(Initial(order), order, run);
  }

  /** In every interleaving the reader obtains a prefix of what the writer has published. */
  lemma {:induction false} FifoOrder(order: nat, run: seq<Action>)
    requires order <= 63
    ensures Obtained(Exec(order, run)) <= Exec(order, run).published
  {
    RunKeeps(order, run);
  }

  /** No step of the writer changes a byte that is published and not yet consumed. */
  lemma {:induction false} UnreadKept(order: nat, run: seq<Action>, a: Action)
    requires order <= 63
    ensures
      var s := Exec(order, run);
      var t := Step(s, a);
      && |t.data| == |s.data|
      && forall i :: |s.consumed| <= i < |s.published| ==>
           t.data[Slot(i, |s.data|)] == s.data[Slot(i, |s.data|)] == s.published[i]
  {
    hide Slot, Pow2;
    RunKeeps(order, run);
    var s := Exec(order, run);
    StepKeeps(s, order, a);
    if a.PublishRead? {
      assert Step(s, a).data == s.data;
    }
  }

  /** The amounts fixed at the start of a transfer never exceed what is really free or unread, however late they are used. */
  lemma {:induction false} StaleIsSafe(order: nat, run: seq<Action>)
    requires order <= 63
    ensures
      var s := Exec(order, run);
      && SpaceSeen(s) == Free(s) && DataSeen(s) == |s.published| - |s.consumed|
      && (s.producer.Copying? ==> s.producer.count <= Free(s))
      && (s.consumer.Taking? ==> s.consumer.count <= |s.published| - |s.consumed|)
  {
    RunKeeps(order, run);
    SeenIsTrue(Exec(order, run), order);
  }

  /** Both copies stay inside the array. */
  lemma {:induction false} CopiesInBounds(order: nat, run: seq<Action>)
    requires order <= 63
    ensures
      var s := Exec(order, run);
      var p, c := s.producer, s.consumer;
      && (p.Copying? && p.done < p.count ==>
            p.done < |p.src| && TransferSlot(|s.data|, s.writePos, p.count, p.done) < |s.data|)
      && (c.Taking? && |c.dst| < c.count ==>
            TransferSlot(|s.data|, s.readPos, c.count, |c.dst|) < |s.data|)
  {
    hide Slot, Pow2, TransferSlot;
    RunKeeps(order, run);
    var s := Exec(order, run);
    if s.producer.Copying? && s.producer.done < s.producer.count {
      TransferSlotIs(order, |s.published|, s.producer.count, s.producer.done);
    }
    if s.consumer.Taking? && |s.consumer.dst| < s.consumer.count {
      TransferSlotIs(order, |s.consumed|, s.consumer.count, |s.consumer.dst|);
    }
  }

  function WriteSteps(src: seq<byte>, count: nat): seq<Action> {
    [StartWrite(src)] + seq(count, _ => CopyIn) + [PublishWrite]
  }

  function ReadSteps(len: nat, count: nat): seq<Action> {
    [StartRead(len)] + seq(count, _ => CopyOut) + [PublishRead]
  }

  lemma {:induction false} CopyingIn(s: State, order: nat, n: nat)
    requires Inv(s, order) && s.producer.Copying? && s.producer.done + n <= s.producer.count
    ensures
      var t := Steps(s, seq(n, _ => CopyIn));
      t.producer == s.producer.(done := s.producer.done + n) && t.published == s.published
    decreases n
  {
    hide Slot, Pow2, TransferSlot;
    if n > 0 {
      var acts := seq(n, _ => CopyIn);
      assert acts[..n - 1] == seq(n - 1, _ => CopyIn);
      CopyingIn(s, order, n - 1);
      StepsKeep(s, order, acts[..n - 1]);
      var t := Steps(s, acts[..n - 1]);
      TransferSlotIs(order, |t.published|, t.producer.count, t.producer.done);
    }
  }

  /** A write that is not interrupted publishes as many bytes as fit, the first ones of its source. */
  lemma {:induction false} WriteCompletes(s: State, order: nat, src: seq<byte>)
    requires Inv(s, order) && s.producer.Resting?
    ensures
      var count := Min(|src|, Free(s));
      var t := Steps(s, WriteSteps(src, count));
      t.published == s.published + src[..count] && t.producer.Resting? && Inv(t, order)
  {
    hide Slot, Pow2, SpaceSeen;
    SeenIsTrue(s, order);
    var count := Min(|src|, Free(s));
    var s1 := Step(s, StartWrite(src));
    var acts := WriteSteps(src, count);
    StepsKeep(s, order, acts);
    StepKeeps(s, order, StartWrite(src));
    StepsFront(s, StartWrite(src), seq(count, _ => CopyIn));
    assert acts[..|acts| - 1] == [StartWrite(src)] + seq(count, _ => CopyIn);
    if count > 0 {
      CopyingIn(s1, order, count);
    }
  }

  lemma {:induction false} CopyingOut(s: State, order: nat, n: nat)
    requires Inv(s, order) && s.consumer.Taking? && |s.consumer.dst| + n <= s.consumer.count
    ensures
      var t := Steps(s, seq(n, _ => CopyOut));
      && t.consumer.Taking? && t.consumer.count == s.consumer.count
      && |t.consumer.dst| == |s.consumer.dst| + n
      && t.published == s.published && t.consumed == s.consumed
    decreases n
  {
    hide Slot, Pow2, TransferSlot;
    if n > 0 {
      var acts := seq(n, _ => CopyOut);
      assert acts[..n - 1] == seq(n - 1, _ => CopyOut);
      CopyingOut(s, order, n - 1);
      StepsKeep(s, order, acts[..n - 1]);
      var t := Steps(s, acts[..n - 1]);
      TransferSlotIs(order, |t.consumed|, t.consumer.count, |t.consumer.dst|);
    }
  }

  /** A read that is not interrupted consumes as many unread bytes as asked for, oldest first. */
  lemma {:induction false} ReadCompletes(s: State, order: nat, len: nat)
    requires Inv(s, order) && s.consumer.Waiting?
    ensures
      var r, w := |s.consumed|, |s.published|;
      r <= w
      && var count := Min(len, w - r);
         var t := Steps(s, ReadSteps(len, count));
         t.consumed == s.published[..r + count] && t.consumer.Waiting? && Inv(t, order)
  {
    hide Inv, DataSeen, SpaceSeen, TransferSlot, Advance;
    SeenIsTrue(s, order);
    ConsumedPrefix(s, order);
    var count := Min(len, |s.published| - |s.consumed|);
    var acts := ReadSteps(len, count);
    StepsKeep(s, order, acts);
    ConsumedPrefix(Steps(s, acts), order);
    StepKeeps(s, order, StartRead(len));
    StepsFront(s, StartRead(len), seq(count, _ => CopyOut));
    assert acts[..|acts| - 1] == [StartRead(len)] + seq(count, _ => CopyOut);
    if count > 0 {
      CopyingOut(Step(s, StartRead(len)), order, count);
    }
  }

  lemma {:induction false} StepsRepeat(s: State, a: Action, n: nat)
    requires |s.data| > 0
    ensures Steps(s, seq(0, _ => a)) == s
    ensures n > 0 ==> Steps(s, seq(n, _ => a)) == Step(Steps(s, seq(n - 1, _ => a)), a)
  {
    hide Step;
    assert n > 0 ==> seq(n, _ => a)[..n - 1] == seq(n - 1, _ => a);
  }

  /** An uninterrupted write just before its publication. */
  lemma {:induction false} WriteMiddle(s: State, order: nat, src: seq<byte>)
    requires Inv(s, order) && s.producer.Resting?
    ensures Free(s) >= 0
    ensures
      var count := Min(|src|, Free(s));
      var mid := Steps(Step(s, StartWrite(src)), seq(count, _ => CopyIn));
      if count == 0 then mid == s && !Step(s, StartWrite(src)).producer.Copying?
      else mid.producer == Copying(src, count, count) && Step(s, StartWrite(src)).producer.Copying?
  {
    hide Slot, Pow2, SpaceSeen;
    SeenIsTrue(s, order);
    var count := Min(|src|, Free(s));
    if count > 0 {
      StepKeeps(s, order, StartWrite(src));
      CopyingIn(Step(s, StartWrite(src)), order, count);
    } else {
      assert seq(0, _ => CopyIn) == [];
    }
  }

  /** An uninterrupted read just before its publication. */
  lemma {:induction false} ReadMiddle(s: State, order: nat, len: nat)
    requires Inv(s, order) && s.consumer.Waiting?
    ensures |s.consumed| <= |s.published|
    ensures
      var count := Min(len, |s.published| - |s.consumed|);
      var mid := Steps(Step(s, StartRead(len)), seq(count, _ => CopyOut));
      && (if count == 0 then mid == s
          else mid.consumer.Taking? && mid.consumer.count == count == |mid.consumer.dst|)
      && Step(mid, PublishRead) == Steps(s, ReadSteps(len, count))
  {
    hide Slot, Pow2, DataSeen;
    SeenIsTrue(s, order);
    var count := Min(len, |s.published| - |s.consumed|);
    var acts := ReadSteps(len, count);
    StepsFront(s, StartRead(len), seq(count, _ => CopyOut));
    assert acts[..|acts| - 1] == [StartRead(len)] + seq(count, _ => CopyOut);
    if count > 0 {
      StepKeeps(s, order, StartRead(len));
      CopyingOut(Step(s, StartRead(len)), order, count);
    } else {
      assert seq(0, _ => CopyOut) == [];
    }
  }

  lemma ConsumedPrefix(s: State, order: nat)
    requires Inv(s, order)
    ensures |s.data| > 0 && |s.consumed| <= |s.published| && s.consumed == s.published[..|s.consumed|]
  {
  }

  lemma {:induction false} StepsFront(s: State, a: Action, run: seq<Action>)
    requires |s.data| > 0
    ensures Steps(s, [a] + run) == Steps(Step(s, a), run)
    decreases |run|
  {
    hide Step;
    if run == [] {
      assert [a] + run == [a] && [a][..0] == [];
    } else {
      assert ([a] + run)[..|run|] == [a] + run[..|run| - 1];
      StepsFront(s, a, run[..|run| - 1]);
    }
  }
}
