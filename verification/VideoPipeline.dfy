/**
 The capture and the render thread over one block pool and one frame queue, as a system of steps.
 A step is what one thread does inside one lock or with one atomic operation; in particular a release is two steps,
 the decrement of the reference count and the store of zero that follows when it took the last reference.
 No one outside the two threads retains a block. An acquire may take any free block, not only the first, since blocks
 are freed while it scans, and it may fail at any time: a block freed behind the scan does not save a wait that has
 timed out.
 */
module VideoPipeline {
  import opened MemoryPool
  import opened FrameQueue
  import opened Options

  /** Where the capture thread is, with the block it has in hand. */
  datatype Capture =
    | CaptureTop
    | CaptureReady
    | Framed
    | Acquired(block: nat)
    | Filled(block: nat)
    | Dropping(block: nat)
    | CaptureZeroing(block: nat)

  /** Where the render thread is, with the block it has in hand. */
  datatype Render =
    | RenderTop
    | RenderReady
    | Taken(block: nat)
    | Shown(block: nat)
    | RenderZeroing(block: nat)

  datatype State = State(
    refs: seq<int>, queue: Queue, blockSeq: seq<nat>,
    capture: Capture, render: Render, running: bool, poolShut: bool,
    seqNo: nat, captured: nat, dropPool: nat, dropQueue: nat,
    delivered: seq<nat>)

  datatype Action =
    | CaptureLoop
    | FrameReady
    | PollTimeout
    | Acquire(block: nat)
    | AcquireFails
    | Fill
    | Push
    | DropOldest
    | CaptureZero
    | RenderLoop
    | Pop
    | Show
    | RenderRelease
    | RenderZero
    | Stop
    | ShutdownPool

  function Initial(blocks: nat): State {
    State(seq(blocks, _ => 0), EMPTY, seq(blocks, _ => 0), CaptureTop, RenderTop, true, false, 0, 0, 0, 0, [])
  }

  predicate Shaped(s: State) {
    && Valid(s.queue)
    && |s.blockSeq| == |s.refs|
    && (s.capture.CaptureTop? || s.capture.CaptureReady? || s.capture.Framed? || s.capture.block < |s.refs|)
    && (s.render.RenderTop? || s.render.RenderReady? || s.render.block < |s.refs|)
    && (forall k :: 0 <= k < DEPTH && s.queue.slots[k].Some? ==> s.queue.slots[k].value < |s.refs|)
    && (forall k :: 0 <= k < s.queue.count ==> Contents(s.queue)[k] < |s.refs|)
  }

  predicate CaptureOwns(c: Capture, b: nat) {
    (c.Acquired? || c.Filled? || c.Dropping?) && c.block == b
  }

  predicate RenderOwns(r: Render, b: nat) {
    (r.Taken? || r.Shown?) && r.block == b
  }

  /** How often a block waits in the queue. */
  function InQueue(q: Queue, b: nat): nat
    requires Valid(q)
  {
    multiset(Contents(q))[b]
  }

  /** Whether the capture thread is at its call to acquire; with a camera, a frame has to be there first. */
  predicate Wanting(s: State, camera: bool) {
    if camera then s.capture.Framed? else s.capture.CaptureReady?
  }

  /** One step; a step that is not enabled changes nothing. */
  function Step(s: State, a: Action, camera: bool): (t: State)
    requires Shaped(s)
    ensures |t.refs| == |s.refs|
  {
    match a
    case CaptureLoop =>
      if s.capture.CaptureTop? && s.running then s.(capture := CaptureReady) else s
    case FrameReady =>
      if camera && s.capture.CaptureReady? then s.(capture := Framed, captured := s.captured + 1) else s
    case PollTimeout =>
      if camera && s.capture.CaptureReady? then s.(capture := CaptureTop) else s
    case Acquire(b) =>
      if Wanting(s, camera) && !s.poolShut && b < |s.refs| && s.refs[b] == 0 then
        s.(capture := Acquired(b), refs := s.refs[b := 1], captured := if camera then s.captured else s.captured + 1)
      else s
    case AcquireFails =>
      if Wanting(s, camera) then
        s.(capture := CaptureTop, dropPool := s.dropPool + 1)
      else s
    case Fill =>
      if s.capture.Acquired? then
        s.(capture := Filled(s.capture.block), seqNo := s.seqNo + 1, blockSeq := s.blockSeq[s.capture.block := s.seqNo + 1])
      else s
    case Push =>
      if s.capture.Filled? then
        var (q, drop) := Pushed(s.queue, s.capture.block);
        s.(queue := q, capture := if drop.Some? then Dropping(drop.value) else CaptureTop)
      else s
    case DropOldest =>
      if s.capture.Dropping? then
        var b := s.capture.block;
        s.(dropQueue := s.dropQueue + 1, refs := s.refs[b := s.refs[b] - 1],
           capture := if s.refs[b] <= 1 then CaptureZeroing(b) else CaptureTop)
      else s
    case CaptureZero =>
      if s.capture.CaptureZeroing? then s.(refs := s.refs[s.capture.block := 0], capture := CaptureTop) else s
    case RenderLoop =>
      if s.render.RenderTop? && s.running then s.(render := RenderReady) else s
    case Pop =>
      if s.render.RenderReady? then
        var (q, block) := Popped(s.queue);
        s.(queue := q, render := if block.Some? then Taken(block.value) else RenderTop)
      else s
    case Show =>
      if s.render.Taken? then
        s.(render := Shown(s.render.block), delivered := s.delivered + [s.blockSeq[s.render.block]])
      else s
    case RenderRelease =>
      if s.render.Shown? then
        var b := s.render.block;
        s.(refs := s.refs[b := s.refs[b] - 1], render := if s.refs[b] <= 1 then RenderZeroing(b) else RenderTop)
      else s
    case RenderZero =>
      if s.render.RenderZeroing? then s.(refs := s.refs[s.render.block := 0], render := RenderTop) else s
    case Stop => s.(running := false)
    case ShutdownPool => s.(poolShut := true)
  }

  /** How many owners a block has. */
  function OwnersOf(s: State, b: nat): nat
    requires Valid(s.queue)
  {
    (if CaptureOwns(s.capture, b) then 1 else 0) + InQueue(s.queue, b) + (if RenderOwns(s.render, b) then 1 else 0)
  }

  /** Free blocks have no reference; each of the others has one, and one owner. */
  ghost predicate Owned(s: State) {
    Shaped(s) && forall b :: 0 <= b < |s.refs| ==> s.refs[b] == OwnersOf(s, b) <= 1
  }

  /** A block whose count is about to be set to zero belongs to no one. */
  ghost predicate ZeroingFree(s: State)
    requires Shaped(s)
  {
    && (s.capture.CaptureZeroing? ==> OwnersOf(s, s.capture.block) == 0)
    && (s.render.RenderZeroing? ==> OwnersOf(s, s.render.block) == 0)
  }

  /** The sequence numbers of the frames shown, being shown, waiting and about to wait. */
  function Numbers(s: State): seq<nat>
    requires Shaped(s)
  {
    ShownOrTaken(s) + NumbersOf(s.blockSeq, Contents(s.queue)) + Coming(s)
  }

  function ShownOrTaken(s: State): seq<nat>
    requires Shaped(s)
  {
    s.delivered + if s.render.Taken? then [s.blockSeq[s.render.block]] else []
  }

  function Coming(s: State): seq<nat>
    requires Shaped(s)
  {
    if s.capture.Filled? then [s.blockSeq[s.capture.block]] else []
  }

  function NumbersOf(blockSeq: seq<nat>, blocks: seq<nat>): (ns: seq<nat>)
    requires forall k :: 0 <= k < |blocks| ==> blocks[k] < |blockSeq|
    ensures |ns| == |blocks|
  {
    seq(|blocks|, k requires 0 <= k < |blocks| => blockSeq[blocks[k]])
  }

  ghost predicate Increasing(ns: seq<nat>) {
    forall j, k :: 0 <= j < k < |ns| ==> ns[j] < ns[k]
  }

  ghost predicate Ordered(s: State)
    requires Shaped(s)
  {
    Increasing(Numbers(s)) && forall n :: n in Numbers(s) ==> n <= s.seqNo
  }

  /** The frames in the hands of the two threads. */
  function InHand(s: State): nat {
    (if s.capture.CaptureTop? || s.capture.CaptureReady? || s.capture.CaptureZeroing? then 0 else 1)
    + (if s.render.Taken? then 1 else 0)
  }

  /** Every captured frame is somewhere; this does not depend on who owns what. */
  ghost predicate Conserved(s: State, camera: bool) {
    && (s.capture.Framed? ==> camera)
    && s.captured == s.seqNo + (if s.capture.Framed? || s.capture.Acquired? then 1 else 0)
                     + (if camera then s.dropPool else 0)
    && s.captured == |s.delivered| + s.dropQueue + s.queue.count + InHand(s) + (if camera then s.dropPool else 0)
  }

  ghost predicate Inv(s: State) {
    Owned(s) && ZeroingFree(s) && Ordered(s)
  }

  /** An acquire does not take a block whose release is between its two steps. */
  predicate Guarded(s: State, a: Action, camera: bool) {
    a.Acquire? && Wanting(s, camera) && !s.poolShut ==> s.render != RenderZeroing(a.block)
  }

  lemma {:induction false} InitialInv(blocks: nat)
    ensures Inv(Initial(blocks))
  {
  }

  /** The queue's part of a step: a block goes in, perhaps another one out. */
  lemma {:induction false} PushMoves(q: Queue, block: nat, b: nat)
    requires Valid(q)
    ensures
      var (p, drop) := Pushed(q, block);
      Valid(p) && InQueue(p, b) + (if drop == Some(b) then 1 else 0) == InQueue(q, b) + (if block == b then 1 else 0)
  {
    hide After, Pushed;
    PushIsFifo(q, block);
    var c := Contents(q);
    if |c| == DEPTH {
      assert c == [c[0]] + c[1..];
    }
  }

  lemma {:induction false} PopMoves(q: Queue, b: nat)
    requires Valid(q)
    ensures
      var (p, block) := Popped(q);
      Valid(p) && InQueue(p, b) + (if block == Some(b) then 1 else 0) == InQueue(q, b)
  {
    hide After, Popped;
    PopIsFifo(q);
    var c := Contents(q);
    if c != [] {
      assert c == [c[0]] + c[1..];
    }
  }

  /** The blocks in the queue are those of its slots. */
  lemma {:induction false} ShapedFromSlots(s: State)
    requires Valid(s.queue)
    requires forall k :: 0 <= k < DEPTH && s.queue.slots[k].Some? ==> s.queue.slots[k].value < |s.refs|
    ensures forall k :: 0 <= k < s.queue.count ==> Contents(s.queue)[k] < |s.refs|
  {
    hide After;
  }

  lemma {:induction false} ShapeKeeps(s: State, a: Action, camera: bool)
    requires Shaped(s)
    ensures Shaped(Step(s, a, camera))
  {
    hide After, Contents;
    if a.Push? && s.capture.Filled? {
      PushIsFifo(s.queue, s.capture.block);
      ShapedFromSlots(Step(s, a, camera));
    } else if a.Pop? {
      PopIsFifo(s.queue);
      ShapedFromSlots(Step(s, a, camera));
    }
  }

  lemma {:induction false} QueueKeepsOwners(s: State, a: Action, camera: bool, b: nat)
    requires Shaped(s) && (a.Push? || a.Pop?)
    ensures Valid(Step(s, a, camera).queue) && OwnersOf(Step(s, a, camera), b) == OwnersOf(s, b)
  {
    hide After, Contents, Pushed, Popped, InQueue;
    if a.Push? && s.capture.Filled? {
      PushMoves(s.queue, s.capture.block, b);
    } else if a.Pop? {
      PopMoves(s.queue, b);
    }
  }

  /** How a step changes the owners and the count of one block. */
  lemma {:induction false} OwnersKeepOf(s: State, a: Action, camera: bool, b: nat)
    requires Owned(s) && ZeroingFree(s) && Guarded(s, a, camera) && b < |s.refs|
    ensures
      var t := Step(s, a, camera);
      Valid(t.queue) && |t.refs| == |s.refs| && t.refs[b] == OwnersOf(t, b) <= 1
  {
    hide After, InQueue, Pushed, Popped;
    if a.Push? || a.Pop? {
      QueueKeepsOwners(s, a, camera, b);
    }
  }

  lemma {:induction false} OwnersKeep(s: State, a: Action, camera: bool)
    requires Owned(s) && ZeroingFree(s) && Guarded(s, a, camera)
    ensures Owned(Step(s, a, camera)) && ZeroingFree(Step(s, a, camera))
  {
    hide After, InQueue, Pushed, Popped;
    var t := Step(s, a, camera);
    ShapeKeeps(s, a, camera);
    forall b | 0 <= b < |t.refs|
      ensures t.refs[b] == OwnersOf(t, b) <= 1
    {
      OwnersKeepOf(s, a, camera, b);
    }
  }

  lemma {:induction false} ConservedKeeps(s: State, a: Action, camera: bool)
    requires Shaped(s) && Conserved(s, camera)
    ensures Conserved(Step(s, a, camera), camera)
  {
    hide After, Contents;
    if a.Push? && s.capture.Filled? {
      PushIsFifo(s.queue, s.capture.block);
    }
    PopIsFifo(s.queue);
  }

  lemma IncreasingAppend(a: seq<nat>, x: nat)
    requires Increasing(a) && forall n :: n in a ==> n < x
    ensures Increasing(a + [x]) && forall n :: n in a + [x] ==> n <= x
  {
    assert forall j :: 0 <= j < |a| ==> a[j] in a;
  }

  lemma IncreasingWithout(a: seq<nat>, x: nat, b: seq<nat>)
    requires Increasing(a + [x] + b)
    ensures Increasing(a + b)
  {
    var with, without := a + [x] + b, a + b;
    assert forall k :: 0 <= k < |without| ==> without[k] == with[if k < |a| then k else k + 1];
  }

  /** The block being numbered is in no other hands. */
  lemma {:induction false} FreshBlock(s: State)
    requires Owned(s) && s.capture.Acquired?
    ensures !RenderOwns(s.render, s.capture.block)
    ensures forall k :: 0 <= k < s.queue.count ==> Contents(s.queue)[k] != s.capture.block
  {
    hide After;
    var b := s.capture.block;
    assert s.refs[b] == OwnersOf(s, b) <= 1;
    assert b !in multiset(Contents(s.queue));
    assert forall k :: 0 <= k < s.queue.count ==> Contents(s.queue)[k] in multiset(Contents(s.queue));
  }

  lemma {:induction false} FillNumbers(s: State, camera: bool)
    requires Owned(s) && Shaped(Step(s, Fill, camera))
    ensures
      Numbers(Step(s, Fill, camera)) == if s.capture.Acquired? then Numbers(s) + [s.seqNo + 1] else Numbers(s)
  {
    hide After, Contents;
    if s.capture.Acquired? {
      FreshBlock(s);
      var t := Step(s, Fill, camera);
      assert NumbersOf(t.blockSeq, Contents(t.queue)) == NumbersOf(s.blockSeq, Contents(s.queue));
      assert ShownOrTaken(t) == ShownOrTaken(s);
    }
  }

  /** A push keeps the numbers, or loses the oldest waiting one. */
  lemma {:induction false} PushNumbers(s: State, camera: bool)
    requires Shaped(s) && Shaped(Step(s, Push, camera))
    ensures
      var t, c := Step(s, Push, camera), NumbersOf(s.blockSeq, Contents(s.queue));
      || Numbers(t) == Numbers(s)
      || (c != [] && Numbers(s) == ShownOrTaken(s) + [c[0]] + (c[1..] + Coming(s))
          && Numbers(t) == ShownOrTaken(s) + (c[1..] + Coming(s)))
  {
    hide After, Pushed;
    var t := Step(s, Push, camera);
    if s.capture.Filled? {
      PushIsFifo(s.queue, s.capture.block);
      var c, d := NumbersOf(s.blockSeq, Contents(s.queue)), NumbersOf(t.blockSeq, Contents(t.queue));
      assert ShownOrTaken(t) == ShownOrTaken(s) && Coming(t) == [];
      if |c| == DEPTH {
        assert d == c[1..] + Coming(s);
        assert c == [c[0]] + c[1..];
      } else {
        assert d == c + Coming(s);
        assert Numbers(t) == ShownOrTaken(s) + (c + Coming(s)) + [];
      }
    }
  }

  lemma {:induction false} PopNumbers(s: State, camera: bool)
    requires Shaped(s) && Shaped(Step(s, Pop, camera))
    ensures Numbers(Step(s, Pop, camera)) == Numbers(s)
  {
    hide After, Popped, Contents, NumbersOf;
    var t := Step(s, Pop, camera);
    PopIsFifo(s.queue);
    if s.render.RenderReady? && s.queue.count > 0 {
      var c := Contents(s.queue);
      NumbersTail(s.blockSeq, c);
      assert ShownOrTaken(t) == ShownOrTaken(s) + [s.blockSeq[c[0]]];
    }
  }

  lemma NumbersTail(blockSeq: seq<nat>, blocks: seq<nat>)
    requires blocks != [] && forall k :: 0 <= k < |blocks| ==> blocks[k] < |blockSeq|
    ensures NumbersOf(blockSeq, blocks) == [blockSeq[blocks[0]]] + NumbersOf(blockSeq, blocks[1..])
  {
  }

  lemma {:induction false} OrderKeeps(s: State, a: Action, camera: bool)
    requires Owned(s) && Ordered(s) && Shaped(Step(s, a, camera))
    ensures Ordered(Step(s, a, camera))
  {
    hide After, Contents, Pushed, Popped, NumbersOf, Numbers;
    var t := Step(s, a, camera);
    if a.Fill? {
      FillNumbers(s, camera);
      IncreasingAppend(Numbers(s), s.seqNo + 1);
    } else if a.Push? {
      PushNumbers(s, camera);
      if Numbers(t) != Numbers(s) {
        var c := NumbersOf(s.blockSeq, Contents(s.queue));
        IncreasingWithout(ShownOrTaken(s), c[0], c[1..] + Coming(s));
        assert forall n :: n in Numbers(t) ==> n in Numbers(s);
      }
    } else if a.Pop? {
      PopNumbers(s, camera);
    } else {
      OtherNumbers(s, a, camera);
    }
  }

  lemma {:induction false} OtherNumbers(s: State, a: Action, camera: bool)
    requires Shaped(s) && Shaped(Step(s, a, camera)) && !a.Fill? && !a.Push? && !a.Pop?
    ensures Numbers(Step(s, a, camera)) == Numbers(s) && Step(s, a, camera).seqNo == s.seqNo
  {
    hide After, Contents, Pushed, Popped, NumbersOf;
  }

  lemma {:induction false} StepKeeps(s: State, a: Action, camera: bool)
    requires Inv(s) && Guarded(s, a, camera)
    ensures Inv(Step(s, a, camera))
  {
    hide ZeroingFree, Ordered, Step, OwnersOf;
    ShapeKeeps(s, a, camera);
    OwnersKeep(s, a, camera);
    OrderKeeps(s, a, camera);
  }

  /** The state after a run: any interleaving of the two threads, a stop and a pool shutdown. */
  function Exec(blocks: nat, run: seq<Action>, camera: bool): (s: State)
    ensures Shaped(s)
  {
    if run == [] then Initial(blocks)
    else
      var s := Exec(blocks, run[..|run| - 1], camera);
      ShapeKeeps(s, run[|run| - 1], camera);
      Step(s, run[|run| - 1], camera)
  }

  /** No acquire of the run falls between the two steps of a release of the block it takes. */
  ghost predicate GuardedRun(blocks: nat, run: seq<Action>, camera: bool) {
    run == []
    || (GuardedRun(blocks, run[..|run| - 1], camera)
        && Guarded(Exec(blocks, run[..|run| - 1], camera), run[|run| - 1], camera))
  }

  lemma {:induction false} RunKeeps(blocks: nat, run: seq<Action>, camera: bool)
    requires GuardedRun(blocks, run, camera)
    ensures Inv(Exec(blocks, run, camera))
    ensures |Exec(blocks, run, camera).refs| == blocks
    decreases |run|
  {
    hide Inv, Guarded, Initial, Step, Shaped;
    if run == [] {
      InitialInv(blocks);
      InitialSize(blocks);
    } else {
      var front, a := run[..|run| - 1], run[|run| - 1];
      RunKeeps(blocks, front, camera);
      StepKeeps(Exec(blocks, front, camera), a, camera);
    }
  }

  lemma InitialSize(blocks: nat)
    ensures |Initial(blocks).refs| == blocks
  {
  }

  /** Free, waiting, captured and shown blocks partition the pool, and every block in use has one reference. */
  lemma {:induction false} PoolPartitioned(blocks: nat, run: seq<Action>, camera: bool)
    requires GuardedRun(blocks, run, camera)
    ensures
      var s := Exec(blocks, run, camera);
      && |s.refs| == blocks
      && forall b :: 0 <= b < blocks ==> s.refs[b] == OwnersOf(s, b) <= 1
  {
    hide OwnersOf, Ordered, Conserved, ZeroingFree, Exec;
    RunKeeps(blocks, run, camera);
  }

  /** Frames are shown in the order of capture, none twice. */
  lemma {:induction false} ShownInOrder(blocks: nat, run: seq<Action>, camera: bool)
    requires GuardedRun(blocks, run, camera)
    ensures Increasing(Exec(blocks, run, camera).delivered)
  {
    hide Owned, Conserved, ZeroingFree, Exec;
    RunKeeps(blocks, run, camera);
    var s := Exec(blocks, run, camera);
    assert forall k :: 0 <= k < |s.delivered| ==> s.delivered[k] == Numbers(s)[k];
  }

  /** Every captured frame is shown, dropped for want of a block, dropped from the queue, waiting, or in hand. */
  lemma {:induction false} FramesConserved(blocks: nat, run: seq<Action>, camera: bool)
    ensures
      var s := Exec(blocks, run, camera);
      s.captured == |s.delivered| + (if camera then s.dropPool else 0) + s.dropQueue + s.queue.count + InHand(s)
  {
    hide InHand;
    ConservedRun(blocks, run, camera);
  }

  /** Frames are numbered without gaps: the last number is the number of frames that got a block and were filled. */
  lemma {:induction false} FramesNumbered(blocks: nat, run: seq<Action>, camera: bool)
    ensures
      var s := Exec(blocks, run, camera);
      s.captured == s.seqNo + (if s.capture.Framed? || s.capture.Acquired? then 1 else 0)
                    + (if camera then s.dropPool else 0)
  {
    hide InHand, Exec;
    ConservedRun(blocks, run, camera);
  }

  lemma {:induction false} ConservedRun(blocks: nat, run: seq<Action>, camera: bool)
    ensures Conserved(Exec(blocks, run, camera), camera)
    decreases |run|
  {
    hide Step, Shaped;
    if run == [] {
      InitialConserved(blocks, camera);
    } else {
      var front := run[..|run| - 1];
      ConservedRun(blocks, front, camera);
      ConservedKeeps(Exec(blocks, front, camera), run[|run| - 1], camera);
    }
  }

  lemma InitialConserved(blocks: nat, camera: bool)
    ensures Conserved(Initial(blocks), camera)
  {
  }

  /** Numbers below `n`, none of them twice, are at most `n`. */
  lemma {:induction false} Pigeonhole(xs: seq<nat>, n: nat)
    requires forall k :: 0 <= k < |xs| ==> xs[k] < n
    requires forall j, k :: 0 <= j < k < |xs| ==> xs[j] != xs[k]
    ensures |xs| <= n
    decreases n
  {
    if xs != [] {
      var first := xs[0];
      if i :| 0 <= i < |xs| && xs[i] == n - 1 {
        Pigeonhole(xs[..i] + xs[i + 1..], n - 1);
      } else {
        Pigeonhole(xs, n - 1);
      }
    }
  }

  /** The waiting blocks and the one about to join them are different blocks of the pool. */
  lemma {:induction false} QueueFits(s: State)
    requires Owned(s) && s.capture.Filled?
    ensures s.queue.count + 1 <= |s.refs|
  {
    hide After;
    var c, b := Contents(s.queue), s.capture.block;
    forall k | 0 <= k < |c|
      ensures c[k] != b
    {
      assert c[k] in multiset(c) && s.refs[b] == OwnersOf(s, b) <= 1;
    }
    forall j, k | 0 <= j < k < |c|
      ensures c[j] != c[k]
    {
      assert s.refs[c[j]] == OwnersOf(s, c[j]) <= 1;
      TwiceIn(c, j, k);
    }
    Pigeonhole(c + [b], |s.refs|);
  }

  lemma {:induction false} TwiceIn(c: seq<nat>, j: nat, k: nat)
    requires j < k < |c|
    ensures c[j] == c[k] ==> multiset(c)[c[j]] >= 2
  {
    assert c == c[..k] + [c[k]] + c[k + 1..];
    assert c[j] in c[..k];
  }

  lemma {:induction false} StepNeverDrops(s: State, a: Action, camera: bool)
    requires Owned(s) && |s.refs| <= DEPTH && s.dropQueue == 0 && !s.capture.Dropping?
    ensures Step(s, a, camera).dropQueue == 0 && !Step(s, a, camera).capture.Dropping?
  {
    hide After, Contents, OwnersOf, Popped;
    if a.Push? && s.capture.Filled? {
      QueueFits(s);
      PushIsFifo(s.queue, s.capture.block);
    }
  }

  /** With at most as many blocks as the queue is deep, the queue never overflows. */
  lemma {:induction false} NeverDrops(blocks: nat, run: seq<Action>, camera: bool)
    requires blocks <= 8 && GuardedRun(blocks, run, camera)
    ensures Exec(blocks, run, camera).dropQueue == 0 && !Exec(blocks, run, camera).capture.Dropping?
    decreases |run|
  {
    hide Step, Shaped, Ordered, Conserved, ZeroingFree, Owned;
    if run == [] {
      InitialSize(blocks);
    } else {
      var front := run[..|run| - 1];
      NeverDrops(blocks, front, camera);
      RunKeeps(blocks, front, camera);
      StepNeverDrops(Exec(blocks, front, camera), run[|run| - 1], camera);
    }
  }

  /** `k` frames wait in the first `k` blocks, and the render thread has not run. */
  ghost predicate Backlog(s: State, blocks: nat, k: nat) {
    && Shaped(s) && |s.refs| == blocks
    && s.capture.CaptureTop? && s.render.RenderTop? && s.running && !s.poolShut
    && s.queue.count == k
    && (forall j :: 0 <= j < k ==> Contents(s.queue)[j] == j)
    && forall b :: 0 <= b < blocks ==> s.refs[b] == if b < k then 1 else 0
  }

  lemma {:induction false} ExecNext(blocks: nat, run: seq<Action>, a: Action, camera: bool)
    ensures Exec(blocks, run + [a], camera) == Step(Exec(blocks, run, camera), a, camera)
    ensures GuardedRun(blocks, run + [a], camera) <==>
              GuardedRun(blocks, run, camera) && Guarded(Exec(blocks, run, camera), a, camera)
  {
    assert (run + [a])[..|run|] == run;
  }

  /** The capture thread fills a free block, up to its push. */
  lemma {:induction false} FillNext(blocks: nat, run: seq<Action>, k: nat, camera: bool) returns (next: seq<Action>)
    requires
      var s := Exec(blocks, run, camera);
      && s.capture.CaptureTop? && s.running && !s.poolShut
      && k < |s.refs| && s.refs[k] == 0
    ensures GuardedRun(blocks, run, camera) && !Exec(blocks, run, camera).render.RenderZeroing? ==>
              GuardedRun(blocks, next, camera)
    ensures
      var s, t := Exec(blocks, run, camera), Exec(blocks, next, camera);
      && t.capture == Filled(k) && t.queue == s.queue && t.render == s.render
      && t.running && !t.poolShut && t.refs == s.refs[k := 1]
  {
    hide After, Contents, Exec, GuardedRun;
    next := run + [CaptureLoop];
    ExecNext(blocks, run, CaptureLoop, camera);
    if camera {
      ExecNext(blocks, next, FrameReady, camera);
      next := next + [FrameReady];
    }
    ExecNext(blocks, next, Acquire(k), camera);
    next := next + [Acquire(k)];
    ExecNext(blocks, next, Fill, camera);
    next := next + [Fill];
  }

  lemma {:induction false} FillQueue(blocks: nat, k: nat, camera: bool) returns (run: seq<Action>)
    requires k <= DEPTH && k <= blocks
    ensures GuardedRun(blocks, run, camera) && Backlog(Exec(blocks, run, camera), blocks, k)
    decreases k
  {
    hide After, Contents, Exec, GuardedRun;
    if k == 0 {
      run := [];
      EmptyRun(blocks, camera);
    } else {
      run := FillQueue(blocks, k - 1, camera);
      run := FillNext(blocks, run, k - 1, camera);
      ExecNext(blocks, run, Push, camera);
      PushIsFifo(Exec(blocks, run, camera).queue, k - 1);
      run := run + [Push];
    }
  }

  lemma EmptyRun(blocks: nat, camera: bool)
    ensures GuardedRun(blocks, [], camera) && Exec(blocks, [], camera) == Initial(blocks)
    ensures Backlog(Initial(blocks), blocks, 0)
  {
  }

  /** With one block more than the queue is deep, a backlog can reach the ninth push. */
  lemma {:induction false} DropsWithNine(blocks: nat, camera: bool) returns (run: seq<Action>)
    requires blocks > DEPTH
    ensures GuardedRun(blocks, run, camera) && Exec(blocks, run, camera).dropQueue > 0
  {
    hide After, Contents, Exec, GuardedRun;
    run := FillQueue(blocks, DEPTH, camera);
    run := FillNext(blocks, run, DEPTH, camera);
    ExecNext(blocks, run, Push, camera);
    PushIsFifo(Exec(blocks, run, camera).queue, DEPTH);
    run := run + [Push];
    ExecNext(blocks, run, DropOldest, camera);
    run := run + [DropOldest];
  }

  /** The queue never drops a frame exactly when the pool has at most eight blocks. */
  lemma {:induction false} ExactDepth(blocks: nat, camera: bool)
    ensures
      (forall run :: GuardedRun(blocks, run, camera) ==> Exec(blocks, run, camera).dropQueue == 0)
      <==> blocks <= 8
  {
    hide Exec, GuardedRun;
    if blocks <= DEPTH {
      forall run | GuardedRun(blocks, run, camera)
        ensures Exec(blocks, run, camera).dropQueue == 0
      {
        NeverDrops(blocks, run, camera);
      }
    } else {
      var run := DropsWithNine(blocks, camera);
    }
  }

  /**
   The gap in a release. While the render thread is between its two steps, an acquire that takes the same block
   loses it again to the store of zero; any other acquire is safe.
   */
  lemma {:induction false} ReleaseGap(s: State, b: nat, camera: bool)
    requires Inv(s) && s.render.RenderZeroing?
    requires Wanting(s, camera) && !s.poolShut && b < |s.refs| && s.refs[b] == 0
    ensures
      var t := Step(s, Acquire(b), camera);
      && Shaped(t)
      && (Owned(Step(t, RenderZero, camera)) <==> b != s.render.block)
  {
    hide After, Contents, InQueue, Ordered;
    var a := Acquire(b);
    var t := Step(s, a, camera);
    ShapeKeeps(s, a, camera);
    if b != s.render.block {
      OwnersKeep(s, a, camera);
      OwnersKeep(t, RenderZero, camera);
    } else {
      var u := Step(t, RenderZero, camera);
      assert u.refs[b] == 0 && CaptureOwns(u.capture, b);
    }
  }

  /** Every release of the render thread is done in one go. */
  ghost predicate OneStepReleases(run: seq<Action>) {
    forall n :: 0 <= n < |run| - 1 && run[n].RenderRelease? ==> run[n + 1].RenderZero?
  }

  /** With releases that are one step, every run is guarded. */
  lemma {:induction false} OneStepGuarded(blocks: nat, run: seq<Action>, camera: bool)
    requires OneStepReleases(run)
    ensures GuardedRun(blocks, run, camera)
    ensures Exec(blocks, run, camera).render.RenderZeroing? ==> run != [] && run[|run| - 1].RenderRelease?
    decreases |run|
  {
    hide Step, Exec, GuardedRun;
    if run == [] {
      EmptyRun(blocks, camera);
    } else {
      var last := |run| - 1;
      var front, a := run[..last], run[last];
      assert last > 0 && front[last - 1].RenderRelease? ==> a.RenderZero?;
      OneStepGuarded(blocks, front, camera);
      assert run == front + [a];
      ExecNext(blocks, front, a, camera);
      ZeroingStep(Exec(blocks, front, camera), a, camera);
    }
  }

  lemma ZeroingStep(s: State, a: Action, camera: bool)
    requires Shaped(s)
    ensures Step(s, a, camera).render.RenderZeroing? ==>
              a.RenderRelease? || (s.render.RenderZeroing? && !a.RenderZero?)
  {
    hide After, Contents, Pushed, Popped, Shaped;
  }

  /** A run is guarded exactly when ownership is never lost. */
  lemma {:induction false} GuardedExactly(blocks: nat, run: seq<Action>, camera: bool)
    ensures GuardedRun(blocks, run, camera) <==> OwnedAlways(blocks, run, camera)
    decreases |run|
  {
    hide Exec, Guarded, OwnedThroughout, OwnedAlways;
    if run == [] {
      GuardedOwned(blocks, run, camera);
      NeverBefore(blocks, camera);
    } else {
      var last := |run| - 1;
      var front, a := run[..last], run[last];
      assert run == front + [a];
      GuardedExactly(blocks, front, camera);
      OwnedAlwaysNext(blocks, front, a, camera);
      if GuardedRun(blocks, run, camera) {
        GuardedOwned(blocks, run, camera);
      } else if GuardedRun(blocks, front, camera) {
        GapLosesOwner(blocks, front, a, camera);
      }
    }
  }

  /** After every prefix of the run. */
  ghost predicate OwnedAlways(blocks: nat, run: seq<Action>, camera: bool) {
    forall n :: 0 <= n <= |run| ==> OwnedThroughout(Exec(blocks, run[..n], camera), camera)
  }

  lemma NeverBefore(blocks: nat, camera: bool)
    requires OwnedThroughout(Exec(blocks, [], camera), camera)
    ensures OwnedAlways(blocks, [], camera)
  {
    hide Exec, OwnedThroughout;
  }

  lemma {:induction false} OwnedAlwaysNext(blocks: nat, run: seq<Action>, a: Action, camera: bool)
    ensures
      OwnedAlways(blocks, run + [a], camera)
      <==> OwnedAlways(blocks, run, camera) && OwnedThroughout(Exec(blocks, run + [a], camera), camera)
  {
    hide Exec, OwnedThroughout;
    var next := run + [a];
    assert next[..|next|] == next;
    forall n | 0 <= n <= |run|
      ensures next[..n] == run[..n]
    {
    }
  }

  /** The blocks have their owners now and still have them when a half-done release is finished. */
  ghost predicate OwnedThroughout(s: State, camera: bool) {
    Owned(s) && Owned(Step(s, RenderZero, camera))
  }

  lemma {:induction false} GuardedOwned(blocks: nat, run: seq<Action>, camera: bool)
    requires GuardedRun(blocks, run, camera)
    ensures OwnedThroughout(Exec(blocks, run, camera), camera)
  {
    hide Exec, GuardedRun, OwnersOf, Step, ZeroingFree, Ordered;
    RunKeeps(blocks, run, camera);
    OwnersKeep(Exec(blocks, run, camera), RenderZero, camera);
  }

  lemma {:induction false} GapLosesOwner(blocks: nat, run: seq<Action>, a: Action, camera: bool)
    requires GuardedRun(blocks, run, camera) && !Guarded(Exec(blocks, run, camera), a, camera)
    ensures !OwnedThroughout(Exec(blocks, run + [a], camera), camera)
  {
    hide Exec, GuardedRun, OwnersOf;
    var s := Exec(blocks, run, camera);
    RunKeeps(blocks, run, camera);
    ExecNext(blocks, run, a, camera);
    assert s.refs[a.block] == OwnersOf(s, a.block) == 0;
    ReleaseGap(s, a.block, camera);
  }

  /** `k` entries wait, all of them block 0; its count is `r` and the other blocks are free. */
  ghost predicate Piled(s: State, blocks: nat, k: nat, r: int) {
    && Shaped(s)
    && s.capture.CaptureTop? && s.render.RenderTop? && s.running && !s.poolShut
    && s.queue.count == k
    && (forall j :: 0 <= j < k ==> Contents(s.queue)[j] == 0)
    && s.refs == seq(blocks, b => if b == 0 then r else 0)
  }

  /** The capture thread fills block 0 again and pushes it. */
  lemma {:induction false} PileUp(blocks: nat, run: seq<Action>, k: nat, camera: bool) returns (next: seq<Action>)
    requires 0 < blocks && k < DEPTH && Piled(Exec(blocks, run, camera), blocks, k, 0)
    ensures Piled(Exec(blocks, next, camera), blocks, k + 1, 1)
  {
    hide After, Contents, Exec;
    next := FillNext(blocks, run, 0, camera);
    PushIsFifo(Exec(blocks, next, camera).queue, 0);
    ExecNext(blocks, next, Push, camera);
    next := next + [Push];
  }

  /** The render thread shows block 0 and is half-way through its release. */
  lemma {:induction false} HalfRelease(blocks: nat, run: seq<Action>, k: nat, camera: bool) returns (next: seq<Action>)
    requires 0 < blocks && 0 < k && Piled(Exec(blocks, run, camera), blocks, k, 1)
    ensures
      var s, t := Exec(blocks, run, camera), Exec(blocks, next, camera);
      && t.render == RenderZeroing(0) && Piled(t.(render := RenderTop), blocks, k - 1, 0)
      && t.delivered == s.delivered + [s.blockSeq[0]] && t.blockSeq == s.blockSeq
  {
    hide After, Contents, Exec;
    PopIsFifo(Exec(blocks, run, camera).queue);
    ExecNext(blocks, run, RenderLoop, camera);
    next := run + [RenderLoop];
    ExecNext(blocks, next, Pop, camera);
    next := next + [Pop];
    ExecNext(blocks, next, Show, camera);
    next := next + [Show];
    ExecNext(blocks, next, RenderRelease, camera);
    next := next + [RenderRelease];
  }

  /** The capture thread acquires block 0 inside its release, which takes the new reference away. */
  lemma {:induction false} LoseReference(blocks: nat, run: seq<Action>, k: nat, camera: bool) returns (next: seq<Action>)
    requires 0 < blocks && 0 < k && Piled(Exec(blocks, run, camera), blocks, k, 1)
    ensures
      var t := Exec(blocks, next, camera);
      t.capture == Filled(0) && Piled(t.(capture := CaptureTop), blocks, k - 1, 0)
  {
    hide After, Contents, Exec;
    next := HalfRelease(blocks, run, k, camera);
    next := FillNext(blocks, next, 0, camera);
    ExecNext(blocks, next, RenderZero, camera);
    next := next + [RenderZero];
  }

  /** A pile of `k` entries, all of them a block that counts as free. */
  lemma {:induction false} FreePile(blocks: nat, k: nat, camera: bool) returns (run: seq<Action>)
    requires 0 < blocks && 0 < k <= DEPTH
    ensures Piled(Exec(blocks, run, camera), blocks, k, 0)
    decreases k
  {
    hide After, Contents, Exec;
    if k == 1 {
      run := FillQueue(blocks, 1, camera);
    } else {
      run := FreePile(blocks, k - 1, camera);
      run := PileUp(blocks, run, k - 1, camera);
    }
    run := LoseReference(blocks, run, k, camera);
    PushIsFifo(Exec(blocks, run, camera).queue, 0);
    ExecNext(blocks, run, Push, camera);
    run := run + [Push];
  }

  /** The gap is reachable with every pool and both ways of capture: a block ends without a reference while it is owned. */
  lemma {:induction false} GapReached(blocks: nat, camera: bool) returns (run: seq<Action>)
    requires 0 < blocks
    ensures !Owned(Exec(blocks, run, camera))
  {
    hide After, Contents, Exec;
    run := FillQueue(blocks, 1, camera);
    run := LoseReference(blocks, run, 1, camera);
    var s := Exec(blocks, run, camera);
    assert s.refs[0] == 0 && CaptureOwns(s.capture, 0);
  }

  /** Without the guard a block can be waiting twice, and a frame be shown twice. */
  lemma {:induction false} ShownTwice(blocks: nat, camera: bool) returns (run: seq<Action>)
    requires 0 < blocks
    ensures !Increasing(Exec(blocks, run, camera).delivered)
  {
    hide After, Contents, Exec;
    run := FreePile(blocks, 1, camera);
    run := PileUp(blocks, run, 1, camera);
    run := HalfRelease(blocks, run, 2, camera);
    ghost var n := |Exec(blocks, run, camera).delivered| - 1;
    ExecNext(blocks, run, RenderZero, camera);
    run := run + [RenderZero];
    ShowAgain(blocks, run, camera);
    run := run + [RenderLoop, Pop, Show];
    var d := Exec(blocks, run, camera).delivered;
    assert d[n] == d[n + 1];
  }

  /** Without the guard the queue overflows, however small the pool. */
  lemma {:induction false} DropsAnyway(blocks: nat, camera: bool) returns (run: seq<Action>)
    requires 0 < blocks
    ensures Exec(blocks, run, camera).dropQueue > 0
  {
    hide After, Contents, Exec;
    run := FreePile(blocks, DEPTH, camera);
    run := FillNext(blocks, run, 0, camera);
    PushIsFifo(Exec(blocks, run, camera).queue, 0);
    ExecNext(blocks, run, Push, camera);
    run := run + [Push];
    ExecNext(blocks, run, DropOldest, camera);
    run := run + [DropOldest];
  }

  lemma {:induction false} NoBlocks(run: seq<Action>, camera: bool)
    ensures GuardedRun(0, run, camera)
    decreases |run|
  {
    hide Exec;
    if run != [] {
      NoBlocks(run[..|run| - 1], camera);
      RunKeeps(0, run[..|run| - 1], camera);
    }
  }

  /** Over all runs, guarded or not, ownership, order and depth hold only of a pool without blocks. */
  lemma {:induction false} GuardNeeded(blocks: nat, camera: bool)
    ensures (forall run :: Owned(Exec(blocks, run, camera))) <==> blocks == 0
    ensures (forall run :: Increasing(Exec(blocks, run, camera).delivered)) <==> blocks == 0
    ensures (forall run :: Exec(blocks, run, camera).dropQueue == 0) <==> blocks == 0
  {
    hide Exec, GuardedRun, Owned, Increasing, Inv;
    if blocks == 0 {
      forall run
        ensures Owned(Exec(blocks, run, camera)) && Increasing(Exec(blocks, run, camera).delivered)
        ensures Exec(blocks, run, camera).dropQueue == 0
      {
        NoBlocks(run, camera);
        GuardedOwned(blocks, run, camera);
        ShownInOrder(blocks, run, camera);
        NeverDrops(blocks, run, camera);
      }
    } else {
      var a := GapReached(blocks, camera);
      var b := ShownTwice(blocks, camera);
      var c := DropsAnyway(blocks, camera);
    }
  }

  lemma {:induction false} ShowAgain(blocks: nat, run: seq<Action>, camera: bool)
    requires 0 < blocks && Piled(Exec(blocks, run, camera), blocks, 1, 0)
    ensures
      var s, t := Exec(blocks, run, camera), Exec(blocks, run + [RenderLoop, Pop, Show], camera);
      t.delivered == s.delivered + [s.blockSeq[0]]
  {
    hide After, Contents, Exec;
    PopIsFifo(Exec(blocks, run, camera).queue);
    ExecNext(blocks, run, RenderLoop, camera);
    ExecNext(blocks, run + [RenderLoop], Pop, camera);
    ExecNext(blocks, run + [RenderLoop] + [Pop], Show, camera);
    assert run + [RenderLoop] + [Pop] + [Show] == run + [RenderLoop, Pop, Show];
  }

  /** Both threads have left their loops. */
  predicate Joined(s: State) {
    !s.running && s.capture.CaptureTop? && s.render.RenderTop?
  }

  /** After a stop no thread begins another round. */
  lemma {:induction false} StopHolds(blocks: nat, run: seq<Action>, camera: bool)
    requires Stop in run
    ensures
      var s := Exec(blocks, run, camera);
      && !s.running
      && Step(s, CaptureLoop, camera) == s && Step(s, RenderLoop, camera) == s
    decreases |run|
  {
    hide Exec, Pushed, Popped, Shaped;
    var front, a := run[..|run| - 1], run[|run| - 1];
    assert run == front + [a];
    ExecNext(blocks, front, a, camera);
    if a != Stop {
      StopHolds(blocks, front, camera);
    }
  }

  /** After the pool is shut down no block is acquired. */
  lemma {:induction false} ShutdownHolds(blocks: nat, run: seq<Action>, camera: bool, b: nat)
    requires ShutdownPool in run
    ensures
      var s := Exec(blocks, run, camera);
      s.poolShut && Step(s, Acquire(b), camera) == s
    decreases |run|
  {
    hide Exec, Pushed, Popped, Shaped;
    var front, a := run[..|run| - 1], run[|run| - 1];
    assert run == front + [a];
    ExecNext(blocks, front, a, camera);
    if a != ShutdownPool {
      ShutdownHolds(blocks, front, camera, b);
    }
  }

  /** The steps that bring the capture thread back to the top of its loop, wherever it is. */
  function CaptureRest(): seq<Action> {
    [PollTimeout, AcquireFails, Fill, Push, DropOldest, CaptureZero]
  }

  function RenderRest(): seq<Action> {
    [Pop, Show, RenderRelease, RenderZero]
  }

  /** Every run can be continued by a stop until both threads have ended, and then the drain frees every block. */
  lemma {:induction false} StopReached(blocks: nat, run: seq<Action>, camera: bool) returns (more: seq<Action>)
    ensures
      var s := Exec(blocks, run + more, camera);
      && Joined(s)
      && Drained(s.refs, s.queue.slots) == seq(blocks, _ => 0)
  {
    hide Exec, Drained, Shaped;
    var stopped := run + [Stop];
    ExecNext(blocks, run, Stop, camera);
    CaptureEnds(blocks, stopped, camera);
    RenderEnds(blocks, stopped + CaptureRest(), camera);
    more := [Stop] + CaptureRest() + RenderRest();
    assert run + more == stopped + CaptureRest() + RenderRest();
    StopFreesAll(blocks, run + more, camera);
  }

  lemma {:induction false} CaptureEnds(blocks: nat, run: seq<Action>, camera: bool)
    ensures
      var s, t := Exec(blocks, run, camera), Exec(blocks, run + CaptureRest(), camera);
      t.capture.CaptureTop? && t.render == s.render && t.running == s.running
  {
    hide Exec, Shaped, Step;
    FrameFilled(blocks, run, camera);
    FramePushed(blocks, run + [PollTimeout, AcquireFails, Fill], camera);
    assert run + [PollTimeout, AcquireFails, Fill] + [Push, DropOldest, CaptureZero] == run + CaptureRest();
  }

  lemma {:induction false} FrameFilled(blocks: nat, run: seq<Action>, camera: bool)
    ensures
      var s, t := Exec(blocks, run, camera), Exec(blocks, run + [PollTimeout, AcquireFails, Fill], camera);
      && !t.capture.CaptureReady? && !t.capture.Framed? && !t.capture.Acquired?
      && t.render == s.render && t.running == s.running
  {
    hide After, Contents, Exec, Shaped, Conserved, Pushed, Popped;
    ConservedRun(blocks, run, camera);
    FramedByCamera(Exec(blocks, run, camera), camera);
    ExecNext(blocks, run, PollTimeout, camera);
    ExecNext(blocks, run + [PollTimeout], AcquireFails, camera);
    ExecNext(blocks, run + [PollTimeout] + [AcquireFails], Fill, camera);
    assert run + [PollTimeout] + [AcquireFails] + [Fill] == run + [PollTimeout, AcquireFails, Fill];
  }

  lemma {:induction false} FramePushed(blocks: nat, run: seq<Action>, camera: bool)
    requires
      var c := Exec(blocks, run, camera).capture;
      !c.CaptureReady? && !c.Framed? && !c.Acquired?
    ensures
      var s, t := Exec(blocks, run, camera), Exec(blocks, run + [Push, DropOldest, CaptureZero], camera);
      t.capture.CaptureTop? && t.render == s.render && t.running == s.running
  {
    hide After, Contents, Exec, Shaped, Conserved, Pushed, Popped;
    ExecNext(blocks, run, Push, camera);
    ExecNext(blocks, run + [Push], DropOldest, camera);
    ExecNext(blocks, run + [Push] + [DropOldest], CaptureZero, camera);
    assert run + [Push] + [DropOldest] + [CaptureZero] == run + [Push, DropOldest, CaptureZero];
  }

  lemma FramedByCamera(s: State, camera: bool)
    requires Conserved(s, camera)
    ensures s.capture.Framed? ==> camera
  {
  }

  lemma {:induction false} RenderEnds(blocks: nat, run: seq<Action>, camera: bool)
    ensures
      var s, t := Exec(blocks, run, camera), Exec(blocks, run + RenderRest(), camera);
      t.render.RenderTop? && t.capture == s.capture && t.running == s.running
  {
    hide After, Contents, Exec, Shaped, Pushed, Popped;
    ExecNext(blocks, run, Pop, camera);
    var r1 := run + [Pop];
    ExecNext(blocks, r1, Show, camera);
    var r2 := r1 + [Show];
    ExecNext(blocks, r2, RenderRelease, camera);
    var r3 := r2 + [RenderRelease];
    ExecNext(blocks, r3, RenderZero, camera);
    assert r3 + [RenderZero] == run + RenderRest();
  }

  /** The drain of a stop: one release for every slot that holds a block, current or stale. */
  function Drained(refs: seq<int>, slots: seq<Option<nat>>): (after: seq<int>)
    requires forall k :: 0 <= k < |slots| && slots[k].Some? ==> slots[k].value < |refs|
    ensures |after| == |refs|
  {
    if slots == [] then refs
    else
      var n := |slots| - 1;
      var before := Drained(refs, slots[..n]);
      if slots[n].Some? then Released(before, slots[n].value) else before
  }

  lemma {:induction false} DrainedCount(refs: seq<int>, slots: seq<Option<nat>>, b: nat)
    requires forall k :: 0 <= k < |slots| && slots[k].Some? ==> slots[k].value < |refs|
    requires b < |refs| && 0 <= refs[b] <= 1
    ensures Drained(refs, slots)[b] == if Some(b) in slots then 0 else refs[b]
    decreases |slots|
  {
    if slots != [] {
      var n := |slots| - 1;
      DrainedCount(refs, slots[..n], b);
      assert slots == slots[..n] + [slots[n]];
    }
  }

  /**
   What is left of ownership when acquires do fall into releases: a count is never above one, one means an owner,
   and a count below zero is about to be set to zero.
   */
  ghost predicate Loose(s: State) {
    && Shaped(s)
    && forall b :: 0 <= b < |s.refs| ==> LooseAt(s, b)
  }

  ghost predicate LooseAt(s: State, b: nat)
    requires Shaped(s) && b < |s.refs|
  {
    && s.refs[b] <= 1
    && (s.refs[b] == 1 ==> OwnersOf(s, b) >= 1)
    && (s.refs[b] < 0 ==> s.capture == CaptureZeroing(b) || s.render == RenderZeroing(b))
  }

  lemma {:induction false} LooseKeepsAt(s: State, a: Action, camera: bool, b: nat)
    requires Loose(s) && Shaped(Step(s, a, camera)) && b < |s.refs|
    ensures LooseAt(Step(s, a, camera), b)
  {
    hide After, InQueue, Pushed, Popped;
    assert LooseAt(s, b);
    if a.Push? || a.Pop? {
      QueueKeepsOwners(s, a, camera, b);
    } else if a.DropOldest? && s.capture.Dropping? {
      assert LooseAt(s, s.capture.block);
    } else if a.RenderRelease? && s.render.Shown? {
      assert LooseAt(s, s.render.block);
    }
  }

  lemma {:induction false} LooseRun(blocks: nat, run: seq<Action>, camera: bool)
    ensures Loose(Exec(blocks, run, camera)) && |Exec(blocks, run, camera).refs| == blocks
    decreases |run|
  {
    hide Step, Shaped, LooseAt;
    if run == [] {
      InitialLoose(blocks);
    } else {
      var s, a := Exec(blocks, run[..|run| - 1], camera), run[|run| - 1];
      LooseRun(blocks, run[..|run| - 1], camera);
      ShapeKeeps(s, a, camera);
      forall b | 0 <= b < |s.refs|
        ensures LooseAt(Step(s, a, camera), b)
      {
        LooseKeepsAt(s, a, camera, b);
      }
    }
  }

  lemma InitialLoose(blocks: nat)
    ensures Loose(Initial(blocks)) && |Initial(blocks).refs| == blocks
  {
  }

  /**
   After a stop every block of the pool is free, in every run: stale and repeated slots notwithstanding, and the
   counts that an acquire inside a release has broken are repaired.
   */
  lemma {:induction false} StopFreesAll(blocks: nat, run: seq<Action>, camera: bool)
    requires Joined(Exec(blocks, run, camera))
    ensures
      var s := Exec(blocks, run, camera);
      Drained(s.refs, s.queue.slots) == seq(blocks, _ => 0)
  {
    hide After, Contents, Exec, Drained;
    LooseRun(blocks, run, camera);
    var s := Exec(blocks, run, camera);
    forall b | 0 <= b < blocks
      ensures Drained(s.refs, s.queue.slots)[b] == 0
    {
      assert LooseAt(s, b);
      DrainedCount(s.refs, s.queue.slots, b);
      if s.refs[b] == 1 {
        assert b in multiset(Contents(s.queue));
        ContentsInSlots(s.queue, b);
      }
    }
  }

  /** The drain loop. */
  method Drain(pool: Pool, queue: CircularQueue)
    requires pool.Valid() && queue.slots.Length == DEPTH
    requires forall k :: 0 <= k < DEPTH && queue.slots[k].Some? ==> queue.slots[k].value < pool.refs.Length
    modifies pool.refs, queue.slots
    ensures pool.refs[..] == Drained(old(pool.refs[..]), old(queue.slots[..]))
    ensures forall k :: 0 <= k < DEPTH ==> queue.slots[k] == None
  {
    ghost var refs, slots := pool.refs[..], queue.slots[..];
    var i := 0;
    while i < DEPTH
      invariant i <= DEPTH
      invariant pool.refs[..] == Drained(refs, slots[..i])
      invariant forall k :: 0 <= k < i ==> queue.slots[k] == None
      invariant forall k :: i <= k < DEPTH ==> queue.slots[k] == slots[k]
    {
      assert slots[..i + 1][..i] == slots[..i];
      if queue.slots[i].Some? {
        pool.Release(queue.slots[i].value);
        queue.slots[i] := None;
      }
      i := i + 1;
    }
    assert slots[..DEPTH] == slots;
  }
}
