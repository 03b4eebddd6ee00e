/** What the threads of the sample stream achieve when they are left alone: nothing in the model is stuck. */
module StreamProgress {
  import opened Bits
  import opened Protocol
  import opened SampleCodec
  import opened SampleStream
  import Spsc = RingSpsc

  function Steps(s: State, acts: seq<Action>): (t: State)
    requires |s.ring.data| > 0
    ensures |t.ring.data| > 0
  {
    if acts == [] then s else Step(Steps(s, acts[..|acts| - 1]), acts[|acts| - 1])
  }

  lemma {:induction false} StepsKeep(s: State, order: nat, acts: seq<Action>)
    requires RingInv(s, order) && HistoryInv(s)
    ensures RingInv(Steps(s, acts), order) && HistoryInv(Steps(s, acts))
    decreases |acts|
  {
    hide RingInv, HistoryInv, Step;
    if acts != [] {
      RingThere(s, order);
      StepsKeep(s, order, acts[..|acts| - 1]);
      StepKeeps(Steps(s, acts[..|acts| - 1]), order, acts[|acts| - 1]);
    }
  }

  lemma RingThere(s: State, order: nat)
    requires RingInv(s, order)
    ensures |s.ring.data| > 0
  {
  }

  lemma {:induction false} StepsNext(s: State, acts: seq<Action>, a: Action)
    requires |s.ring.data| > 0
    ensures Steps(s, acts + [a]) == Step(Steps(s, acts), a)
  {
    assert (acts + [a])[..|acts|] == acts;
  }

  /** Copying bytes moves only the ring. */
  lemma {:induction false} CopiesOut(s: State, acts: seq<Action>, n: nat)
    requires |s.ring.data| > 0
    ensures
      var t := Steps(s, acts);
      Steps(s, acts + seq(n, _ => CopyOut)) == t.(ring := Spsc.Steps(t.ring, seq(n, _ => Spsc.CopyOut)))
    decreases n
  {
    hide Spsc.Step, Spsc.Steps, Step, Steps;
    Spsc.StepsRepeat(Steps(s, acts).ring, Spsc.CopyOut, n);
    if n == 0 {
      assert acts + seq(n, _ => CopyOut) == acts;
    } else {
      CopiesOut(s, acts, n - 1);
      assert acts + seq(n, _ => CopyOut) == acts + seq(n - 1, _ => CopyOut) + [CopyOut];
      StepsNext(s, acts + seq(n - 1, _ => CopyOut), CopyOut);
      OneCopyOut(Steps(s, acts + seq(n - 1, _ => CopyOut)));
    }
  }

  lemma {:induction false} CopiesIn(s: State, acts: seq<Action>, n: nat)
    requires |s.ring.data| > 0 && Steps(s, acts).sampler.Writing?
    ensures
      var t := Steps(s, acts);
      Steps(s, acts + seq(n, _ => CopyIn)) == t.(ring := Spsc.Steps(t.ring, seq(n, _ => Spsc.CopyIn)))
    decreases n
  {
    hide Spsc.Step, Spsc.Steps, Step, Steps;
    Spsc.StepsRepeat(Steps(s, acts).ring, Spsc.CopyIn, n);
    if n == 0 {
      assert acts + seq(n, _ => CopyIn) == acts;
    } else {
      CopiesIn(s, acts, n - 1);
      assert acts + seq(n, _ => CopyIn) == acts + seq(n - 1, _ => CopyIn) + [CopyIn];
      StepsNext(s, acts + seq(n - 1, _ => CopyIn), CopyIn);
      OneCopyIn(Steps(s, acts + seq(n - 1, _ => CopyIn)));
    }
  }

  lemma OneCopyOut(s: State)
    requires |s.ring.data| > 0
    ensures Step(s, CopyOut) == s.(ring := Spsc.Step(s.ring, Spsc.CopyOut))
  {
  }

  lemma OneCopyIn(s: State)
    requires |s.ring.data| > 0 && s.sampler.Writing?
    ensures Step(s, CopyIn) == s.(ring := Spsc.Step(s.ring, Spsc.CopyIn))
  {
  }

  function CaptureSteps(max: nat, bytes: nat): seq<Action> {
    [BeginCapture(max), BeginRead] + seq(bytes, _ => CopyOut) + [EndRead] + [EndCapture]
  }

  function BatchSteps(bytes: nat): seq<Action> {
    [BeginWrite] + seq(bytes, _ => CopyIn) + [EndWrite]
  }

  /** A capture that is not interrupted returns as many samples as it asks for and there are, oldest first. */
  lemma {:induction false} CaptureCompletes(s: State, order: nat, max: nat)
    requires RingInv(s, order) && HistoryInv(s) && s.reader.Outside?
    ensures |s.ring.data| > 0 && |s.returned| <= |s.accepted|
    ensures
      var n := Min(max, |s.accepted| - |s.returned|);
      var t := Steps(s, CaptureSteps(max, SIZE * n));
      t.returned == s.accepted[..|s.returned| + n] && t.accepted == s.accepted && t.reader.Outside?
  {
    hide RingInv, HistoryInv, EncodeAll, DecodeAll, Spsc.Inv, Spsc.Step, Spsc.Steps, Spsc.ReadSteps, Step;
    Unread(s, order);
    var n := Min(max, |s.accepted| - |s.returned|);
    MinWhole(max, |s.accepted| - |s.returned|);
    var outs := seq(SIZE * n, _ => CopyOut);
    var head := [BeginCapture(max), BeginRead];
    CaptureBegins(s, max);
    CopiesOut(s, head, SIZE * n);
    Spsc.ReadMiddle(s.ring, order, SIZE * max);
    Spsc.ReadCompletes(s.ring, order, SIZE * max);
    StepsNext(s, head + outs, EndRead);
    StepsNext(s, head + outs + [EndRead], EndCapture);
    StepsKeep(s, order, CaptureSteps(max, SIZE * n));
    CaptureEnds(Steps(s, head + outs));
    Returned(s, Steps(s, CaptureSteps(max, SIZE * n)), order, n);
  }

  lemma {:induction false} CaptureBegins(s: State, max: nat)
    requires |s.ring.data| > 0 && s.reader.Outside?
    ensures Steps(s, [BeginCapture(max), BeginRead])
         == s.(reader := Capturing(max, 0), ring := Spsc.Step(s.ring, Spsc.StartRead(SIZE * max)))
  {
    hide Spsc.DataSeen;
    assert [BeginCapture(max), BeginRead] == [BeginCapture(max)] + [BeginRead];
    assert [BeginCapture(max)] == [] + [BeginCapture(max)];
    StepsNext(s, [], BeginCapture(max));
    StepsNext(s, [BeginCapture(max)], BeginRead);
  }

  /** What is copied out is published and returned, and the capture is over. */
  lemma {:induction false} CaptureEnds(s: State)
    requires |s.ring.data| > 0 && s.reader.Capturing?
    requires
      var c := s.ring.consumer;
      c.Waiting? || |c.dst| == c.count
    ensures
      var t := Step(Step(s, EndRead), EndCapture);
      t.ring == Spsc.Step(s.ring, Spsc.PublishRead) && t.accepted == s.accepted && t.reader.Outside?
  {
    hide DecodeAll, Spsc.Inv;
  }

  lemma {:induction false} Unread(s: State, order: nat)
    requires RingInv(s, order)
    ensures |s.ring.data| > 0 && Spsc.Inv(s.ring, order)
    ensures |s.returned| <= |s.accepted|
    ensures |s.ring.published| == SIZE * |s.accepted| && |s.ring.consumed| == SIZE * |s.returned|
    ensures s.reader.Outside? ==> s.ring.consumer.Waiting?
    ensures s.sampler.Filling? ==> s.ring.producer.Resting?
  {
    hide EncodeAll, Spsc.Inv;
    UnreadIsWhole(s, order);
  }

  /** The consumed bytes tell what was returned. */
  lemma {:induction false} Returned(s: State, t: State, order: nat, n: nat)
    requires RingInv(s, order) && RingInv(t, order) && t.accepted == s.accepted
    requires |s.returned| + n <= |s.accepted|
    requires |s.ring.consumed| + SIZE * n <= |s.ring.published|
    requires t.ring.consumed == s.ring.published[..|s.ring.consumed| + SIZE * n]
    ensures t.returned == s.accepted[..|s.returned| + n]
  {
    hide EncodeAll, DecodeAll, Spsc.Inv;
    var k := |s.returned| + n;
    assert |s.ring.consumed| + SIZE * n == SIZE * k;
    EncodePrefix(s.accepted, SIZE * k);
    EncodedPrefix(t.returned, s.accepted[..k]);
    EncodedPrefix(s.accepted[..k], t.returned);
  }

  /** How many samples the ring has room for. */
  function Room(s: State): int {
    |s.ring.data| / SIZE - (|s.accepted| - |s.returned|)
  }

  /** A full batch that is written without interruption is accepted as far as there is room. */
  lemma {:induction false} BatchCompletes(s: State, order: nat)
    requires RingInv(s, order) && HistoryInv(s) && s.sampler.Filling? && |s.batch| == s.sampler.target
    ensures |s.ring.data| > 0 && 0 <= Room(s)
    ensures
      var n := Min(|s.batch|, Room(s));
      var t := Steps(s, BatchSteps(SIZE * n));
      t.accepted == s.accepted + s.batch[..n] && t.lost == s.lost + |s.batch| - n && t.sampler.Idle?
  {
    hide RingInv, HistoryInv, EncodeAll, Spsc.Inv, Spsc.Step, Spsc.Steps, Step;
    Unread(s, order);
    RoomInBytes(s, order);
    var src, n := EncodeAll(s.batch), Min(|s.batch|, Room(s));
    MinWhole(|s.batch|, Room(s));
    var ins := seq(SIZE * n, _ => CopyIn);
    Spsc.WriteMiddle(s.ring, order, src);
    StepsNext(s, [], BeginWrite);
    assert [] + [BeginWrite] == [BeginWrite];
    BatchBegins(s);
    if n > 0 {
      CopiesIn(s, [BeginWrite], SIZE * n);
    } else {
      assert [BeginWrite] + ins == [BeginWrite];
    }
    StepsNext(s, [BeginWrite] + ins, EndWrite);
    BatchEnds(Steps(s, [BeginWrite] + ins), n);
  }

  lemma {:induction false} RoomInBytes(s: State, order: nat)
    requires RingInv(s, order)
    ensures Spsc.Free(s.ring) == SIZE * Room(s) >= 0
  {
    hide EncodeAll;
    CapacityWhole(order);
    UnreadIsWhole(s, order);
  }

  lemma {:induction false} BatchBegins(s: State)
    requires |s.ring.data| > 0 && s.sampler.Filling? && |s.batch| == s.sampler.target
    ensures
      var ring := Spsc.Step(s.ring, Spsc.StartWrite(EncodeAll(s.batch)));
      var t := Step(s, BeginWrite);
      if ring.producer.Copying? then
        t == s.(ring := ring, sampler := Writing(s.sampler.startNs, s.sampler.periodNs))
      else
        t.accepted == s.accepted && t.lost == s.lost + |s.batch| && t.sampler.Idle?
  {
    hide EncodeAll, Spsc.Step;
    assert s.accepted + s.batch[..0] == s.accepted;
  }

  lemma {:induction false} BatchEnds(s: State, n: nat)
    requires |s.ring.data| > 0
    requires s.sampler.Writing? ==>
               && n <= |s.batch| && s.ring.producer.Copying?
               && s.ring.producer.done == s.ring.producer.count == SIZE * n
    requires !s.sampler.Filling?
    ensures
      var t := Step(s, EndWrite);
      if s.sampler.Idle? then t == s
      else t.accepted == s.accepted + s.batch[..n] && t.lost == s.lost + |s.batch| - n && t.sampler.Idle?
  {
    hide EncodeAll, Spsc.Step;
  }
}
