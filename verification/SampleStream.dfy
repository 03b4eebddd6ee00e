/**
 The sampler and the consumer running together over the shared ring, in the ring's own small steps,
 with the trigger being set or re-armed at any moment, in the gate's own small steps.
 A consumer call is a capture: reads of what is still wanted until it is there or the deadline passes;
 a plain read of samples is a capture that ends after one read.
 */
module SampleStream {
  import opened Bits
  import opened Options
  import opened Protocol
  import opened RingIndex
  import opened SampleCodec
  import opened TriggerGate
  import LogicAnalyzer
  import Spsc = RingSpsc
  import Gate = SamplerGate

  datatype Sampler =
    | Idle
    | Filling(startNs: uint64, periodNs: uint64, target: nat)
    | Writing(startNs: uint64, periodNs: uint64)

  datatype Reader = Outside | Capturing(max: nat, got: nat)

  /** A finished batch, how many of its samples, the first ones, the ring took, and the clock of the batch. */
  datatype Flush = Flush(batch: seq<Sample>, kept: nat, startNs: uint64, periodNs: uint64)

  /** The analyzer, both threads' local state, and the history of the run. */
  datatype State = State(
    ring: Spsc.State, gate: Gate.State, sampler: Sampler, batch: seq<Sample>, reader: Reader,
    total: uint64, dropped: uint64,
    discarded: nat, lost: nat, flushes: seq<Flush>,
    accepted: seq<Sample>, returned: seq<Sample>)

  datatype Action =
    | BeginBatch(startNs: uint64, periodNs: uint64, target: nat)
    | LoadOne(raw: byte)
    | TestOne
    | StoreZero
    | TakeOne
    | BeginWrite
    | CopyIn
    | EndWrite
    | BeginCapture(max: nat)
    | BeginRead
    | CopyOut
    | EndRead
    | EndCapture
    | WriteTrigger(trigger: Trigger)
    | StoreArmed(armed: bool)

  function Initial(order: nat): State {
    State(Spsc.Initial(order), Gate.INITIAL, Idle, [], Outside, 0, 0, 0, 0, [], [], [])
  }

  /** The end of one round of the inner loop: the value joins the batch, stamped, or is discarded. */
  function Taken(s: State): State
    requires s.sampler.Filling? && s.gate.phase.Decided?
  {
    var x := Sample(LogicAnalyzer.StampTime(s.sampler.startNs, s.sampler.periodNs, |s.batch|), s.gate.phase.raw);
    s.(gate := Gate.Step(s.gate, Gate.Take),
       batch := if s.gate.phase.keep then s.batch + [x] else s.batch,
       discarded := if s.gate.phase.keep then s.discarded else s.discarded + 1,
       total := Advance(s.total, 1))
  }

  /** The end of a batch of which `bytes` bytes were written. */
  function Flushed(s: State, bytes: nat): State
    requires bytes <= SIZE * |s.batch| && !s.sampler.Idle?
  {
    var kept, dropped := bytes / SIZE, (SIZE * |s.batch| - bytes) / SIZE;
    s.(sampler := Idle, batch := [],
       dropped := Advance(s.dropped, dropped),
       lost := s.lost + (|s.batch| - kept),
       flushes := s.flushes + [Flush(s.batch, kept, s.sampler.startNs, s.sampler.periodNs)],
       accepted := s.accepted + s.batch[..kept])
  }

  /** One step; a step that is not enabled changes nothing. */
  function Step(s: State, a: Action): (t: State)
    requires |s.ring.data| > 0
    ensures |t.ring.data| == |s.ring.data|
  {
    match a
    case BeginBatch(startNs, periodNs, target) =>
      if s.sampler.Idle? && target > 0 then s.(sampler := Filling(startNs, periodNs, target)) else s
    case LoadOne(raw) =>
      if s.sampler.Filling? && |s.batch| < s.sampler.target then s.(gate := Gate.Step(s.gate, Gate.Load(raw))) else s
    case TestOne =>
      s.(gate := Gate.Step(s.gate, Gate.Test))
    case StoreZero =>
      s.(gate := Gate.Step(s.gate, Gate.StoreZero))
    case TakeOne =>
      if s.sampler.Filling? && s.gate.phase.Decided? then Taken(s) else s
    case BeginWrite =>
      if s.sampler.Filling? && |s.batch| == s.sampler.target then
        var ring := Spsc.Step(s.ring, Spsc.StartWrite(EncodeAll(s.batch)));
        if ring.producer.Copying? then s.(ring := ring, sampler := Writing(s.sampler.startNs, s.sampler.periodNs))
        else Flushed(s, 0)
      else s
    case CopyIn =>
      if s.sampler.Writing? then s.(ring := Spsc.Step(s.ring, Spsc.CopyIn)) else s
    case EndWrite =>
      var p := s.ring.producer;
      if s.sampler.Writing? && p.Copying? && p.done == p.count <= SIZE * |s.batch| then
        Flushed(s, p.count).(ring := Spsc.Step(s.ring, Spsc.PublishWrite))
      else s
    case BeginCapture(max) =>
      if s.reader.Outside? then s.(reader := Capturing(max, 0)) else s
    case BeginRead =>
      if s.reader.Capturing? && s.reader.got < s.reader.max then
        s.(ring := Spsc.Step(s.ring, Spsc.StartRead(SIZE * (s.reader.max - s.reader.got))))
      else s
    case CopyOut =>
      s.(ring := Spsc.Step(s.ring, Spsc.CopyOut))
    case EndRead =>
      var c := s.ring.consumer;
      if s.reader.Capturing? && c.Taking? && |c.dst| == c.count then
        s.(ring := Spsc.Step(s.ring, Spsc.PublishRead),
           returned := s.returned + DecodeAll(c.dst),
           reader := s.reader.(got := s.reader.got + c.count / SIZE))
      else s
    case EndCapture =>
      if s.ring.consumer.Waiting? then s.(reader := Outside) else s
    case WriteTrigger(trigger) =>
      s.(gate := Gate.Step(s.gate, Gate.WriteTrigger(trigger)))
    case StoreArmed(armed) =>
      s.(gate := Gate.Step(s.gate, Gate.StoreArmed(armed)))
  }

  /** The ring holds whole samples: published and consumed bytes are images, and every transfer is of whole images. */
  ghost predicate RingInv(s: State, order: nat) {
    && 4 <= order <= 63
    && Spsc.Inv(s.ring, order) && |s.ring.data| > 0
    && s.ring.published == EncodeAll(s.accepted)
    && s.ring.consumed == EncodeAll(s.returned)
    && (s.sampler.Writing? <==> s.ring.producer.Copying?)
    && (s.sampler.Writing? ==> s.ring.producer.src == EncodeAll(s.batch) && s.ring.producer.count % SIZE == 0)
    && (s.sampler.Idle? ==> s.batch == [])
    && (s.sampler.Filling? ==> |s.batch| <= s.sampler.target)
    && (!s.gate.phase.Between? ==> s.sampler.Filling? && |s.batch| < s.sampler.target)
    && (s.reader.Capturing? ==> s.reader.got <= s.reader.max)
    && (s.ring.consumer.Taking? ==>
          && s.ring.consumer.count % SIZE == 0
          && s.reader.Capturing? && s.ring.consumer.count <= SIZE * (s.reader.max - s.reader.got))
  }

  function Channels(ss: seq<Sample>): (cs: seq<byte>)
    ensures |cs| == |ss|
    ensures forall k :: 0 <= k < |cs| ==> cs[k] == ss[k].channels
  {
    seq(|ss|, k requires 0 <= k < |ss| => ss[k].channels)
  }

  /** All samples of the finished batches. */
  function Offered(fs: seq<Flush>): seq<Sample> {
    if fs == [] then [] else Offered(fs[..|fs| - 1]) + fs[|fs| - 1].batch
  }

  /** The samples the ring took, batch by batch. */
  function Stored(fs: seq<Flush>): seq<Sample>
    requires forall k :: 0 <= k < |fs| ==> fs[k].kept <= |fs[k].batch|
  {
    if fs == [] then [] else Stored(fs[..|fs| - 1]) + fs[|fs| - 1].batch[..fs[|fs| - 1].kept]
  }

  /** The gate, the counters and the samples agree with the history. */
  ghost predicate HistoryInv(s: State) {
    && Gate.Tracked(s.gate)
    && (forall k :: 0 <= k < |s.flushes| ==> s.flushes[k].kept <= |s.flushes[k].batch|)
    && s.accepted == Stored(s.flushes)
    && s.gate.passed == Channels(Offered(s.flushes) + s.batch)
    && |Offered(s.flushes)| == |s.accepted| + s.lost
    && s.dropped == s.lost % WORD
    && var taken := |s.gate.raws| - (if s.gate.phase.Matched? || s.gate.phase.Decided? then 1 else 0);
       && taken == s.discarded + |s.accepted| + s.lost + |s.batch|
       && s.total == taken % WORD
  }

  lemma {:induction false} TakenKeeps(s: State, order: nat)
    requires RingInv(s, order) && HistoryInv(s)
    requires s.sampler.Filling? && s.gate.phase.Decided?
    ensures RingInv(Taken(s), order) && HistoryInv(Taken(s))
  {
    hide EncodeAll, Spsc.Inv, HistoryInv, Gate.Tracked;
    TakenHistory(s);
  }

  lemma {:induction false} TakenHistory(s: State)
    requires HistoryInv(s) && s.sampler.Filling? && s.gate.phase.Decided?
    ensures HistoryInv(Taken(s))
  {
    hide Gate.Tracked, Advance, LogicAnalyzer.StampTime, Offered, Stored;
    Gate.StepTracks(s.gate, Gate.Take);
    Spsc.AdvanceWraps(|s.gate.raws| - 1, 1);
    assert Channels(Offered(s.flushes) + Taken(s).batch) == s.gate.passed + Gate.Coming(s.gate);
  }

  /** Whole samples in, whole samples out: the drop count is exact. */
  lemma {:induction false} FlushedKeeps(s: State, bytes: nat)
    requires HistoryInv(s) && bytes <= SIZE * |s.batch| && bytes % SIZE == 0 && !s.sampler.Idle?
    ensures HistoryInv(Flushed(s, bytes))
    ensures SIZE * |s.batch| - bytes == SIZE * (|s.batch| - bytes / SIZE)
    ensures Flushed(s, bytes).dropped == (s.lost + (|s.batch| - bytes / SIZE)) % WORD
  {
    hide Gate.Tracked;
    Spsc.AdvanceWraps(s.lost, |s.batch| - bytes / SIZE);
    var fs := Flushed(s, bytes).flushes;
    assert fs[..|fs| - 1] == s.flushes;
    assert Offered(fs) + [] == Offered(s.flushes) + s.batch;
  }

  lemma {:induction false} CapacityWhole(order: nat)
    requires order >= 4
    ensures Pow2(order) % SIZE == 0
  {
    Pow2Add(order - 4, 4);
    Pow2Values();
    assert Pow2(order) == SIZE * Pow2(order - 4);
  }

  /** Free space and unread data are whole samples whenever a transfer starts. */
  lemma {:induction false} RoomIsWhole(s: State, order: nat)
    requires RingInv(s, order)
    ensures Spsc.Free(s.ring) % SIZE == 0
  {
    hide EncodeAll, Slot, Pow2;
    CapacityWhole(order);
    assert |s.ring.published| == SIZE * |s.accepted| && |s.ring.consumed| == SIZE * |s.returned|;
    WholeRoom(|s.ring.data|, |s.accepted|, |s.returned|);
  }

  lemma WholeRoom(capacity: nat, accepted: nat, returned: nat)
    requires capacity % SIZE == 0
    ensures (capacity - (SIZE * accepted - SIZE * returned)) % SIZE == 0
  {
  }

  /** Steps that leave the history alone. */
  lemma {:induction false} ReaderKeepsHistory(s: State, a: Action)
    requires |s.ring.data| > 0 && HistoryInv(s)
    requires a.CopyIn? || a.BeginCapture? || a.BeginRead? || a.CopyOut? || a.EndRead? || a.EndCapture? || a.BeginBatch?
    ensures HistoryInv(Step(s, a))
  {
    hide Gate.Tracked, Gate.Step, Channels, Offered, Stored, Spsc.Step;
  }

  /** A write that starts takes whole samples; it does not start exactly when nothing fits. */
  lemma {:induction false} WriteStarted(s: State, order: nat)
    requires RingInv(s, order) && !s.sampler.Writing?
    ensures
      var src := EncodeAll(s.batch);
      var r := Spsc.Step(s.ring, Spsc.StartWrite(src));
      && r.consumer == s.ring.consumer && r.published == s.ring.published && r.consumed == s.ring.consumed
      && |r.data| == |s.ring.data|
      && (r == s.ring || (r.producer.Copying? && r.producer.src == src && r.producer.count % SIZE == 0))
      && (!r.producer.Copying? ==> r == s.ring)
  {
    hide EncodeAll, Spsc.Inv, Spsc.SpaceSeen, Spsc.Free;
    RoomIsWhole(s, order);
    Spsc.SeenIsTrue(s.ring, order);
  }

  lemma {:induction false} BeginWriteKeeps(s: State, order: nat)
    requires RingInv(s, order) && HistoryInv(s)
    ensures RingInv(Step(s, BeginWrite), order) && HistoryInv(Step(s, BeginWrite))
  {
    hide EncodeAll, Spsc.Inv, Spsc.Step, Advance, Gate.Tracked, Channels, Offered, Stored;
    if s.sampler.Filling? && |s.batch| == s.sampler.target {
      Spsc.StepKeeps(s.ring, order, Spsc.StartWrite(EncodeAll(s.batch)));
      WriteStarted(s, order);
      FlushedKeeps(s, 0);
      assert s.accepted + s.batch[..0] == s.accepted;
    }
  }

  lemma {:induction false} EndWriteKeeps(s: State, order: nat)
    requires RingInv(s, order) && HistoryInv(s)
    ensures RingInv(Step(s, EndWrite), order) && HistoryInv(Step(s, EndWrite))
  {
    hide EncodeAll, Spsc.Inv, Advance, Gate.Tracked, Gate.Step, Channels, Offered, Stored;
    var p := s.ring.producer;
    if s.sampler.Writing? && p.done == p.count <= SIZE * |s.batch| {
      Spsc.StepKeeps(s.ring, order, Spsc.PublishWrite);
      FlushedKeeps(s, p.count);
      EncodePrefix(s.batch, p.count);
      EncodeAppend(s.accepted, s.batch[..p.count / SIZE]);
    }
  }

  lemma {:induction false} BeginReadKeeps(s: State, order: nat)
    requires RingInv(s, order)
    ensures RingInv(Step(s, BeginRead), order)
  {
    hide EncodeAll, Spsc.Inv, Spsc.Step;
    if s.reader.Capturing? && s.reader.got < s.reader.max {
      var wanted := s.reader.max - s.reader.got;
      Spsc.StepKeeps(s.ring, order, Spsc.StartRead(SIZE * wanted));
      ReadStarted(s, order, wanted);
    }
  }

  /** A read that starts takes whole samples, no more than wanted, and changes nothing else. */
  lemma {:induction false} ReadStarted(s: State, order: nat, wanted: nat)
    requires RingInv(s, order)
    ensures
      var r := Spsc.Step(s.ring, Spsc.StartRead(SIZE * wanted));
      && r.producer == s.ring.producer && r.published == s.ring.published && r.consumed == s.ring.consumed
      && |r.data| == |s.ring.data|
      && (r == s.ring || (r.consumer.Taking? && r.consumer.count % SIZE == 0 && r.consumer.count <= SIZE * wanted))
  {
    hide EncodeAll, Spsc.Inv, Spsc.DataSeen, Spsc.Free, Min;
    Spsc.SeenIsTrue(s.ring, order);
    UnreadIsWhole(s, order);
    MinWhole(wanted, |s.accepted| - |s.returned|);
  }

  lemma MinWhole(a: nat, b: int)
    requires b >= 0
    ensures Min(SIZE * a, SIZE * b) == SIZE * Min(a, b) <= SIZE * a
  {
  }

  lemma UnreadIsWhole(s: State, order: nat)
    requires RingInv(s, order)
    ensures |s.ring.published| - |s.ring.consumed| == SIZE * (|s.accepted| - |s.returned|) >= 0
  {
  }

  lemma {:induction false} EndReadKeeps(s: State, order: nat)
    requires RingInv(s, order)
    ensures RingInv(Step(s, EndRead), order)
  {
    hide EncodeAll, DecodeAll, Slot, Pow2, Advance;
    var c := s.ring.consumer;
    if s.reader.Capturing? && c.Taking? && |c.dst| == c.count {
      Spsc.StepKeeps(s.ring, order, Spsc.PublishRead);
      ReadWhole(s, order);
      EncodeAppend(s.returned, DecodeAll(c.dst));
    }
  }

  /** What a finished read has copied out is whole samples of the accepted stream. */
  lemma {:induction false} ReadWhole(s: State, order: nat)
    requires RingInv(s, order)
    requires s.ring.consumer.Taking? && |s.ring.consumer.dst| == s.ring.consumer.count
    ensures EncodeAll(DecodeAll(s.ring.consumer.dst)) == s.ring.consumer.dst
  {
    hide DecodeAll;
    ReadContinues(s, order);
    ImagesContinue(s.returned, s.accepted, s.ring.consumer.dst);
  }

  lemma {:induction false} ReadContinues(s: State, order: nat)
    requires RingInv(s, order)
    requires s.ring.consumer.Taking? && |s.ring.consumer.dst| == s.ring.consumer.count
    ensures EncodeAll(s.returned) + s.ring.consumer.dst <= EncodeAll(s.accepted)
    ensures |s.ring.consumer.dst| % SIZE == 0
  {
    hide EncodeAll, Slot, Pow2;
  }

  lemma {:induction false} ImagesContinue(a: seq<Sample>, b: seq<Sample>, bytes: seq<byte>)
    requires EncodeAll(a) + bytes <= EncodeAll(b) && |bytes| % SIZE == 0
    ensures EncodeAll(DecodeAll(bytes)) == bytes
  {
    hide EncodeAll, DecodeAll;
    var n := SIZE * |a|;
    EncodePrefix(b, n);
    assert bytes == (EncodeAll(a) + bytes)[n..];
    PrefixOfImages(bytes, b[n / SIZE..]);
  }

  /** A step of the gate that takes no value. */
  lemma {:induction false} GateKeeps(s: State, order: nat, a: Gate.Action)
    requires RingInv(s, order) && HistoryInv(s) && !a.Take?
    requires a.Load? ==> s.sampler.Filling? && |s.batch| < s.sampler.target
    ensures
      var t := s.(gate := Gate.Step(s.gate, a));
      RingInv(t, order) && HistoryInv(t)
  {
    hide EncodeAll, Spsc.Inv, Gate.Tracked, Channels, Offered, Stored, Matches;
    Gate.StepTracks(s.gate, a);
  }

  lemma {:induction false} CopyKeeps(s: State, order: nat, a: Action)
    requires RingInv(s, order) && (a.CopyIn? || a.CopyOut?)
    ensures RingInv(Step(s, a), order)
  {
    hide EncodeAll, Spsc.Inv, Spsc.TransferSlot;
    Spsc.StepKeeps(s.ring, order, if a.CopyIn? then Spsc.CopyIn else Spsc.CopyOut);
  }

  lemma {:induction false} StepKeeps(s: State, order: nat, a: Action)
    requires RingInv(s, order) && HistoryInv(s)
    ensures RingInv(Step(s, a), order) && HistoryInv(Step(s, a))
  {
    hide EncodeAll, DecodeAll, Spsc.Inv, Spsc.Step, Taken, Flushed, HistoryInv, Gate.Step;
    match a
    case BeginBatch(_, _, _) => ReaderKeepsHistory(s, a);
    case LoadOne(raw) =>
      if s.sampler.Filling? && |s.batch| < s.sampler.target {
        GateKeeps(s, order, Gate.Load(raw));
      }
    case TestOne => GateKeeps(s, order, Gate.Test);
    case StoreZero => GateKeeps(s, order, Gate.StoreZero);
    case TakeOne =>
      if s.sampler.Filling? && s.gate.phase.Decided? {
        TakenKeeps(s, order);
      }
    case BeginWrite => BeginWriteKeeps(s, order);
    case CopyIn => CopyKeeps(s, order, a); ReaderKeepsHistory(s, a);
    case EndWrite => EndWriteKeeps(s, order);
    case BeginCapture(_) => ReaderKeepsHistory(s, a);
    case BeginRead => BeginReadKeeps(s, order); ReaderKeepsHistory(s, a);
    case CopyOut => CopyKeeps(s, order, a); ReaderKeepsHistory(s, a);
    case EndRead => EndReadKeeps(s, order); ReaderKeepsHistory(s, a);
    case EndCapture => ReaderKeepsHistory(s, a);
    case WriteTrigger(trigger) => GateKeeps(s, order, Gate.WriteTrigger(trigger));
    case StoreArmed(armed) => GateKeeps(s, order, Gate.StoreArmed(armed));
  }

  /** The state after a run: any interleaving of sampler, consumer and trigger steps. */
  function Exec(order: nat, run: seq<Action>): (s: State)
    requires order <= 63
    ensures |s.ring.data| > 0
  {
    if run == [] then Initial(order) else Step(Exec(order, run[..|run| - 1]), run[|run| - 1])
  }

  lemma {:induction false} RunKeeps(order: nat, run: seq<Action>)
    requires 4 <= order <= 63
    ensures RingInv(Exec(order, run), order) && HistoryInv(Exec(order, run))
    decreases |run|
  {
    if run == [] {
      Spsc.InitialInv(order);
    } else {
      hide RingInv, HistoryInv, Step;
      RunKeeps(order, run[..|run| - 1]);
      StepKeeps(Exec(order, run[..|run| - 1]), order, run[|run| - 1]);
    }
  }

  /**
   No sample is torn, lost after it was accepted, or returned twice:
   in every run the samples returned so far are the first of those accepted, and both positions stay on sample boundaries.
   */
  lemma {:induction false} SamplesIntact(order: nat, run: seq<Action>)
    requires 4 <= order <= 63
    ensures
      var s := Exec(order, run);
      && s.returned <= s.accepted
      && s.ring.writePos % SIZE == s.ring.readPos % SIZE == 0
  {
    hide EncodeAll, DecodeAll, Slot, Pow2, Exec;
    RunKeeps(order, run);
    var s := Exec(order, run);
    EncodedPrefix(s.returned, s.accepted);
    WrapWhole(|s.accepted|);
    WrapWhole(|s.returned|);
  }

  lemma {:induction false} EncodedPrefix(a: seq<Sample>, b: seq<Sample>)
    requires EncodeAll(a) <= EncodeAll(b)
    ensures a <= b
  {
    PrefixOfImages(EncodeAll(a), b);
    DecodeEncodeAll(a);
  }

  lemma WrapWhole(n: nat)
    ensures SIZE * n % WORD % SIZE == 0
  {
    LogicAnalyzer.SizeWraps(n);
  }

  /** Every raw value is discarded by the gate, accepted, dropped for lack of room, or in the current batch. */
  lemma {:induction false} Accounted(order: nat, run: seq<Action>)
    requires 4 <= order <= 63
    ensures
      var s := Exec(order, run);
      s.total == (s.discarded + |s.accepted| + s.dropped + |s.batch|) % WORD
  {
    hide RingInv, Exec, Gate.Tracked, Channels, Offered, Stored;
    RunKeeps(order, run);
    var s := Exec(order, run);
    var q := s.lost / WORD;
    assert s.lost == q * WORD + s.dropped;
  }

  /** What the step means for the gate. */
  function GateAction(s: State, a: Action): Option<Gate.Action> {
    match a
    case LoadOne(raw) => if s.sampler.Filling? && |s.batch| < s.sampler.target then Some(Gate.Load(raw)) else None
    case TestOne => Some(Gate.Test)
    case StoreZero => Some(Gate.StoreZero)
    case TakeOne => if s.sampler.Filling? && s.gate.phase.Decided? then Some(Gate.Take) else None
    case WriteTrigger(trigger) => Some(Gate.WriteTrigger(trigger))
    case StoreArmed(armed) => Some(Gate.StoreArmed(armed))
    case _ => None
  }

  lemma {:induction false} GateStep(s: State, a: Action)
    requires |s.ring.data| > 0
    ensures
      Step(s, a).gate == if GateAction(s, a).Some? then Gate.Step(s.gate, GateAction(s, a).value) else s.gate
  {
    hide Spsc.Step, Gate.Step;
  }

  /** The step is one that spoils the gate. */
  predicate Clash(s: State, a: Action) {
    s.gate.trigger.channel < 8 && GateAction(s, a).Some? && Gate.Clash(s.gate, GateAction(s, a).value)
  }

  ghost predicate NoClash(order: nat, run: seq<Action>)
    requires order <= 63
  {
    run == []
    || (NoClash(order, run[..|run| - 1]) && !Clash(Exec(order, run[..|run| - 1]), run[|run| - 1]))
  }

  /** The gate is exact in the state after the run. */
  ghost predicate ExactAfter(order: nat, run: seq<Action>)
    requires 4 <= order <= 63
  {
    RunKeeps(order, run);
    Gate.Exact(Exec(order, run).gate)
  }

  ghost predicate ExactAlways(order: nat, run: seq<Action>)
    requires 4 <= order <= 63
  {
    forall n :: 0 <= n <= |run| ==> ExactAfter(order, run[..n])
  }

  lemma {:induction false} ExactNext(order: nat, run: seq<Action>, a: Action)
    requires 4 <= order <= 63 && ExactAfter(order, run)
    ensures ExactAfter(order, run + [a]) <==> !Clash(Exec(order, run), a)
  {
    hide RingInv, Step, Gate.Step, Gate.Exact, Gate.Tracked;
    var s := Exec(order, run);
    assert (run + [a])[..|run|] == run;
    RunKeeps(order, run);
    RunKeeps(order, run + [a]);
    GateStep(s, a);
    Gate.TrackedChannel(s.gate);
    if GateAction(s, a).Some? {
      Gate.StepExact(s.gate, GateAction(s, a).value);
    }
  }

  lemma {:induction false} ExactAlwaysNext(order: nat, run: seq<Action>, a: Action)
    requires 4 <= order <= 63
    ensures ExactAlways(order, run + [a]) <==> ExactAlways(order, run) && ExactAfter(order, run + [a])
  {
    hide ExactAfter;
    var next := run + [a];
    assert next[..|next|] == next;
    forall n | 0 <= n <= |run|
      ensures next[..n] == run[..n]
    {
    }
  }

  lemma ExactAtStart(order: nat)
    requires 4 <= order <= 63
    ensures ExactAlways(order, []) && ExactAfter(order, [])
  {
    Gate.InitialExact();
  }

  /**
   The gate is exact throughout a run if and only if no arming falls between a match and its store of 0, and no test
   fails after the gate was opened between the load of `armed` and the test.
   */
  lemma {:induction false} ExactlyNoClash(order: nat, run: seq<Action>)
    requires 4 <= order <= 63
    ensures ExactAlways(order, run) <==> NoClash(order, run)
    decreases |run|
  {
    hide Exec, ExactAfter, ExactAlways, Clash;
    if run == [] {
      ExactAtStart(order);
    } else {
      var last := |run| - 1;
      var front, a := run[..last], run[last];
      assert run == front + [a];
      ExactlyNoClash(order, front);
      ExactAlwaysNext(order, front, a);
      if ExactAlways(order, front) {
        ExactLast(order, front);
        ExactNext(order, front, a);
      }
    }
  }

  lemma ExactLast(order: nat, run: seq<Action>)
    requires 4 <= order <= 63 && ExactAlways(order, run)
    ensures ExactAfter(order, run)
  {
    hide ExactAfter;
    assert run[..|run|] == run;
  }

  /** The last raw value, as the next test will use it, is the preceding sample, in every run and across batches. */
  lemma {:induction false} LastRawTracked(order: nat, run: seq<Action>)
    requires 4 <= order <= 63
    ensures
      var g := Exec(order, run).gate;
      && Gate.LastDecided(g) == Before(0, g.raws, |g.raws|)
      && (g.phase.Between? ==> g.lastRaw == Before(0, g.raws, |g.raws|))
  {
    hide RingInv, Exec, Before;
    RunKeeps(order, run);
  }

  /** What the gate should have let through since the trigger was last set or armed. */
  function Due(s: State): seq<byte>
    requires s.gate.trigger.channel < 8
  {
    Gated(s.gate.since.armed, s.gate.trigger, s.gate.since.prev, s.gate.since.raws)
  }

  /** The values since then are the last ones of the raw stream, and `prev` is the value before them. */
  predicate SinceIsTail(g: Gate.State) {
    && |g.since.raws| <= |g.raws|
    && g.since.raws == g.raws[|g.raws| - |g.since.raws|..]
    && g.since.prev == Before(0, g.raws, |g.raws| - |g.since.raws|)
  }

  /**
   Without a clash the samples offered to the ring since the trigger was last set or armed are exactly the suffix of
   the raw stream from its first match on; the ring took the first samples of each batch, and all when none is lost.
   */
  lemma {:induction false} GateExact(order: nat, run: seq<Action>)
    requires 4 <= order <= 63 && NoClash(order, run)
    ensures
      var s := Exec(order, run);
      && s.gate.trigger.channel < 8
      && (forall k :: 0 <= k < |s.flushes| ==> s.flushes[k].kept <= |s.flushes[k].batch|)
      && s.accepted == Stored(s.flushes)
      && s.gate.since.mark <= |Offered(s.flushes) + s.batch| + |Gate.Coming(s.gate)|
      && (Channels(Offered(s.flushes) + s.batch) + Gate.Coming(s.gate))[s.gate.since.mark..] == Due(s)
      && SinceIsTail(s.gate)
      && (s.lost == 0 ==> s.accepted == Offered(s.flushes))
  {
    hide RingInv, Exec, Gated, StillArmed, Before, NoClash, Stored, Offered;
    ExactlyNoClash(order, run);
    ExactLast(order, run);
    RunKeeps(order, run);
    var s := Exec(order, run);
    if s.lost == 0 {
      NothingCut(s.flushes);
    }
  }

  lemma {:induction false} NothingCut(fs: seq<Flush>)
    requires forall k :: 0 <= k < |fs| ==> fs[k].kept <= |fs[k].batch|
    ensures |Stored(fs)| <= |Offered(fs)|
    ensures |Stored(fs)| == |Offered(fs)| ==> Stored(fs) == Offered(fs)
    decreases |fs|
  {
    if fs != [] {
      NothingCut(fs[..|fs| - 1]);
      assert fs[|fs| - 1].batch[..|fs[|fs| - 1].batch|] == fs[|fs| - 1].batch;
    }
  }

  lemma {:induction false} OfferedAppend(a: seq<Flush>, b: seq<Flush>)
    ensures Offered(a + b) == Offered(a) + Offered(b)
    decreases |b|
  {
    if b == [] {
      assert a + b == a;
    } else {
      assert (a + b)[..|a + b| - 1] == a + b[..|b| - 1];
      OfferedAppend(a, b[..|b| - 1]);
    }
  }

  lemma {:induction false} StoredAppend(a: seq<Flush>, b: seq<Flush>)
    requires forall k :: 0 <= k < |a| ==> a[k].kept <= |a[k].batch|
    requires forall k :: 0 <= k < |b| ==> b[k].kept == |b[k].batch|
    ensures forall k :: 0 <= k < |a + b| ==> (a + b)[k].kept <= |(a + b)[k].batch|
    ensures Stored(a + b) == Stored(a) + Offered(b)
    decreases |b|
  {
    hide Stored, Offered;
    if b == [] {
      NoFlush();
      assert a + b == a;
    } else {
      var front, last := b[..|b| - 1], b[|b| - 1];
      StoredAppend(a, front);
      OneFlush(a + front, last);
      OneFlush(front, last);
      assert last.batch[..last.kept] == last.batch;
      assert a + b == a + front + [last] && b == front + [last];
    }
  }

  lemma NoFlush()
    ensures Stored([]) == [] && Offered([]) == []
  {
  }

  lemma OneFlush(fs: seq<Flush>, f: Flush)
    requires f.kept <= |f.batch| && forall k :: 0 <= k < |fs| ==> fs[k].kept <= |fs[k].batch|
    ensures forall k :: 0 <= k < |fs + [f]| ==> (fs + [f])[k].kept <= |(fs + [f])[k].batch|
    ensures Stored(fs + [f]) == Stored(fs) + f.batch[..f.kept]
    ensures Offered(fs + [f]) == Offered(fs) + f.batch
  {
    assert (fs + [f])[..|fs|] == fs;
  }

  /**
   The stored stream itself: when no batch since the trigger was last set or armed lost a sample, the accepted samples
   and the current batch end in exactly the suffix that is due, whatever was lost before.
   */
  lemma {:induction false} StoredExact(order: nat, run: seq<Action>, n: nat)
    requires 4 <= order <= 63 && NoClash(order, run)
    requires
      var s := Exec(order, run);
      && Gate.Coming(s.gate) == [] && n <= |s.flushes| && |Offered(s.flushes[..n])| <= s.gate.since.mark
      && forall k :: n <= k < |s.flushes| ==> s.flushes[k].kept == |s.flushes[k].batch|
    ensures
      var s := Exec(order, run);
      var all := Channels(s.accepted + s.batch);
      && s.gate.trigger.channel < 8
      && |Due(s)| <= |all| && all[|all| - |Due(s)|..] == Due(s)
  {
    hide RingInv, Exec, Gated, StillArmed, Before, NoClash, Stored, Offered, Channels;
    GateExact(order, run);
    var s := Exec(order, run);
    var a, b := s.flushes[..n], s.flushes[n..];
    assert s.flushes == a + b;
    StoredAppend(a, b);
    OfferedAppend(a, b);
    var recent := Offered(b) + s.batch;
    assert s.accepted + s.batch == Stored(a) + recent;
    assert Offered(s.flushes) + s.batch == Offered(a) + recent;
    SameTail(Offered(a), Stored(a), recent, s.gate.since.mark);
  }

  lemma {:induction false} SameTail(a: seq<Sample>, b: seq<Sample>, c: seq<Sample>, mark: nat)
    requires |a| <= mark <= |a + c|
    ensures
      var due := (Channels(a + c) + [])[mark..];
      |due| <= |b + c| && Channels(b + c)[|b + c| - |due|..] == due
  {
  }

  lemma {:induction false} ExecNext(order: nat, run: seq<Action>, a: Action)
    requires order <= 63
    ensures Exec(order, run + [a]) == Step(Exec(order, run), a)
  {
    assert (run + [a])[..|run|] == run;
  }

  /** The trigger is a high channel 0, and the sampler has read 1 and found the gate armed. */
  lemma {:induction false} LoadRun(order: nat) returns (run: seq<Action>)
    requires 4 <= order <= 63
    ensures
      var s := Exec(order, run);
      && s.gate == Gate.INITIAL.(trigger := Trigger(High, 0), armed := true, phase := Gate.Loaded(1),
                                 since := Gate.Since(true, 0, [], 0))
      && s.sampler.Filling? && s.sampler.target == 32 && s.batch == [] && s.flushes == [] && s.discarded == 0
  {
    hide Exec;
    run := [];
    EmptyRun(order);
    ExecNext(order, run, WriteTrigger(Trigger(High, 0)));
    run := run + [WriteTrigger(Trigger(High, 0))];
    ExecNext(order, run, StoreArmed(true));
    run := run + [StoreArmed(true)];
    ExecNext(order, run, BeginBatch(0, 10, 32));
    run := run + [BeginBatch(0, 10, 32)];
    ExecNext(order, run, LoadOne(1));
    run := run + [LoadOne(1)];
  }

  /** The sampler has matched it. */
  lemma {:induction false} MatchRun(order: nat) returns (run: seq<Action>)
    requires 4 <= order <= 63
    ensures
      var s := Exec(order, run);
      && s.gate.phase == Gate.Matched(1) && s.gate.armed && s.gate.passed == []
      && s.sampler.Filling? && s.sampler.target == 32 && s.batch == []
  {
    hide Exec;
    LowBits();
    run := LoadRun(order);
    ExecNext(order, run, TestOne);
    run := run + [TestOne];
  }

  lemma EmptyRun(order: nat)
    requires order <= 63
    ensures Exec(order, []) == Initial(order)
  {
  }

  lemma LowBits()
    ensures Bit(1, 0) == 1 && Bit(0, 1) == 0 && Bit(1, 1) == 0
  {
    Pow2Values();
  }

  /** The trigger is set anew before the sampler has stored its 0. */
  lemma {:induction false} ClashRun(order: nat) returns (run: seq<Action>)
    requires 4 <= order <= 63
    ensures
      var s := Exec(order, run);
      && s.gate.phase == Gate.Matched(1) && s.gate.armed && s.gate.passed == []
      && s.gate.trigger == Trigger(High, 1) && s.gate.since == Gate.Since(true, 1, [], 1)
      && s.sampler.Filling? && s.sampler.target == 32 && s.batch == []
  {
    hide Exec, Matches, Spsc.Step;
    run := MatchRun(order);
    ExecNext(order, run, WriteTrigger(Trigger(High, 1)));
    run := run + [WriteTrigger(Trigger(High, 1))];
    ExecNext(order, run, StoreArmed(true));
    run := run + [StoreArmed(true)];
  }

  /**
   A lost arming: while the sampler is between its match of channel 0 and the store of 0, the trigger is set to
   channel 1. The store takes the new arming away, and the next value passes although channel 1 is low.
   */
  lemma {:induction false} LostArming(order: nat) returns (run: seq<Action>)
    requires 4 <= order <= 63
    ensures
      var s := Exec(order, run);
      && s.gate.trigger == Trigger(High, 1) && s.gate.since == Gate.Since(true, 1, [0], 1)
      && Due(s) == []
      && s.gate.phase.Between? && !s.gate.armed && Channels(s.batch) == [1, 0]
  {
    hide Exec, Matches, Gated, Spsc.Step, LogicAnalyzer.StampTime, Channels;
    NothingDue();
    run := ClashRun(order);
    ExecNext(order, run, StoreZero);
    run := run + [StoreZero];
    run := TakeValue(order, run, 1);
    ExecNext(order, run, LoadOne(0));
    run := run + [LoadOne(0)];
    run := TakeValue(order, run, 0);
  }

  /**
   A lost value: between the sampler's load of `armed` and its test the trigger is switched off, which opens the gate,
   and the next one, channel 1, is written but not armed. The value matches channel 0 and is due, but it is tested
   against channel 1 and discarded.
   */
  lemma {:induction false} LostValue(order: nat) returns (run: seq<Action>)
    requires 4 <= order <= 63
    ensures
      var s := Exec(order, run);
      && s.gate.trigger == Trigger(High, 1) && s.gate.since == Gate.Since(false, 0, [1], 0)
      && Due(s) == [1]
      && s.gate.phase.Between? && s.discarded == 1 && s.flushes == [] && s.batch == []
  {
    hide Exec, Matches, Gated, Spsc.Step, LogicAnalyzer.StampTime;
    OneDue();
    run := SwitchRun(order);
    ExecNext(order, run, TestOne);
    run := run + [TestOne];
    ExecNext(order, run, TakeOne);
    run := run + [TakeOne];
  }

  /** The setter has switched the trigger off and written the next one. */
  lemma {:induction false} SwitchRun(order: nat) returns (run: seq<Action>)
    requires 4 <= order <= 63
    ensures
      var s := Exec(order, run);
      && s.gate == Gate.INITIAL.(trigger := Trigger(High, 1), phase := Gate.Loaded(1))
      && s.sampler.Filling? && s.batch == [] && s.flushes == [] && s.discarded == 0
  {
    hide Exec, Matches, Spsc.Step;
    run := LoadRun(order);
    ExecNext(order, run, WriteTrigger(Trigger(NoTrigger, 0)));
    run := run + [WriteTrigger(Trigger(NoTrigger, 0))];
    ExecNext(order, run, StoreArmed(false));
    run := run + [StoreArmed(false)];
    ExecNext(order, run, WriteTrigger(Trigger(High, 1)));
    run := run + [WriteTrigger(Trigger(High, 1))];
  }

  lemma OneDue()
    ensures !Matches(Trigger(High, 1), 0, 1) && Matches(Trigger(High, 0), 0, 1)
    ensures Gated(false, Trigger(High, 1), 0, [1]) == [1]
  {
    hide FirstMatch, Bit;
    LowBits();
  }

  lemma NothingDue()
    ensures Gated(true, Trigger(High, 1), 1, [0]) == []
  {
    hide Gated, FirstMatch, Bit;
    LowBits();
    LogicAnalyzer.OneValue(true, Trigger(High, 1), 1, 0);
  }

  lemma {:induction false} TakeValue(order: nat, run: seq<Action>, raw: byte) returns (next: seq<Action>)
    requires order <= 63
    requires
      var s := Exec(order, run);
      s.gate.phase == Gate.Decided(raw, true) && s.sampler.Filling?
    ensures
      var s, t := Exec(order, run), Exec(order, next);
      && t.gate == s.gate.(phase := Gate.Between, lastRaw := raw, passed := s.gate.passed + [raw])
      && t.sampler == s.sampler && |t.batch| == |s.batch| + 1
      && Channels(t.batch) == Channels(s.batch) + [raw]
  {
    hide Exec, LogicAnalyzer.StampTime, Spsc.Step;
    ExecNext(order, run, TakeOne);
    next := run + [TakeOne];
  }

  /** Every batch, finished or not, has its first stamp from its clock and each further one a period later. */
  ghost predicate AllPaced(s: State) {
    && (!s.sampler.Idle? ==> LogicAnalyzer.Paced(s.batch, s.sampler.startNs, s.sampler.periodNs))
    && (s.sampler.Idle? ==> s.batch == [])
    && forall k :: 0 <= k < |s.flushes| ==>
         LogicAnalyzer.Paced(s.flushes[k].batch, s.flushes[k].startNs, s.flushes[k].periodNs)
  }

  lemma {:induction false} PacedKeeps(s: State, a: Action)
    requires |s.ring.data| > 0 && AllPaced(s)
    ensures AllPaced(Step(s, a))
  {
    hide Spsc.Step, Gate.Step, EncodeAll, DecodeAll, Advance, LogicAnalyzer.Paced, LogicAnalyzer.StampTime;
    if a.BeginBatch? {
      LogicAnalyzer.PacedNothing(a.startNs, a.periodNs);
    } else if a.TakeOne? && s.sampler.Filling? && s.gate.phase.Decided? {
      LogicAnalyzer.PacedNext(s.batch, s.sampler.startNs, s.sampler.periodNs, s.gate.phase.raw);
    }
  }

  /** In every run the stamps within each batch are a period apart, and climb unless the clock wraps within it. */
  lemma {:induction false} StampsPaced(order: nat, run: seq<Action>)
    requires order <= 63
    ensures AllPaced(Exec(order, run))
    ensures forall k :: 0 <= k < |Exec(order, run).flushes| ==> ClimbsUnlessWrapped(Exec(order, run).flushes[k])
    decreases |run|
  {
    hide Step, LogicAnalyzer.Paced, LogicAnalyzer.Climbing;
    if run != [] {
      StampsPaced(order, run[..|run| - 1]);
      PacedKeeps(Exec(order, run[..|run| - 1]), run[|run| - 1]);
    }
    var s := Exec(order, run);
    forall k | 0 <= k < |s.flushes|
      ensures ClimbsUnlessWrapped(s.flushes[k])
    {
      var f := s.flushes[k];
      if f.periodNs > 0 && f.startNs + |f.batch| * f.periodNs <= WORD {
        LogicAnalyzer.PacedClimbing(f.batch, f.startNs, f.periodNs);
      }
    }
  }

  ghost predicate ClimbsUnlessWrapped(f: Flush) {
    f.periodNs > 0 && f.startNs + |f.batch| * f.periodNs <= WORD ==> LogicAnalyzer.Climbing(f.batch)
  }

  /** A capture never returns more than was asked for. */
  lemma {:induction false} CaptureBounded(order: nat, run: seq<Action>)
    requires 4 <= order <= 63
    ensures
      var s := Exec(order, run);
      s.reader.Capturing? ==> s.reader.got <= s.reader.max
  {
    hide HistoryInv, Exec;
    RunKeeps(order, run);
  }
}
