/** The logic analyzer as one thread at a time uses it: setters, one batch of the sampler, and reading samples out. */
module LogicAnalyzer {
  import opened Arith
  import opened Bits
  import opened Options
  import opened Protocol
  import opened RingIndex
  import opened RingBuffer
  import opened SampleCodec
  import opened TriggerGate

  const MAX_SAMPLE_RATE: uint32 := 100_000_000
  const BILLION: nat := 1_000_000_000

  datatype Config = Config(sampleRate: uint32, maxSampleRate: uint32, ringCapacitySamples: nat)

  const DEFAULTS: Config := Config(1_000_000, MAX_SAMPLE_RATE, 0x1_0000)

  function PeriodNs(rate: uint32): uint64
    requires rate > 0
  {
    var p := BILLION / rate;
    if p == 0 then 1 else p
  }

  function RequestedSamples(config: Option<Config>): nat {
    if config.Some? && config.value.ringCapacitySamples != 0 then config.value.ringCapacitySamples
    else DEFAULTS.ringCapacitySamples
  }

  /** The size of the ring in bytes, in 64 bits. */
  function RingBytes(samples: nat): nat {
    SIZE * samples % WORD
  }

  function StampTime(startNs: uint64, periodNs: uint64, k: nat): uint64 {
    (startNs + k * periodNs) % WORD
  }

  /** The stored samples of a batch: sample `k` is stamped `k` periods after the batch began. */
  function Stamped(channels: seq<byte>, startNs: uint64, periodNs: uint64): (ss: seq<Sample>)
    ensures |ss| == |channels|
  {
    seq(|channels|, k requires 0 <= k < |channels| => Sample(StampTime(startNs, periodNs, k), channels[k]))
  }

  /** A batch that begins at `startNs` with one sample in every period, on a clock of 64 bits. */
  ghost predicate Paced(ss: seq<Sample>, startNs: uint64, periodNs: uint64) {
    && (ss != [] ==> ss[0].timestamp == startNs)
    && forall k :: 0 < k < |ss| ==> (ss[k].timestamp - ss[k - 1].timestamp) % WORD == periodNs
  }

  /** The stamps strictly increase. */
  ghost predicate Climbing(ss: seq<Sample>) {
    forall j, k :: 0 <= j < k < |ss| ==> ss[j].timestamp < ss[k].timestamp
  }

  lemma {:induction false} StampedPaced(channels: seq<byte>, startNs: uint64, periodNs: uint64)
    ensures Paced(Stamped(channels, startNs, periodNs), startNs, periodNs)
  {
    hide StampTime;
    if channels != [] {
      FirstStamp(startNs, periodNs);
    }
    forall k | 0 < k < |channels|
      ensures (StampTime(startNs, periodNs, k) - StampTime(startNs, periodNs, k - 1)) % WORD == periodNs
    {
      NextStamp(startNs, periodNs, k);
    }
  }

  lemma FirstStamp(startNs: uint64, periodNs: uint64)
    ensures StampTime(startNs, periodNs, 0) == startNs
  {
  }

  lemma {:induction false} NextStamp(startNs: uint64, periodNs: uint64, k: nat)
    requires k > 0
    ensures (StampTime(startNs, periodNs, k) - StampTime(startNs, periodNs, k - 1)) % WORD == periodNs
  {
    var a, b := startNs + k * periodNs, startNs + (k - 1) * periodNs;
    assert k * periodNs == (k - 1) * periodNs + periodNs;
    assert a == b + periodNs;
    RemainderStep(b, periodNs);
  }

  lemma RemainderStep(b: nat, d: uint64)
    ensures ((b + d) % WORD - b % WORD) % WORD == d
  {
  }

  lemma PacedNothing(startNs: uint64, periodNs: uint64)
    ensures Paced([], startNs, periodNs)
  {
  }

  lemma {:induction false} PacedStamp(ss: seq<Sample>, startNs: uint64, periodNs: uint64, k: nat)
    requires Paced(ss, startNs, periodNs) && k < |ss|
    ensures ss[k].timestamp == StampTime(startNs, periodNs, k)
    decreases k
  {
    hide StampTime;
    if k == 0 {
      FirstStamp(startNs, periodNs);
    } else {
      PacedStamp(ss, startNs, periodNs, k - 1);
      NextStamp(startNs, periodNs, k);
      SameDistance(ss[k - 1].timestamp, ss[k].timestamp, StampTime(startNs, periodNs, k));
    }
  }

  lemma SameDistance(from: uint64, a: uint64, b: uint64)
    requires (a - from) % WORD == (b - from) % WORD
    ensures a == b
  {
  }

  /** A further sample, stamped as the sampler stamps it, keeps the pace. */
  lemma {:induction false} PacedNext(ss: seq<Sample>, startNs: uint64, periodNs: uint64, channels: byte)
    requires Paced(ss, startNs, periodNs)
    ensures Paced(ss + [Sample(StampTime(startNs, periodNs, |ss|), channels)], startNs, periodNs)
  {
    hide StampTime;
    if ss == [] {
      FirstStamp(startNs, periodNs);
    } else {
      PacedStamp(ss, startNs, periodNs, |ss| - 1);
      NextStamp(startNs, periodNs, |ss|);
    }
  }

  lemma {:induction false} StampedBatch(channels: seq<byte>, startNs: uint64, periodNs: uint64, rate: uint32)
    ensures
      var batch := Stamped(channels, startNs, periodNs);
      && Paced(batch, startNs, periodNs)
      && (periodNs > 0 && startNs + |channels| * periodNs <= WORD ==> Climbing(batch))
      && forall k :: 0 <= k < |channels| ==> batch[k].channels == channels[k]
    ensures BatchTarget(rate) == if rate >= 1_000_000 then 256 else 32
  {
    StampedPaced(channels, startNs, periodNs);
    if periodNs > 0 && startNs + |channels| * periodNs <= WORD {
      PacedClimbing(Stamped(channels, startNs, periodNs), startNs, periodNs);
    }
  }

  lemma FirstOfBatch(ss: seq<Sample>, startNs: uint64, periodNs: uint64, n: nat)
    requires Paced(ss, startNs, periodNs) && n <= |ss|
    ensures Paced(ss[..n], startNs, periodNs)
    ensures Climbing(ss) ==> Climbing(ss[..n])
  {
  }

  /** When the clock does not wrap within a batch, sample `k` is stamped exactly `k` periods after its start. */
  lemma {:induction false} PacedExact(ss: seq<Sample>, startNs: uint64, periodNs: uint64, k: nat)
    requires Paced(ss, startNs, periodNs) && k < |ss| && startNs + k * periodNs < WORD
    ensures ss[k].timestamp == startNs + k * periodNs
    decreases k
  {
    if k > 0 {
      assert k * periodNs == (k - 1) * periodNs + periodNs;
      PacedExact(ss, startNs, periodNs, k - 1);
      OnePeriod(ss[k - 1].timestamp, ss[k].timestamp, periodNs);
    }
  }

  lemma OnePeriod(from: uint64, to: uint64, periodNs: uint64)
    requires (to - from) % WORD == periodNs && from + periodNs < WORD
    ensures to == from + periodNs
  {
  }

  lemma {:induction false} PacedClimbing(ss: seq<Sample>, startNs: uint64, periodNs: uint64)
    requires Paced(ss, startNs, periodNs) && periodNs > 0 && startNs + |ss| * periodNs <= WORD
    ensures Climbing(ss)
  {
    forall j, k | 0 <= j < k < |ss|
      ensures ss[j].timestamp < ss[k].timestamp
    {
      MulMono(j + 1, k, periodNs);
      MulMono(k + 1, |ss|, periodNs);
      PacedExact(ss, startNs, periodNs, j);
      PacedExact(ss, startNs, periodNs, k);
    }
  }

  function BatchTarget(sampleRate: uint32): (n: nat)
    ensures 0 < n <= 256
  {
    if sampleRate >= 1_000_000 then 256 else 32
  }

  class Analyzer {
    var sampleRate: uint32
    var maxSampleRate: uint32
    var ringCapacitySamples: nat
    var trigger: Trigger
    const ring: Ring
    var armed: bool
    var totalSamples: uint64
    var droppedSamples: uint64
    var lastRaw: byte
    var periodNs: uint64
    var syntheticCounter: uint64
    /** The samples in the ring, oldest first. */
    ghost var stored: seq<Sample>

    /** The configured rates and the period that goes with them. */
    ghost predicate Rated()
      reads this
    {
      && 1 <= sampleRate <= maxSampleRate <= MAX_SAMPLE_RATE
      && periodNs * sampleRate <= BILLION < (periodNs + 1) * sampleRate
      && trigger.channel < 8
    }

    /** Both positions are multiples of the sample size, and the unread bytes are whole samples. */
    ghost predicate Valid()
      reads this, ring, ring.data
    {
      && Rated()
      && ring.Valid() && ring.data != null
      && ring.capacity % SIZE == ring.readPos % SIZE == ring.writePos % SIZE == 0
      && ring.Contents() == EncodeAll(stored)
    }

    /**
     What a configuration asks for is what the analyzer has, as far as it is possible; 0 and no configuration ask for
     the defaults.
     */
    ghost predicate Requested(config: Option<Config>)
      reads this
    {
      match config
      case None => sampleRate == 1_000_000 && maxSampleRate == 100_000_000 && ringCapacitySamples == 0x1_0000
      case Some(c) =>
        && maxSampleRate == (if 1 <= c.maxSampleRate <= 100_000_000 then c.maxSampleRate else 100_000_000)
        && sampleRate == Min(if c.sampleRate == 0 then 1_000_000 else c.sampleRate, maxSampleRate)
        && ringCapacitySamples == if c.ringCapacitySamples == 0 then 0x1_0000 else c.ringCapacitySamples
    }

    constructor ()
      ensures fresh(ring) && ring.Valid() && ring.data == null
    {
      sampleRate, maxSampleRate, ringCapacitySamples := 0, 0, 0;
      trigger, armed := Trigger(NoTrigger, 0), false;
      totalSamples, droppedSamples, lastRaw, periodNs, syntheticCounter := 0, 0, 0, 0, 0;
      stored := [];
      ring := new Ring();
    }

    method Init(config: Option<Config>, enough: bool) returns (ok: bool)
      requires RingBytes(RequestedSamples(config)) <= 0x8000_0000_0000_0000
      modifies this, ring
      ensures Rated() && trigger.mode == NoTrigger && !armed
      ensures totalSamples == droppedSamples == syntheticCounter == 0 && lastRaw == 0
      ensures ok <==> enough && RingBytes(RequestedSamples(config)) != 0
      ensures ok ==> Valid() && stored == [] && fresh(ring.data)
      ensures Requested(config)
      ensures ok && SIZE * ringCapacitySamples < WORD ==>
                SIZE * ringCapacitySamples <= ring.capacity < 2 * SIZE * ringCapacitySamples
    {
      hide RingBytes, Rated, EncodeAll, Requested;
      totalSamples, droppedSamples, lastRaw, syntheticCounter := 0, 0, 0, 0;
      armed, stored := false, [];
      Configure(config);
      var ringBytes := RingBytes(ringCapacitySamples);
      SizeWraps(ringCapacitySamples);
      if SIZE * ringCapacitySamples < WORD {
        SizeKept(ringCapacitySamples);
      }
      ok := ring.Init(ringBytes, enough);
      if ok {
        RoundedAligned(ringBytes, ring.capacity, ring.order);
        assert EncodeAll([]) == [];
      }
    }

    method Configure(config: Option<Config>)
      modifies this`sampleRate, this`maxSampleRate, this`ringCapacitySamples, this`trigger, this`periodNs
      ensures Rated() && trigger.mode == NoTrigger
      ensures ringCapacitySamples == RequestedSamples(config)
      ensures Requested(config)
      ensures periodNs * sampleRate <= 1_000_000_000 < (periodNs + 1) * sampleRate
    {
      var c := if config.Some? then config.value else DEFAULTS;
      sampleRate, maxSampleRate, ringCapacitySamples := c.sampleRate, c.maxSampleRate, c.ringCapacitySamples;
      if maxSampleRate == 0 || maxSampleRate > MAX_SAMPLE_RATE {
        maxSampleRate := MAX_SAMPLE_RATE;
      }
      if sampleRate == 0 {
        sampleRate := DEFAULTS.sampleRate;
      }
      if sampleRate > maxSampleRate {
        sampleRate := maxSampleRate;
      }
      if ringCapacitySamples == 0 {
        ringCapacitySamples := DEFAULTS.ringCapacitySamples;
      }
      periodNs := PeriodNs(sampleRate);
      PeriodFits(sampleRate);
      trigger := Trigger(NoTrigger, 0);
    }

    method SetSampleRate(rate: uint32) returns (ok: bool)
      requires Rated()
      modifies this`sampleRate, this`periodNs
      ensures Rated()
      ensures ok <==> rate != 0
      ensures periodNs * sampleRate <= 1_000_000_000 < (periodNs + 1) * sampleRate
      ensures sampleRate == if ok then Min(rate, maxSampleRate) else old(sampleRate)
    {
      if rate == 0 {
        return false;
      }
      sampleRate := if rate > maxSampleRate then maxSampleRate else rate;
      periodNs := PeriodNs(sampleRate);
      PeriodFits(sampleRate);
      return true;
    }

    method SetTrigger(t: Trigger) returns (ok: bool)
      requires Rated()
      modifies this`trigger, this`armed
      ensures Rated()
      ensures ok <==> t.channel < 8
      ensures ok ==> trigger == t && armed == (t.mode != NoTrigger)
      ensures !ok ==> trigger == old(trigger) && armed == old(armed)
    {
      if t.channel >= 8 {
        return false;
      }
      trigger := t;
      armed := t.mode != NoTrigger;
      return true;
    }

    method Arm()
      modifies this`armed
      ensures armed == if trigger.mode == NoTrigger then old(armed) else true
    {
      if trigger.mode != NoTrigger {
        armed := true;
      }
    }

    /**
     One pass of the sampling loop. `raws` are the values the reader returns during the pass:
     just enough of them for a full batch to pass the gate.
     */
    method SampleBatch(raws: seq<byte>, startNs: uint64)
      requires Valid()
      requires |Gated(armed, trigger, lastRaw, raws)| == BatchTarget(sampleRate)
      modifies this`armed, this`totalSamples, this`droppedSamples, this`lastRaw, this`syntheticCounter, this`stored
      modifies ring`writePos, ring.data
      ensures Valid()
      ensures !armed && lastRaw == Before(old(lastRaw), raws, |raws|)
      ensures
        var passed := Stamped(Gated(old(armed), trigger, old(lastRaw), raws), startNs, periodNs);
        var room := ring.capacity / SIZE - old(|stored|);
        var kept := if |passed| <= room then |passed| else room;
        && 0 <= kept <= |passed|
        && stored == old(stored) + passed[..kept]
        && Paced(stored[|old(stored)|..], startNs, periodNs)
        && (startNs + |passed| * periodNs <= WORD ==> Climbing(stored[|old(stored)|..]))
        && (forall k :: 0 <= k < kept ==>
              stored[|old(stored)| + k].channels == Gated(old(armed), trigger, old(lastRaw), raws)[k])
        && droppedSamples == Advance(old(droppedSamples), |passed| - kept)
      ensures totalSamples == Advance(old(totalSamples), |raws|)
      ensures syntheticCounter == Advance(old(syntheticCounter), |raws|)
    {
      hide Gated, Before, Stamped, EncodeAll, BatchTarget, StillArmed, Advance, Paced, Climbing, Ring.Valid;
      var batch, batchCount := CollectBatch(raws, startNs);
      ghost var passed := batch[..batchCount];
      ghost var before := stored;
      var kept := StoreBatch(batch[..batchCount]);
      FirstOfBatch(passed, startNs, periodNs, kept);
      assert stored[|before|..] == passed[..kept];
    }

    /** Writes the samples of a batch, as many as fit, and counts the others as dropped. */
    method StoreBatch(batch: seq<Sample>) returns (kept: nat)
      requires Valid()
      modifies this`droppedSamples, this`stored, ring`writePos, ring.data
      ensures Valid()
      ensures kept == Min(|batch|, ring.capacity / SIZE - |old(stored)|)
      ensures stored == old(stored) + batch[..kept]
      ensures droppedSamples == Advance(old(droppedSamples), |batch| - kept)
    {
      hide Pow2, EncodeAll, Distance, Advance;
      var bytesToWrite := |batch| * SIZE;
      var bytesWritten := ring.Write(EncodeAll(batch));
      AlignedMin(bytesToWrite, ring.capacity, |stored|);
      EncodePrefix(batch, bytesWritten);
      kept := bytesWritten / SIZE;
      EncodeAppend(stored, batch[..kept]);
      AdvanceAligned(old(ring.writePos), bytesWritten);
      AdvanceNothing(droppedSamples);
      stored := stored + batch[..kept];
      if bytesWritten < bytesToWrite {
        var dropped := (bytesToWrite - bytesWritten) / SIZE;
        droppedSamples := Advance(droppedSamples, dropped);
      }
    }

    /** As many samples as fit in `out`, oldest first. */
    method ReadSamples(out: array<Sample>, maxSamples: nat) returns (samplesRead: nat)
      requires Valid() && maxSamples <= out.Length
      modifies this`stored, ring`readPos, out
      ensures Valid()
      ensures samplesRead == Min(maxSamples, |old(stored)|)
      ensures out[..samplesRead] == old(stored)[..samplesRead]
      ensures out[samplesRead..] == old(out[samplesRead..])
      ensures stored == old(stored)[samplesRead..]
    {
      hide Valid, Ring.Valid, Ring.Contents, EncodeAll;
      var ss := TakeSamples(maxSamples);
      samplesRead := |ss|;
      PutSamples(out, ss);
    }

    /** The read of the ring: whole samples leave it. */
    method TakeSamples(maxSamples: nat) returns (ss: seq<Sample>)
      requires Valid()
      modifies this`stored, ring`readPos
      ensures Valid()
      ensures ss == old(stored)[..Min(maxSamples, |old(stored)|)] && stored == old(stored)[|ss|..]
    {
      hide Pow2, EncodeAll, DecodeAll, Distance, Decode, Advance;
      var bytes := new byte[SIZE * maxSamples](_ => 0);
      var bytesRead := ring.Read(bytes, SIZE * maxSamples);
      ReadBack(stored, bytes[..bytesRead]);
      AdvanceAligned(old(ring.readPos), bytesRead);
      ss := DecodeAll(bytes[..bytesRead]);
      stored := stored[bytesRead / SIZE..];
    }

    /** The inner loop: reads raw values until a full batch has passed the gate. */
    method CollectBatch(raws: seq<byte>, startNs: uint64) returns (batch: array<Sample>, batchCount: nat)
      requires Rated()
      requires |Gated(armed, trigger, lastRaw, raws)| == BatchTarget(sampleRate)
      modifies this`armed, this`totalSamples, this`lastRaw, this`syntheticCounter
      ensures fresh(batch) && batchCount == BatchTarget(sampleRate) <= batch.Length
      ensures batchCount == if sampleRate >= 1_000_000 then 256 else 32
      ensures Paced(batch[..batchCount], startNs, periodNs)
      ensures startNs + batchCount * periodNs <= WORD ==> Climbing(batch[..batchCount])
      ensures batchCount == |Gated(old(armed), trigger, old(lastRaw), raws)|
      ensures forall k :: 0 <= k < batchCount ==> batch[k].channels == Gated(old(armed), trigger, old(lastRaw), raws)[k]
      ensures batch[..batchCount] == Stamped(Gated(old(armed), trigger, old(lastRaw), raws), startNs, periodNs)
      ensures !armed && lastRaw == Before(old(lastRaw), raws, |raws|)
      ensures totalSamples == Advance(old(totalSamples), |raws|)
      ensures syntheticCounter == Advance(old(syntheticCounter), |raws|)
    {
      hide Collected, BatchTarget, Gated, Matches, StampTime, Advance;
      batch := new Sample[256](_ => Sample(0, 0));
      var batchTarget := BatchTarget(sampleRate);
      batchCount := 0;
      var n := 0;
      ghost var gate := Gate(armed, trigger, lastRaw, startNs, periodNs);
      CollectedNothing(gate, raws);
      AdvanceNothing(totalSamples);
      AdvanceNothing(syntheticCounter);
      while batchCount < batchTarget
        invariant n <= |raws| && batchCount <= batchTarget
        invariant Collected(gate, raws, n, armed, lastRaw, batch[..batchCount])
        invariant totalSamples == Advance(old(totalSamples), n)
        invariant syntheticCounter == Advance(old(syntheticCounter), n)
        decreases |raws| - n
      {
        CollectedNext(gate, raws, n, armed, lastRaw, batch[..batchCount]);
        AdvanceTwice(old(totalSamples), n, 1);
        AdvanceTwice(old(syntheticCounter), n, 1);
        var currentRaw := raws[n];
        n := n + 1;
        syntheticCounter := Advance(syntheticCounter, 1);
        if armed {
          var matched := TriggerMatched(trigger, lastRaw, currentRaw);
          if matched {
            armed := false;
          }
        }
        if !armed {
          ghost var before := batch[..batchCount];
          batch[batchCount] := Sample(StampTime(startNs, periodNs, batchCount), currentRaw);
          batchCount := batchCount + 1;
          assert batch[..batchCount] == before + [batch[batchCount - 1]];
        }
        lastRaw := currentRaw;
        totalSamples := Advance(totalSamples, 1);
      }
      CollectedAll(gate, raws, n, armed, lastRaw, batch[..batchCount]);
      StampedBatch(Gated(gate.armed, gate.trigger, gate.prev, raws), startNs, periodNs, sampleRate);
    }
  }

  /** The bytes of whole samples are those samples, and the other bytes the other samples. */
  lemma {:induction false} ReadBack(ss: seq<Sample>, bytes: seq<byte>)
    requires |bytes| % SIZE == 0 && |bytes| <= SIZE * |ss| && bytes == EncodeAll(ss)[..|bytes|]
    ensures DecodeAll(bytes) == ss[..|bytes| / SIZE]
    ensures EncodeAll(ss)[|bytes|..] == EncodeAll(ss[|bytes| / SIZE..])
  {
    hide EncodeAll, DecodeAll;
    EncodePrefix(ss, |bytes|);
    PrefixOfImages(bytes, ss);
  }

  method PutSamples(out: array<Sample>, ss: seq<Sample>)
    requires |ss| <= out.Length
    modifies out
    ensures out[..|ss|] == ss && out[|ss|..] == old(out[|ss|..])
  {
    forall k | 0 <= k < |ss| {
      out[k] := ss[k];
    }
  }

  /** The gate as a batch finds it, and the clock of the batch. */
  datatype Gate = Gate(armed: bool, trigger: Trigger, prev: byte, startNs: uint64, periodNs: uint64)

  /** What the inner loop knows after `n` raw values. */
  ghost predicate Collected(g: Gate, raws: seq<byte>, n: nat, armed: bool, lastRaw: byte, batch: seq<Sample>) {
    && g.trigger.channel < 8 && n <= |raws|
    && batch == Stamped(Gated(g.armed, g.trigger, g.prev, raws[..n]), g.startNs, g.periodNs)
    && armed == StillArmed(g.armed, g.trigger, g.prev, raws[..n])
    && lastRaw == Before(g.prev, raws[..n], n)
  }

  lemma {:induction false} CollectedNothing(g: Gate, raws: seq<byte>)
    requires g.trigger.channel < 8
    ensures Collected(g, raws, 0, g.armed, g.prev, [])
  {
    assert raws[..0] == [];
  }

  /** One more raw value: it is stored unless the gate is closed and stays closed. */
  lemma {:induction false} CollectedNext(g: Gate, raws: seq<byte>, n: nat, armed: bool, lastRaw: byte, batch: seq<Sample>)
    requires Collected(g, raws, n, armed, lastRaw, batch)
    requires |batch| < |Gated(g.armed, g.trigger, g.prev, raws)|
    ensures n < |raws|
    ensures
      var closed := armed && !Matches(g.trigger, lastRaw, raws[n]);
      var x := Sample(StampTime(g.startNs, g.periodNs, |batch|), raws[n]);
      Collected(g, raws, n + 1, closed, raws[n], if closed then batch else batch + [x])
  {
    hide Gated, StillArmed, Before, Matches, Stamped;
    assert raws[..|raws|] == raws;
    assert n < |raws|;
    GatedNext(g.armed, g.trigger, g.prev, raws, n);
    StampedNext(Gated(g.armed, g.trigger, g.prev, raws[..n]), raws[n], g.startNs, g.periodNs);
  }

  /** A full batch uses up its raw values. */
  lemma {:induction false} CollectedAll(g: Gate, raws: seq<byte>, n: nat, armed: bool, lastRaw: byte, batch: seq<Sample>)
    requires Collected(g, raws, n, armed, lastRaw, batch)
    requires 0 < |batch| == |Gated(g.armed, g.trigger, g.prev, raws)|
    ensures n == |raws| && !armed && lastRaw == Before(g.prev, raws, |raws|)
    ensures batch == Stamped(Gated(g.armed, g.trigger, g.prev, raws), g.startNs, g.periodNs)
  {
    hide Gated, StillArmed, Before, Stamped;
    AllConsumed(g.armed, g.trigger, g.prev, raws, n);
  }

  /** The test of the code, with its one-bit mask. */
  method TriggerMatched(t: Trigger, previous: byte, current: byte) returns (matched: bool)
    requires t.channel < 8
    ensures matched == Matches(t, previous, current)
  {
    hide Pow2, And;
    var bitMask := Pow2(t.channel);
    var prevBit := if And(previous, bitMask) != 0 then 1 else 0;
    var currBit := if And(current, bitMask) != 0 then 1 else 0;
    MaskTestsBit(previous, t.channel);
    MaskTestsBit(current, t.channel);
    match t.mode
    case NoTrigger => return true;
    case Rising => return prevBit == 0 && currBit == 1;
    case Falling => return prevBit == 1 && currBit == 0;
    case High => return currBit == 1;
    case Low => return currBit == 0;
  }

  lemma MaskTestsBit(v: byte, channel: nat)
    ensures And(v, Pow2(channel)) != 0 <==> Bit(v, channel) == 1
  {
    AndPow2(v, channel);
  }

  /** The period is the whole number of nanoseconds in a sample, at least ten. */
  lemma {:induction false} PeriodFits(rate: uint32)
    requires 1 <= rate <= MAX_SAMPLE_RATE
    ensures
      var p := PeriodNs(rate);
      10 <= p && p * rate <= BILLION < (p + 1) * rate
  {
    var p := BILLION / rate;
    assert BILLION == p * rate + BILLION % rate;
    if p < 10 {
      MulMono(p + 1, 10, rate);
    }
  }

  /** A ring for whole samples holds a whole number of them, also after rounding up. */
  lemma {:induction false} RoundedAligned(bytes: nat, capacity: nat, order: nat)
    requires 0 < bytes <= capacity && bytes % SIZE == 0 && capacity == Pow2(order)
    ensures capacity % SIZE == 0
  {
    Pow2Values();
    if order < 4 {
      Pow2Monotone(order, 3);
    } else {
      Pow2Add(order - 4, 4);
    }
  }

  /** Sizes in bytes stay multiples of the sample size when they wrap. */
  lemma SizeWraps(n: nat)
    ensures RingBytes(n) % SIZE == 0
  {
    var q := SIZE * n / WORD;
    assert SIZE * n == q * WORD + RingBytes(n);
  }

  lemma SizeKept(n: nat)
    requires SIZE * n < WORD
    ensures RingBytes(n) == SIZE * n
  {
  }

  lemma AdvanceAligned(pos: uint64, n: nat)
    requires pos % SIZE == n % SIZE == 0
    ensures Advance(pos, n) % SIZE == 0
  {
    var q := (pos + n) / WORD;
    assert pos + n == q * WORD + Advance(pos, n);
    assert Advance(pos, n) == SIZE * (pos / SIZE + n / SIZE - q * (WORD / SIZE));
  }

  lemma StampedNext(channels: seq<byte>, x: byte, startNs: uint64, periodNs: uint64)
    ensures Stamped(channels + [x], startNs, periodNs)
         == Stamped(channels, startNs, periodNs) + [Sample(StampTime(startNs, periodNs, |channels|), x)]
  {
  }

  /** One more raw value: it is stored unless the gate is closed and stays closed. */
  lemma {:induction false} GatedNext(armed: bool, t: Trigger, prev: byte, raws: seq<byte>, n: nat)
    requires t.channel < 8 && n < |raws|
    ensures
      var seen, more := raws[..n], raws[..n + 1];
      var closed := StillArmed(armed, t, prev, seen) && !Matches(t, Before(prev, seen, n), raws[n]);
      && Gated(armed, t, prev, more) == (if closed then Gated(armed, t, prev, seen) else Gated(armed, t, prev, seen) + [raws[n]])
      && StillArmed(armed, t, prev, more) == closed
      && Before(prev, more, n + 1) == raws[n]
  {
    hide Matches;
    var seen := raws[..n];
    assert raws[..n + 1] == seen + [raws[n]];
    GatedAppend(armed, t, prev, seen, [raws[n]]);
    OneValue(StillArmed(armed, t, prev, seen), t, Before(prev, seen, n), raws[n]);
  }

  lemma {:induction false} OneValue(armed: bool, t: Trigger, prev: byte, x: byte)
    requires t.channel < 8
    ensures
      var closed := armed && !Matches(t, prev, x);
      && Gated(armed, t, prev, [x]) == (if closed then [] else [x])
      && StillArmed(armed, t, prev, [x]) == closed
  {
    hide Matches;
    assert MatchesAt(t, prev, [x], 0) == Matches(t, prev, x);
    FirstMatchIs(t, prev, [x], if Matches(t, prev, x) then 0 else 1);
  }

  /** When as much as will ever pass has passed, the stream is used up. */
  lemma {:induction false} AllConsumed(armed: bool, t: Trigger, prev: byte, raws: seq<byte>, n: nat)
    requires t.channel < 8 && n <= |raws|
    requires 0 < |Gated(armed, t, prev, raws[..n])| == |Gated(armed, t, prev, raws)|
    ensures n == |raws| && raws[..n] == raws && !StillArmed(armed, t, prev, raws)
  {
    assert raws == raws[..n] + raws[n..];
    GatedAppend(armed, t, prev, raws[..n], raws[n..]);
  }

  /** The smaller of two multiples of the sample size, counted in samples. */
  lemma AlignedMin(bytes: nat, capacity: nat, used: nat)
    requires bytes % SIZE == capacity % SIZE == 0 && SIZE * used <= capacity
    ensures
      var n := Min(bytes, capacity - SIZE * used);
      && n % SIZE == 0
      && n / SIZE == Min(bytes / SIZE, capacity / SIZE - used)
      && (bytes - n) / SIZE == bytes / SIZE - n / SIZE
  {
  }
}
