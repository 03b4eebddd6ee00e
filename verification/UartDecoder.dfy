/** The UART decoder: a jumping loop with early exits, proved against a scan of the line that never stops early. */
module UartDecoder {
  import opened Bits
  import opened Protocol

  datatype Config = Config(rxChannel: byte, baudrate: uint32, sampleRate: uint32)

  /** A frame on the line: the index of its first low sample and the byte read from it. */
  datatype Found = Found(start: nat, value: nat)

  predicate StartEdge(line: seq<bit>, i: nat) {
    1 <= i < |line| && line[i - 1] == 1 && line[i] == 0
  }

  /** Where data bit `k` is sampled; bit 8 is the stop bit. */
  function SamplePoint(s: nat, start: nat, k: nat): nat {
    start + (k + 1) * s + s / 2
  }

  function StopPoint(s: nat, start: nat): nat {
    SamplePoint(s, start, 8)
  }

  /** An edge whose start bit is still low half a bit later, with the whole frame in the line. */
  predicate FrameAt(line: seq<bit>, s: nat, i: nat) {
    StartEdge(line, i) && StopPoint(s, i) < |line| && line[i + s / 2] == 0
  }

  lemma {:induction false} PointsIncrease(s: nat, start: nat, j: nat, k: nat)
    requires j <= k
    ensures SamplePoint(s, start, j) <= SamplePoint(s, start, k)
  {
    assert (k - j) * s >= 0;
  }

  lemma PointsStep(s: nat, start: nat, k: nat)
    ensures SamplePoint(s, start, k) >= start + s / 2
    ensures SamplePoint(s, start, k) + s == SamplePoint(s, start, k + 1)
  {
    assert (k + 1) * s >= 0;
    assert (k + 2) * s == (k + 1) * s + s;
  }

  /** The first `n` data bits of a frame. */
  function DataBits(line: seq<bit>, s: nat, i: nat, n: nat): (bits: seq<bit>)
    requires n == 0 || SamplePoint(s, i, n - 1) < |line|
    ensures |bits| == n
  {
    seq(n, k requires 0 <= k < n =>
      PointsIncrease(s, i, k, n - 1);
      line[SamplePoint(s, i, k)])
  }

  function Value(line: seq<bit>, s: nat, i: nat): nat
    requires StopPoint(s, i) < |line|
  {
    PointsIncrease(s, i, 7, 8);
    LsbFirst(DataBits(line, s, i, 8))
  }

  /** The frames from index `i` on: every candidate is examined, also after one that the line cuts off. */
  function Scan(line: seq<bit>, s: nat, i: nat): seq<Found>
    decreases |line| - i
  {
    if i >= |line| then []
    else if FrameAt(line, s, i) then
      (if line[StopPoint(s, i)] == 1 then [Found(i, Value(line, s, i))] else [])
      + Scan(line, s, StopPoint(s, i) + 1)
    else Scan(line, s, i + 1)
  }

  predicate ValidConfig(cfg: Config) {
    cfg.baudrate != 0 && cfg.sampleRate != 0 && cfg.rxChannel < 8 && cfg.sampleRate / cfg.baudrate >= 3
  }

  function Stamp(samples: seq<Sample>, f: Found): Event
    requires f.start < |samples|
  {
    Event(Uart, samples[f.start].timestamp, f.value, 0)
  }

  /** All the frames in a capture, with no limit on their number. */
  function Frames(samples: seq<Sample>, cfg: Config): seq<Found> {
    if ValidConfig(cfg) then Scan(Lane(samples, cfg.rxChannel), cfg.sampleRate / cfg.baudrate, 1) else []
  }

  /** All the events in a capture, with no limit on their number. */
  function Events(samples: seq<Sample>, cfg: Config): (es: seq<Event>)
    ensures |es| == |Frames(samples, cfg)|
  {
    FramesInside(samples, cfg);
    var found := Frames(samples, cfg);
    seq(|found|, k requires 0 <= k < |found| => Stamp(samples, found[k]))
  }

  lemma {:induction false} FramesInside(samples: seq<Sample>, cfg: Config)
    ensures forall f :: f in Frames(samples, cfg) ==> f.start < |samples|
  {
    hide Scan;
    if ValidConfig(cfg) {
      FramesGenuine(Lane(samples, cfg.rxChannel), cfg.sampleRate / cfg.baudrate, 1);
    }
  }

  /** No frame fits from here on, so leaving the loop loses nothing. */
  lemma {:induction false} CutOff(line: seq<bit>, s: nat, i: nat)
    requires StopPoint(s, i) >= |line|
    ensures Scan(line, s, i) == []
    decreases |line| - i
  {
    if i < |line| {
      CutOff(line, s, i + 1);
    }
  }

  /** One candidate, or its absence, in terms of the loop's own tests. */
  lemma {:induction false} ScanStep(line: seq<bit>, s: nat, i: nat)
    requires i < |line|
    ensures FrameAt(line, s, i) && line[StopPoint(s, i)] == 1 ==>
              Scan(line, s, i) == [Found(i, Value(line, s, i))] + Scan(line, s, StopPoint(s, i) + 1)
    ensures FrameAt(line, s, i) && line[StopPoint(s, i)] == 0 ==>
              Scan(line, s, i) == Scan(line, s, StopPoint(s, i) + 1)
    ensures !FrameAt(line, s, i) ==> Scan(line, s, i) == Scan(line, s, i + 1)
  {
  }

  /** The data bits of one frame, unless the capture ends first. */
  method ReadBits(samples: seq<Sample>, channel: byte, s: nat, start: nat)
    returns (value: byte, samplePos: nat, bitIndex: nat)
    requires channel < 8
    ensures bitIndex <= 8 && samplePos == SamplePoint(s, start, bitIndex)
    ensures bitIndex < 8 ==> samplePos >= |samples|
    ensures bitIndex == 8 && StopPoint(s, start) < |samples| ==> value == Value(Lane(samples, channel), s, start)
  {
    hide Bit, LsbFirst;
    ghost var line := Lane(samples, channel);
    value, samplePos, bitIndex := 0, start + s + s / 2, 0;
    while bitIndex < 8
      invariant bitIndex <= 8 && samplePos == SamplePoint(s, start, bitIndex)
      invariant bitIndex == 0 || SamplePoint(s, start, bitIndex - 1) < |samples|
      invariant value == LsbFirst(DataBits(line, s, start, bitIndex))
    {
      if samplePos >= |samples| {
        break;
      }
      OneMoreBit(line, s, start, bitIndex);
      value := value + Bit(samples[samplePos].channels, channel) * Pow2(bitIndex);
      PointsStep(s, start, bitIndex);
      samplePos := samplePos + s;
      bitIndex := bitIndex + 1;
    }
  }

  lemma {:induction false} OneMoreBit(line: seq<bit>, s: nat, start: nat, n: nat)
    requires n < 8 && SamplePoint(s, start, n) < |line|
    requires n == 0 || SamplePoint(s, start, n - 1) < |line|
    ensures LsbFirst(DataBits(line, s, start, n + 1))
         == LsbFirst(DataBits(line, s, start, n)) + line[SamplePoint(s, start, n)] * Pow2(n) < 0x100
  {
    hide SamplePoint;
    var bits := DataBits(line, s, start, n + 1);
    assert bits[..n] == DataBits(line, s, start, n);
    Pow2Monotone(n + 1, 8);
    Pow2Values();
  }

  method Decode(samples: seq<Sample>, cfg: Config, events: array<Event>, maxEvents: nat) returns (eventCount: nat)
    requires maxEvents <= events.Length
    modifies events
    ensures eventCount == Min(maxEvents, |Events(samples, cfg)|)
    ensures events[..eventCount] == Events(samples, cfg)[..eventCount]
    ensures cfg.baudrate == 0 || cfg.sampleRate == 0 || cfg.rxChannel >= 8 || cfg.sampleRate / cfg.baudrate < 3 ==>
              eventCount == 0
    ensures forall k :: eventCount <= k < events.Length ==> events[k] == old(events[k])
  {
    hide Bit, Scan, LsbFirst;
    eventCount := 0;
    if maxEvents == 0 || cfg.baudrate == 0 || cfg.sampleRate == 0 {
      return;
    }
    if cfg.rxChannel >= 8 {
      return;
    }
    var s := cfg.sampleRate / cfg.baudrate;
    if s < 3 {
      return;
    }
    ghost var line := Lane(samples, cfg.rxChannel);
    ghost var all := Scan(line, s, 1);
    var i := 1;
    while i < |samples| && eventCount < maxEvents
      invariant 1 <= i
      invariant eventCount <= |all|
      invariant eventCount <= maxEvents
      invariant all[eventCount..] == Scan(line, s, i)
      invariant forall k :: 0 <= k < eventCount ==> all[k].start < |samples| && events[k] == Stamp(samples, all[k])
      invariant forall k :: eventCount <= k < events.Length ==> events[k] == old(events[k])
      decreases |samples| - i
    {
      var prev, curr := Bit(samples[i - 1].channels, cfg.rxChannel), Bit(samples[i].channels, cfg.rxChannel);
      ScanStep(line, s, i);
      if prev == 1 && curr == 0 {
        var startIndex := i;
        if startIndex + s / 2 >= |samples| {
          CutOff(line, s, i);
          break;
        }
        if Bit(samples[startIndex + s / 2].channels, cfg.rxChannel) != 0 {
          i := i + 1;
          continue;
        }
        var value, samplePos, bitIndex := ReadBits(samples, cfg.rxChannel, s, startIndex);
        if bitIndex < 8 || samplePos >= |samples| {
          PointsIncrease(s, i, bitIndex, 8);
          CutOff(line, s, i);
          break;
        }
        if Bit(samples[samplePos].channels, cfg.rxChannel) == 1 {
          assert all[eventCount] == Scan(line, s, i)[0];
          events[eventCount] := Event(Uart, samples[startIndex].timestamp, value, 0);
          eventCount := eventCount + 1;
          assert all[eventCount..] == Scan(line, s, i)[1..];
        }
        i := samplePos + 1;
        continue;
      }
      i := i + 1;
    }
    if i >= |samples| {
      CutOff(line, s, i);
    }
  }

  /** `f` is a frame of the line, with its stop bit high. */
  ghost predicate Genuine(line: seq<bit>, s: nat, f: Found) {
    FrameAt(line, s, f.start) && line[StopPoint(s, f.start)] == 1 && f.value == Value(line, s, f.start)
  }

  /** The frames start at `from` or later and each one starts after the stop bit of those before it. */
  ghost predicate Disjoint(s: nat, found: seq<Found>, from: nat) {
    && (forall k :: 0 <= k < |found| ==> from <= found[k].start)
    && (forall j, k :: 0 <= j < k < |found| ==> StopPoint(s, found[j].start) < found[k].start)
  }

  /** Only genuine frames are reported, and they occupy increasing disjoint ranges of samples. */
  lemma {:induction false} FramesGenuine(line: seq<bit>, s: nat, i: nat)
    ensures forall f :: f in Scan(line, s, i) ==> Genuine(line, s, f)
    ensures Disjoint(s, Scan(line, s, i), i)
    decreases |line| - i
  {
    hide SamplePoint, Value;
    PointsStep(s, i, 8);
    if i < |line| {
      FramesGenuine(line, s, if FrameAt(line, s, i) then StopPoint(s, i) + 1 else i + 1);
    }
  }

  /** A frame is missed only when it starts inside an earlier candidate. */
  lemma {:induction false} FramesComplete(line: seq<bit>, s: nat, i: nat, start: nat)
    requires i <= start && FrameAt(line, s, start) && line[StopPoint(s, start)] == 1
    ensures Found(start, Value(line, s, start)) in Scan(line, s, i)
            || exists c :: i <= c < start <= StopPoint(s, c) && FrameAt(line, s, c)
    decreases |line| - i
  {
    if FrameAt(line, s, i) {
      if i < start && StopPoint(s, i) < start {
        FramesComplete(line, s, StopPoint(s, i) + 1, start);
      }
    } else {
      FramesComplete(line, s, i + 1, start);
    }
  }

  /** Frames of a shorter capture are the first frames of a longer one. */
  lemma {:induction false} ScanPrefix(line: seq<bit>, s: nat, i: nat, n: nat)
    requires n <= |line|
    ensures Scan(line[..n], s, i) <= Scan(line, s, i)
    decreases |line| - i
  {
    hide SamplePoint, LsbFirst;
    PointsStep(s, i, 8);
    if i < n && StopPoint(s, i) < n {
      ScanPrefix(line, s, if FrameAt(line, s, i) then StopPoint(s, i) + 1 else i + 1, n);
      if FrameAt(line, s, i) {
        PointsIncrease(s, i, 7, 8);
        forall k | 0 <= k < 8
          ensures SamplePoint(s, i, k) < n
        {
          PointsIncrease(s, i, k, 8);
        }
        assert DataBits(line[..n], s, i, 8) == DataBits(line, s, i, 8);
      }
    } else {
      CutOff(line[..n], s, i);
    }
  }

  lemma {:induction false} PrefixMonotone(samples: seq<Sample>, cfg: Config, n: nat)
    requires n <= |samples|
    ensures Frames(samples[..n], cfg) <= Frames(samples, cfg)
    ensures Events(samples[..n], cfg) <= Events(samples, cfg)
  {
    hide Scan, Bit;
    if ValidConfig(cfg) {
      assert Lane(samples[..n], cfg.rxChannel) == Lane(samples, cfg.rxChannel)[..n];
      ScanPrefix(Lane(samples, cfg.rxChannel), cfg.sampleRate / cfg.baudrate, 1, n);
    }
    FramesInside(samples[..n], cfg);
  }
}
