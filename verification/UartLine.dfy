/**
 An 8N1 line with exact rational bit times, and the exact tolerance of the decoder.
 Time is counted in units of 1 / (rate * baud) seconds: a sample is taken every `baud` units and a bit lasts `rate` units.
 A frame may start at any real time; `WholeUnits` shows that rounding its start up to a whole unit changes no sample.
 */
module UartLine {
  import opened Arith
  import opened Bits
  import opened Protocol
  import opened Machine
  import opened UartDecoder

  datatype Frame = Frame(start: nat, value: byte)

  /** Start bit, eight data bits, least significant first, and stop bit. */
  function FrameBit(value: byte, index: int): bit {
    if 1 <= index <= 8 then LsbBits(value)[index - 1]
    else if index == 0 then 0 else 1
  }

  /** The line at time `t`: high except inside a frame. */
  function LevelAt(frames: seq<Frame>, rate: nat, t: int): bit
    requires rate > 0
  {
    if frames == [] || t < frames[0].start then 1
    else if t < frames[0].start + 10 * rate then FrameBit(frames[0].value, (t - frames[0].start) / rate)
    else LevelAt(frames[1..], rate, t)
  }

  /** No frame starts before the previous one has ended. */
  predicate Spaced(frames: seq<Frame>, rate: nat) {
    forall k :: 0 < k < |frames| ==> frames[k - 1].start + 10 * rate <= frames[k].start
  }

  /** The first sample at or after time `t`. */
  function FirstSample(baud: nat, t: nat): (k: nat)
    requires baud > 0
  {
    (t + baud - 1) / baud
  }

  /**
   `line` samples these frames: the first one starts after the first sample,
   and the stop bit of the last one is sampled before the capture ends.
   */
  ghost predicate Carries(line: seq<bit>, rate: nat, baud: nat, frames: seq<Frame>)
    requires rate >= baud > 0
  {
    && Spaced(frames, rate)
    && (frames != [] ==> 0 < frames[0].start)
    && (forall k :: 0 <= k < |line| ==> line[k] == LevelAt(frames, rate, k * baud))
    && (forall f :: f in frames ==> StopPoint(rate / baud, FirstSample(baud, f.start)) < |line|)
  }

  /** What the decoder should find: each frame at its first low sample, with the byte sent. */
  function Sent(baud: nat, frames: seq<Frame>): seq<Found>
    requires baud > 0
  {
    Map((f: Frame) => Found(FirstSample(baud, f.start), f.value), frames)
  }

  /** The drift of nine bit times stays within half a bit. */
  predicate Tolerant(rate: nat, baud: nat)
    requires baud > 0
  {
    9 * (rate % baud) <= rate / baud / 2 * baud
  }

  /** Every message at every phase is decoded to the frames sent. */
  ghost predicate AlwaysDecodes(rate: nat, baud: nat)
    requires rate >= baud > 0
  {
    forall line, frames :: Carries(line, rate, baud, frames) ==>
      Scan(line, rate / baud, 1) == Sent(baud, frames)
  }

  lemma FirstSampleBounds(baud: nat, t: nat)
    requires baud > 0
    ensures t <= FirstSample(baud, t) * baud < t + baud
  {
    var k := FirstSample(baud, t);
    assert t + baud - 1 == k * baud + (t + baud - 1) % baud;
  }

  /** An edge-free stretch of the line is skipped. */
  lemma {:induction false} SkipHigh(line: seq<bit>, s: nat, i: nat, j: nat)
    requires 1 <= i <= j <= |line|
    requires forall k :: i - 1 <= k < j ==> line[k] == 1
    ensures Scan(line, s, i) == Scan(line, s, j)
    decreases j - i
  {
    if i < j {
      assert line[i] == 1;
      SkipHigh(line, s, i + 1, j);
    }
  }

  /** When a sample of a frame is taken, as bit times less the accumulated rounding. */
  lemma {:induction false} PointTime(rate: nat, baud: nat, first: nat, k: nat)
    requires baud > 0
    ensures SamplePoint(rate / baud, first, k) * baud
         == first * baud + (k + 1) * rate - (k + 1) * (rate % baud) + rate / baud / 2 * baud
  {
    var s, m, n := rate / baud, rate % baud, k + 1;
    Distribute3(first, n * s, s / 2, baud);
    assert n * s * baud == n * (s * baud);
    assert s * baud == rate - m;
    assert n * (rate - m) == n * rate - n * m;
  }

  /** Sample `k` of a frame falls inside bit `k + 1` of it. */
  lemma {:induction false} SampleInBit(rate: nat, baud: nat, start: nat, k: nat)
    requires baud > 0 && rate / baud >= 3 && Tolerant(rate, baud)
    requires k <= 8
    ensures
      var t := SamplePoint(rate / baud, FirstSample(baud, start), k) * baud;
      start + (k + 1) * rate <= t && t + baud <= start + (k + 1) * rate + rate
  {
    hide SamplePoint, FirstSample;
    var first, n, m := FirstSample(baud, start), k + 1, rate % baud;
    PointTime(rate, baud, first, k);
    FirstSampleBounds(baud, start);
    HalfBit(rate, baud);
    MulMono(n, 9, m);
    MulMono(0, n, m);
    Window(SamplePoint(rate / baud, first, k) * baud, start, first * baud,
           n * rate, n * m, rate / baud / 2 * baud, rate, baud);
  }

  lemma {:induction false} SampleIndex(rate: nat, baud: nat, start: nat, k: nat)
    requires baud > 0 && rate / baud >= 3 && Tolerant(rate, baud)
    requires k <= 8
    ensures (SamplePoint(rate / baud, FirstSample(baud, start), k) * baud - start) / rate == k + 1
  {
    hide SamplePoint, FirstSample, Tolerant;
    SampleInBit(rate, baud, start, k);
    assert (k + 1 + 1) * rate == (k + 1) * rate + rate;
    Quotient(SamplePoint(rate / baud, FirstSample(baud, start), k) * baud - start, rate, k + 1);
  }

  lemma Window(t: int, start: int, first: int, bits: int, drift: int, half: int, rate: int, baud: int)
    requires t == first + bits - drift + half
    requires start <= first < start + baud
    requires 0 <= drift <= half && half + 2 * baud <= rate
    ensures start + bits <= t && t + baud <= start + bits + rate
  {
  }

  /** Half a bit and two samples fit in a bit. */
  lemma {:induction false} HalfBit(rate: nat, baud: nat)
    requires baud > 0 && rate / baud >= 3
    ensures rate / baud * baud + rate % baud == rate
    ensures rate / baud / 2 * baud + 2 * baud <= rate / baud * baud
  {
    var s := rate / baud;
    MulMono(s / 2 + 2, s, baud);
    assert (s / 2 + 2) * baud == s / 2 * baud + 2 * baud;
  }

  /** From index `i - 1` on the line shows these frames, none of which has begun before. */
  ghost predicate Shows(line: seq<bit>, rate: nat, baud: nat, frames: seq<Frame>, i: nat)
    requires rate > 0
  {
    && 1 <= i
    && (forall k :: i - 1 <= k < |line| ==> line[k] == LevelAt(frames, rate, k * baud))
    && (frames != [] ==> (i - 1) * baud < frames[0].start)
  }

  /** The scan reaches the falling edge of the next frame. */
  lemma {:induction false} EdgeReached(line: seq<bit>, rate: nat, baud: nat, frames: seq<Frame>, i: nat)
    requires baud > 0 && rate / baud >= 3
    requires frames != [] && frames[0].start > 0 && Shows(line, rate, baud, frames, i)
    requires FirstSample(baud, frames[0].start) < |line|
    ensures
      var first := FirstSample(baud, frames[0].start);
      i <= first && StartEdge(line, first) && Scan(line, rate / baud, i) == Scan(line, rate / baud, first)
  {
    hide FirstSample, LevelAt;
    var start, first := frames[0].start, FirstSample(baud, frames[0].start);
    FirstSampleBounds(baud, start);
    if first < i {
      MulMono(first, i - 1, baud);
    }
    assert first >= 1 && i <= first;
    forall k | i - 1 <= k < first
      ensures line[k] == 1
    {
      HighBefore(line, rate, baud, frames, i, k);
    }
    SkipHigh(line, rate / baud, i, first);
    EdgeLow(line, rate, baud, frames, i);
  }

  lemma {:induction false} HighBefore(line: seq<bit>, rate: nat, baud: nat, frames: seq<Frame>, i: nat, k: nat)
    requires rate > 0 && baud > 0
    requires frames != [] && Shows(line, rate, baud, frames, i)
    requires i - 1 <= k < FirstSample(baud, frames[0].start) && k < |line|
    ensures line[k] == 1
  {
    hide FirstSample;
    FirstSampleBounds(baud, frames[0].start);
    MulMono(k + 1, FirstSample(baud, frames[0].start), baud);
    assert (k + 1) * baud == k * baud + baud;
  }

  lemma {:induction false} EdgeLow(line: seq<bit>, rate: nat, baud: nat, frames: seq<Frame>, i: nat)
    requires baud > 0 && rate / baud >= 3
    requires frames != [] && Shows(line, rate, baud, frames, i)
    requires i <= FirstSample(baud, frames[0].start) < |line|
    ensures line[FirstSample(baud, frames[0].start)] == 0
  {
    hide FirstSample;
    FirstSampleBounds(baud, frames[0].start);
    HalfBit(rate, baud);
    MulMono(0, rate / baud / 2, baud);
    FirstBit(frames, rate, FirstSample(baud, frames[0].start) * baud);
  }

  /** Less than one bit time into a frame the line is low. */
  lemma FirstBit(frames: seq<Frame>, rate: nat, t: int)
    requires rate > 0 && frames != [] && frames[0].start <= t < frames[0].start + rate
    ensures LevelAt(frames, rate, t) == 0
  {
    Quotient(t - frames[0].start, rate, 0);
  }

  /** Half a bit after the edge the start bit is still there. */
  lemma {:induction false} StartConfirmed(line: seq<bit>, rate: nat, baud: nat, frames: seq<Frame>, i: nat)
    requires baud > 0 && rate / baud >= 3
    requires frames != [] && frames[0].start > 0 && Shows(line, rate, baud, frames, i)
    requires i <= FirstSample(baud, frames[0].start)
    requires FirstSample(baud, frames[0].start) + rate / baud / 2 < |line|
    ensures line[FirstSample(baud, frames[0].start) + rate / baud / 2] == 0
  {
    hide FirstSample;
    var first, half := FirstSample(baud, frames[0].start), rate / baud / 2;
    FirstSampleBounds(baud, frames[0].start);
    HalfBit(rate, baud);
    assert (first + half) * baud == first * baud + half * baud;
    MulMono(0, half, baud);
    FirstBit(frames, rate, (first + half) * baud);
  }

  /** Data and stop bits are read as sent. */
  lemma {:induction false} BitRead(line: seq<bit>, rate: nat, baud: nat, frames: seq<Frame>, i: nat, k: nat)
    requires baud > 0 && rate / baud >= 3 && Tolerant(rate, baud)
    requires frames != [] && frames[0].start > 0 && Shows(line, rate, baud, frames, i)
    requires i <= FirstSample(baud, frames[0].start) && k <= 8
    requires SamplePoint(rate / baud, FirstSample(baud, frames[0].start), k) < |line|
    ensures line[SamplePoint(rate / baud, FirstSample(baud, frames[0].start), k)] == FrameBit(frames[0].value, k + 1)
  {
    hide FirstSample, SamplePoint, Tolerant, LevelAt, FrameBit;
    var start := frames[0].start;
    var point := SamplePoint(rate / baud, FirstSample(baud, start), k);
    PointsStep(rate / baud, FirstSample(baud, start), k);
    SampleInBit(rate, baud, start, k);
    SampleIndex(rate, baud, start, k);
    MulMono(0, k + 1, rate);
    MulMono(k + 1, 9, rate);
    InFrame(frames, rate, point * baud);
  }

  lemma InFrame(frames: seq<Frame>, rate: nat, t: int)
    requires rate > 0 && frames != [] && frames[0].start <= t < frames[0].start + 10 * rate
    ensures LevelAt(frames, rate, t) == FrameBit(frames[0].value, (t - frames[0].start) / rate)
  {
  }

  /** One frame is found where it starts, with the byte sent. */
  lemma {:induction false} FrameRead(line: seq<bit>, rate: nat, baud: nat, frames: seq<Frame>, i: nat)
    requires baud > 0 && rate / baud >= 3 && Tolerant(rate, baud)
    requires frames != [] && frames[0].start > 0 && Shows(line, rate, baud, frames, i)
    requires StopPoint(rate / baud, FirstSample(baud, frames[0].start)) < |line|
    ensures
      var s, first := rate / baud, FirstSample(baud, frames[0].start);
      && i <= first
      && Scan(line, s, i) == [Found(first, frames[0].value)] + Scan(line, s, StopPoint(s, first) + 1)
  {
    hide FirstSample, SamplePoint, Tolerant, Shows, LevelAt;
    var s, first, value := rate / baud, FirstSample(baud, frames[0].start), frames[0].value;
    PointsStep(s, first, 8);
    EdgeReached(line, rate, baud, frames, i);
    StartConfirmed(line, rate, baud, frames, i);
    PointsIncrease(s, first, 7, 8);
    forall k | 0 <= k < 8
      ensures SamplePoint(s, first, k) < |line| && DataBits(line, s, first, 8)[k] == LsbBits(value)[k]
    {
      PointsIncrease(s, first, k, 8);
      BitRead(line, rate, baud, frames, i, k);
    }
    assert DataBits(line, s, first, 8) == LsbBits(value);
    LsbRoundTrip(value);
    BitRead(line, rate, baud, frames, i, 8);
    ScanStep(line, s, first);
  }

  /** After the stop bit of a frame the line shows the remaining frames. */
  lemma {:induction false} NextShown(line: seq<bit>, rate: nat, baud: nat, frames: seq<Frame>, i: nat)
    requires baud > 0 && rate / baud >= 3 && Tolerant(rate, baud)
    requires frames != [] && frames[0].start > 0 && Shows(line, rate, baud, frames, i) && Spaced(frames, rate)
    requires i <= FirstSample(baud, frames[0].start)
    ensures Shows(line, rate, baud, frames[1..], StopPoint(rate / baud, FirstSample(baud, frames[0].start)) + 1)
  {
    hide FirstSample, SamplePoint, Tolerant, LevelAt;
    var start, rest := frames[0].start, frames[1..];
    var stop := StopPoint(rate / baud, FirstSample(baud, start));
    PointsStep(rate / baud, FirstSample(baud, start), 8);
    SampleInBit(rate, baud, start, 8);
    assert rest != [] ==> rest[0].start >= start + 10 * rate;
    forall k | stop <= k < |line|
      ensures line[k] == LevelAt(rest, rate, k * baud)
    {
      MulMono(stop, k, baud);
      StopThenRest(frames, rate, k * baud);
    }
  }

  /** From the stop bit on, the line is that of the remaining frames. */
  lemma {:induction false} StopThenRest(frames: seq<Frame>, rate: nat, t: int)
    requires rate > 0 && frames != [] && Spaced(frames, rate)
    requires t >= frames[0].start + 9 * rate
    ensures LevelAt(frames, rate, t) == LevelAt(frames[1..], rate, t)
  {
    if t < frames[0].start + 10 * rate {
      Quotient(t - frames[0].start, rate, 9);
    }
  }

  lemma {:induction false} FramesRead(line: seq<bit>, rate: nat, baud: nat, frames: seq<Frame>, i: nat)
    requires baud > 0 && rate / baud >= 3 && Tolerant(rate, baud)
    requires Shows(line, rate, baud, frames, i) && Spaced(frames, rate)
    requires (frames != [] ==> frames[0].start > 0)
    requires forall f :: f in frames ==> StopPoint(rate / baud, FirstSample(baud, f.start)) < |line|
    ensures Scan(line, rate / baud, i) == Sent(baud, frames)
    decreases |frames|
  {
    hide FirstSample, SamplePoint, Tolerant, LevelAt;
    var s := rate / baud;
    if frames == [] {
      if i < |line| {
        NoFrames(line, rate, baud, i);
      }
    } else {
      var first := FirstSample(baud, frames[0].start);
      FrameRead(line, rate, baud, frames, i);
      NextShown(line, rate, baud, frames, i);
      FramesRead(line, rate, baud, frames[1..], StopPoint(s, first) + 1);
      assert Sent(baud, frames) == [Found(first, frames[0].value)] + Sent(baud, frames[1..]);
    }
  }

  lemma {:induction false} NoFrames(line: seq<bit>, rate: nat, baud: nat, i: nat)
    requires rate > 0 && baud > 0 && Shows(line, rate, baud, [], i) && i < |line|
    ensures Scan(line, rate / baud, i) == []
  {
    SkipHigh(line, rate / baud, i, |line|);
  }

  /** A line that never falls again holds no frame. */
  lemma {:induction false} NoMoreEdges(line: seq<bit>, s: nat, i: nat)
    requires forall k :: i <= k < |line| && k >= 1 && line[k - 1] == 1 ==> line[k] == 1
    ensures Scan(line, s, i) == []
    decreases |line| - i
  {
    if i < |line| {
      NoMoreEdges(line, s, i + 1);
    }
  }

  /** The byte 0 sent on a sample instant, sampled until just after its end. */
  function ZeroLine(rate: nat, baud: nat): (line: seq<bit>)
    requires rate >= baud > 0
  {
    seq(StopPoint(rate / baud, 1) + 2, k requires 0 <= k => LevelAt([Frame(baud, 0)], rate, k * baud))
  }

  lemma {:induction false} ZeroLevel(rate: nat, baud: nat, k: nat)
    requires rate >= baud > 0
    ensures LevelAt([Frame(baud, 0)], rate, k * baud) == if 1 <= k && k * baud < baud + 9 * rate then 0 else 1
  {
    var t := k * baud - baud;
    assert t == (k - 1) * baud;
    Pow2Values();
    if k >= 1 {
      MulMono(0, k - 1, baud);
      if t < 10 * rate {
        IndexInFrame(t, rate);
      }
    }
  }

  lemma IndexInFrame(t: nat, rate: nat)
    requires rate > 0 && t < 10 * rate
    ensures t / rate <= 9
    ensures t < 9 * rate <==> t / rate < 9
  {
    assert t == t / rate * rate + t % rate;
    if t / rate >= 9 {
      MulMono(9, t / rate, rate);
    } else {
      MulMono(t / rate, 8, rate);
    }
    if t / rate > 9 {
      MulMono(10, t / rate, rate);
    }
  }

  lemma {:induction false} ZeroCarried(rate: nat, baud: nat)
    requires baud > 0 && rate / baud >= 3
    ensures rate >= baud && Carries(ZeroLine(rate, baud), rate, baud, [Frame(baud, 0)])
    ensures FirstSample(baud, baud) == 1
  {
    hide SamplePoint;
    HalfBit(rate, baud);
    MulMono(0, rate / baud / 2, baud);
    assert FirstSample(baud, baud) == 1 by {
      Quotient(2 * baud - 1, baud, 1);
    }
  }

  /** Beyond the tolerance the stop bit of a zero byte is sampled too early, and the byte is lost. */
  lemma {:induction false} ZeroLost(rate: nat, baud: nat)
    requires rate >= baud > 0 && rate / baud >= 3 && !Tolerant(rate, baud)
    ensures Scan(ZeroLine(rate, baud), rate / baud, 1) == []
  {
    hide LevelAt, SamplePoint;
    var line, s := ZeroLine(rate, baud), rate / baud;
    var stop := StopPoint(s, 1);
    PointsStep(s, 1, 8);
    ZeroLevels(rate, baud);
    PointTime(rate, baud, 1, 8);
    assert line[stop] == 0;
    forall k | stop < k < |line| && line[k - 1] == 1
      ensures line[k] == 1
    {
      MulMono(k - 1, k, baud);
    }
    NoMoreEdges(line, s, stop + 1);
    var half := s / 2;
    MulMono(1 + half, stop, baud);
    MulMono(1, 1 + half, baud);
    ScanStep(line, s, 1);
  }

  lemma {:induction false} ZeroLevels(rate: nat, baud: nat)
    requires rate >= baud > 0
    ensures
      var line := ZeroLine(rate, baud);
      forall k :: 0 <= k < |line| ==> line[k] == if 1 <= k && k * baud < baud + 9 * rate then 0 else 1
  {
    hide LevelAt, SamplePoint;
    var line := ZeroLine(rate, baud);
    forall k | 0 <= k < |line|
      ensures line[k] == if 1 <= k && k * baud < baud + 9 * rate then 0 else 1
    {
      ZeroLevel(rate, baud, k);
    }
  }

  /** With at least three samples a bit, every message is decoded exactly when the drift is within tolerance. */
  lemma {:induction false} ExactTolerance(rate: nat, baud: nat)
    requires baud > 0 && rate / baud >= 3
    ensures rate >= baud
    ensures AlwaysDecodes(rate, baud) <==> Tolerant(rate, baud)
  {
    hide Carries, Tolerant, Scan, FirstSample;
    assert rate >= baud by {
      HalfBit(rate, baud);
      MulMono(0, rate / baud / 2, baud);
    }
    if Tolerant(rate, baud) {
      forall line, frames | Carries(line, rate, baud, frames)
        ensures Scan(line, rate / baud, 1) == Sent(baud, frames)
      {
        RoundTrip(line, rate, baud, frames);
      }
    } else {
      ZeroCarried(rate, baud);
      ZeroLost(rate, baud);
      assert |Sent(baud, [Frame(baud, 0)])| == 1;
    }
  }

  lemma {:induction false} RoundTrip(line: seq<bit>, rate: nat, baud: nat, frames: seq<Frame>)
    requires rate >= baud > 0 && rate / baud >= 3 && Tolerant(rate, baud)
    requires Carries(line, rate, baud, frames)
    ensures Scan(line, rate / baud, 1) == Sent(baud, frames)
  {
    hide FirstSample, SamplePoint, Tolerant, LevelAt;
    FramesRead(line, rate, baud, frames, 1);
  }

  /** Eighteen samples a bit are always enough, and so is a whole number of samples, three or more. */
  lemma {:induction false} EnoughSamples(rate: nat, baud: nat)
    requires baud > 0 && rate / baud >= 3
    requires rate / baud >= 18 || rate % baud == 0
    ensures rate >= baud && AlwaysDecodes(rate, baud)
  {
    ExactTolerance(rate, baud);
    MulMono(if rate / baud >= 18 then 9 else 0, rate / baud / 2, baud);
  }

  /**
   The events a capture of these frames should give: one for each, with the byte sent and the time of the first
   sample that shows the frame.
   */
  ghost predicate EventsOf(events: seq<Event>, samples: seq<Sample>, baud: nat, frames: seq<Frame>)
    requires baud > 0
  {
    && |events| == |frames|
    && forall k :: 0 <= k < |frames| ==>
         && FirstSample(baud, frames[k].start) < |samples|
         && events[k].kind == Uart
         && events[k].timestamp == samples[FirstSample(baud, frames[k].start)].timestamp
         && events[k].value0 == frames[k].value
         && events[k].value1 == 0
  }

  /** The same for the events of a capture on any channel, whatever the other channels and the clock show. */
  lemma {:induction false} CaptureRoundTrip(samples: seq<Sample>, cfg: Config, frames: seq<Frame>)
    requires cfg.rxChannel < 8 && 0 < cfg.baudrate <= cfg.sampleRate && cfg.sampleRate / cfg.baudrate >= 3
    requires Tolerant(cfg.sampleRate, cfg.baudrate)
    requires Carries(Lane(samples, cfg.rxChannel), cfg.sampleRate, cfg.baudrate, frames)
    ensures EventsOf(UartDecoder.Events(samples, cfg), samples, cfg.baudrate, frames)
  {
    hide Carries, Tolerant, Scan, FirstSample, Bit;
    RoundTrip(Lane(samples, cfg.rxChannel), cfg.sampleRate, cfg.baudrate, frames);
    FramesInside(samples, cfg);
    assert UartDecoder.Frames(samples, cfg) == Sent(cfg.baudrate, frames);
    forall k | 0 <= k < |frames|
      ensures Sent(cfg.baudrate, frames)[k] in UartDecoder.Frames(samples, cfg)
    {
    }
  }

  datatype RealFrame = RealFrame(start: real, value: byte)

  /** The line at time `t` when frames start at real times. */
  ghost function RealLevel(frames: seq<RealFrame>, rate: nat, t: int): bit
    requires rate > 0
  {
    if frames == [] || t as real < frames[0].start then 1
    else if t as real < frames[0].start + (10 * rate) as real then
      FrameBit(frames[0].value, ((t as real - frames[0].start) / rate as real).Floor)
    else RealLevel(frames[1..], rate, t)
  }

  function Ceiling(x: real): int {
    -((-x).Floor)
  }

  function RoundUp(f: RealFrame): Frame
    requires f.start >= 0.0
  {
    Frame(Ceiling(f.start), f.value)
  }

  function RoundAllUp(frames: seq<RealFrame>): (r: seq<Frame>)
    requires forall f :: f in frames ==> f.start >= 0.0
    ensures |r| == |frames|
  {
    if frames == [] then [] else [RoundUp(frames[0])] + RoundAllUp(frames[1..])
  }

  lemma FloorOfQuotient(x: real, d: nat, q: int)
    requires d > 0 && (q * d) as real <= x < ((q + 1) * d) as real
    ensures (x / d as real).Floor == q
  {
    var y := x / d as real;
    assert y * d as real == x;
    assert (q * d) as real == q as real * d as real;
    assert ((q + 1) * d) as real == (q + 1) as real * d as real;
    assert q as real <= y;
    assert y < (q + 1) as real;
  }

  lemma CeilingCompare(x: real, n: int)
    ensures n as real < x <==> n < Ceiling(x)
  {
  }

  lemma {:induction false} IndexRounded(x: real, t: int, rate: nat)
    requires rate > 0 && Ceiling(x) <= t
    ensures ((t as real - x) / rate as real).Floor == (t - Ceiling(x)) / rate
  {
    var q := (t - Ceiling(x)) / rate;
    assert q * rate <= t - Ceiling(x) < q * rate + rate;
    assert (q + 1) * rate == q * rate + rate;
    CeilingCompare(x, t - (q + 1) * rate);
    FloorOfQuotient(t as real - x, rate, q);
  }

  /** Every sample instant sees the same level when each start is rounded up to a whole unit. */
  lemma {:induction false} WholeUnits(frames: seq<RealFrame>, rate: nat, t: int)
    requires rate > 0 && forall f :: f in frames ==> f.start >= 0.0
    ensures RealLevel(frames, rate, t) == LevelAt(RoundAllUp(frames), rate, t)
    decreases |frames|
  {
    hide Ceiling, FrameBit;
    if frames != [] {
      var x := frames[0].start;
      WholeUnits(frames[1..], rate, t);
      CeilingCompare(x, t);
      CeilingCompare(x, t - 10 * rate);
      if Ceiling(x) <= t {
        IndexRounded(x, t, rate);
      }
    }
  }

  /** Rounding keeps the frames apart and the first one after the first sample. */
  lemma {:induction false} RoundedSpaced(frames: seq<RealFrame>, rate: nat)
    requires forall f :: f in frames ==> f.start >= 0.0
    requires forall k :: 0 < k < |frames| ==> frames[k - 1].start + (10 * rate) as real <= frames[k].start
    ensures Spaced(RoundAllUp(frames), rate)
    ensures frames != [] && frames[0].start > 0.0 ==> RoundAllUp(frames)[0].start > 0
    decreases |frames|
  {
    if |frames| > 1 {
      var rest := frames[1..];
      RoundedSpaced(rest, rate);
      CeilingCompare(frames[1].start, Ceiling(frames[0].start) + 10 * rate - 1);
      var all := RoundAllUp(frames);
      forall k | 0 < k < |all|
        ensures all[k - 1].start + 10 * rate <= all[k].start
      {
        if k > 1 {
          assert all[k] == RoundAllUp(rest)[k - 1] && all[k - 1] == RoundAllUp(rest)[k - 2];
        }
      }
    }
  }

  /** Frames sent at any real times are found in a capture, each at its first low sample. */
  lemma {:induction false} RealRoundTrip(samples: seq<Sample>, cfg: Config, frames: seq<RealFrame>)
    requires cfg.rxChannel < 8 && 0 < cfg.baudrate <= cfg.sampleRate && cfg.sampleRate / cfg.baudrate >= 3
    requires Tolerant(cfg.sampleRate, cfg.baudrate)
    requires forall f :: f in frames ==> f.start > 0.0
    requires forall k :: 0 < k < |frames| ==> frames[k - 1].start + (10 * cfg.sampleRate) as real <= frames[k].start
    requires
      var line := Lane(samples, cfg.rxChannel);
      forall k :: 0 <= k < |line| ==> line[k] == RealLevel(frames, cfg.sampleRate, k * cfg.baudrate)
    requires forall f :: f in frames ==>
               StopPoint(cfg.sampleRate / cfg.baudrate, FirstSample(cfg.baudrate, Ceiling(f.start))) < |samples|
    ensures EventsOf(UartDecoder.Events(samples, cfg), samples, cfg.baudrate, RoundAllUp(frames))
    ensures forall k :: 0 <= k < |frames| ==> UartDecoder.Events(samples, cfg)[k].value0 == frames[k].value
  {
    hide FirstSample, SamplePoint, Tolerant, LevelAt, RealLevel, Ceiling, Bit;
    var rounded := RoundAllUp(frames);
    var line := Lane(samples, cfg.rxChannel);
    RoundedSpaced(frames, cfg.sampleRate);
    RoundedFrom(frames);
    forall k | 0 <= k < |line|
      ensures line[k] == LevelAt(rounded, cfg.sampleRate, k * cfg.baudrate)
    {
      WholeUnits(frames, cfg.sampleRate, k * cfg.baudrate);
    }
    CaptureRoundTrip(samples, cfg, rounded);
  }

  lemma {:induction false} RoundedFrom(frames: seq<RealFrame>)
    requires forall f :: f in frames ==> f.start >= 0.0
    ensures forall k :: 0 <= k < |frames| ==> RoundAllUp(frames)[k] == RoundUp(frames[k])
    decreases |frames|
  {
    if frames != [] {
      RoundedFrom(frames[1..]);
    }
  }
}
