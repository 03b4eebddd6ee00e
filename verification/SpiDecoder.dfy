/** The SPI decoder: a loop over samples, proved against a machine that keeps the bit pairs of the current byte. */
module SpiDecoder {
  import opened Bits
  import opened Protocol
  import opened Machine

  datatype Config = Config(clkChannel: byte, csChannel: byte, mosiChannel: byte, misoChannel: byte, cpol: byte, cpha: byte)

  datatype Pins = Pins(clk: bit, cs: bit, mosi: bit, miso: bit)

  /** The clock level last seen and the bits of the current byte pair. */
  datatype State = State(clk: bit, mosi: seq<bit>, miso: seq<bit>)

  function Idle(cfg: Config): bit {
    if cfg.cpol != 0 then 1 else 0
  }

  predicate OnRising(cfg: Config) {
    (cfg.cpha == 0 && cfg.cpol == 0) || (cfg.cpha == 1 && cfg.cpol == 1)
  }

  predicate Edge(cfg: Config, prev: bit, clk: bit) {
    if OnRising(cfg) then prev == 0 && clk == 1 else prev == 1 && clk == 0
  }

  /** A polarity that is neither 0 nor 1 together with phase 1: every edge is skipped. */
  predicate Dead(cfg: Config) {
    cfg.cpha == 1 && cfg.cpol > 1
  }

  predicate Samples(cfg: Config, prev: bit, clk: bit) {
    Edge(cfg, prev, clk) && !Dead(cfg)
  }

  function Step(cfg: Config): (State, Pins) -> (State, seq<Word>) {
    (s: State, p: Pins) =>
      if p.cs == 1 then (State(p.clk, [], []), [])
      else if !Samples(cfg, s.clk, p.clk) then (State(p.clk, s.mosi, s.miso), [])
      else
        var mosi, miso := s.mosi + [p.mosi], s.miso + [p.miso];
        if |mosi| == 8 then (State(p.clk, [], []), [Word(MsbFirst(mosi), MsbFirst(miso))])
        else (State(p.clk, mosi, miso), [])
  }

  function PinsOf(cfg: Config, x: Sample): Pins {
    Pins(Bit(x.channels, cfg.clkChannel), Bit(x.channels, cfg.csChannel),
         Bit(x.channels, cfg.mosiChannel), Bit(x.channels, cfg.misoChannel))
  }

  function Stamp(timestamp: uint64): Word -> Event {
    (w: Word) => Event(Spi, timestamp, w.value0, w.value1)
  }

  /** The machine over samples: each output carries the time of the sample that completed it. */
  function SampleStep(cfg: Config): (State, Sample) -> (State, seq<Event>) {
    (s: State, x: Sample) =>
      var (t, out) := Step(cfg)(s, PinsOf(cfg, x));
      (t, Map(Stamp(x.timestamp), out))
  }

  /** The words in a pin trace, the first pin state being the one before the first clock edge. */
  function Words(cfg: Config, pins: seq<Pins>): seq<Word> {
    if pins == [] then [] else Run(Step(cfg), State(pins[0].clk, [], []), pins[1..]).1
  }

  predicate ValidConfig(cfg: Config) {
    cfg.clkChannel < 8 && cfg.csChannel < 8 && cfg.mosiChannel < 8 && cfg.misoChannel < 8
  }

  function Start(samples: seq<Sample>, cfg: Config): State
    requires samples != []
  {
    State(PinsOf(cfg, samples[0]).clk, [], [])
  }

  /** All the events in a capture, with no limit on their number. */
  function Events(samples: seq<Sample>, cfg: Config): seq<Event> {
    if samples == [] || !ValidConfig(cfg) then []
    else Run(SampleStep(cfg), Start(samples, cfg), samples[1..]).1
  }

  /** The state and the events once the samples before index `i` are read. */
  function Upto(samples: seq<Sample>, cfg: Config, i: nat): (State, seq<Event>)
    requires 1 <= i <= |samples|
  {
    Run(SampleStep(cfg), Start(samples, cfg), samples[1..i])
  }

  lemma {:induction false} UptoNext(samples: seq<Sample>, cfg: Config, i: nat)
    requires 1 <= i < |samples|
    ensures
      var (s, out) := Upto(samples, cfg, i);
      var (t, words) := Step(cfg)(s, PinsOf(cfg, samples[i]));
      && Upto(samples, cfg, i + 1).0 == t
      && Upto(samples, cfg, i + 1).1 ==
         (if words == [] then out else out + [Stamp(samples[i].timestamp)(words[0])])
  {
    assert samples[1..i + 1][..i - 1] == samples[1..i];
  }

  lemma {:induction false} ClockTracked(samples: seq<Sample>, cfg: Config, i: nat)
    requires 1 <= i <= |samples|
    ensures Upto(samples, cfg, i).0.clk == PinsOf(cfg, samples[i - 1]).clk
  {
    if i > 1 {
      UptoNext(samples, cfg, i - 1);
    }
  }

  /** What the loop knows before it reads sample `i`, having written `out`. */
  ghost predicate Inv(samples: seq<Sample>, cfg: Config, i: nat,
                      active: bool, bits: byte, mosi: byte, miso: byte, out: seq<Event>)
  {
    && 1 <= i <= |samples|
    && var s := Upto(samples, cfg, i).0;
    && Upto(samples, cfg, i).1 == out
    && |s.mosi| == |s.miso| == bits < 8
    && (Dead(cfg) ==> bits == 0)
    && (if active then mosi == MsbFirst(s.mosi) && miso == MsbFirst(s.miso) else bits == 0)
  }

  method Decode(samples: seq<Sample>, cfg: Config, events: array<Event>, maxEvents: nat) returns (eventCount: nat)
    requires maxEvents <= events.Length
    modifies events
    ensures eventCount == Min(maxEvents, |Events(samples, cfg)|)
    ensures events[..eventCount] == Events(samples, cfg)[..eventCount]
    ensures forall k :: eventCount <= k < events.Length ==> events[k] == old(events[k])
    ensures cfg.clkChannel >= 8 || cfg.csChannel >= 8 || cfg.mosiChannel >= 8 || cfg.misoChannel >= 8 ==>
              eventCount == 0
  {
    hide Inv, Bit, Run;
    eventCount := 0;
    var mosiByte: byte, misoByte: byte, bits: byte, active := 0, 0, 0, false;
    var idle := if cfg.cpol != 0 then 1 else 0;
    var onRising := (cfg.cpha == 0 && cfg.cpol == 0) || (cfg.cpha == 1 && cfg.cpol == 1);
    if maxEvents == 0 || samples == [] ||
       cfg.clkChannel >= 8 || cfg.csChannel >= 8 || cfg.mosiChannel >= 8 || cfg.misoChannel >= 8 {
      return;
    }
    InvInit(samples, cfg);
    var i := 1;
    while i < |samples| && eventCount < maxEvents
      invariant 1 <= i <= |samples|
      invariant eventCount <= maxEvents
      invariant Inv(samples, cfg, i, active, bits, mosiByte, misoByte, events[..eventCount])
      invariant forall k :: eventCount <= k < events.Length ==> events[k] == old(events[k])
    {
      var prevClk, clk := Bit(samples[i - 1].channels, cfg.clkChannel), Bit(samples[i].channels, cfg.clkChannel);
      var cs := Bit(samples[i].channels, cfg.csChannel);
      InvNext(samples, cfg, i, active, bits, mosiByte, misoByte, events[..eventCount]);
      i := i + 1;
      if cs == 1 {
        active, bits := false, 0;
        continue;
      }
      if !active {
        active, bits, mosiByte, misoByte := true, 0, 0, 0;
      }
      var sampleEdge := if onRising then prevClk == 0 && clk == 1 else prevClk == 1 && clk == 0;
      if !sampleEdge {
        continue;
      }
      SkipReachable(cfg, prevClk, clk);
      if prevClk == idle && bits == 0 && cfg.cpha == 1 {
        continue;
      }
      mosiByte := (mosiByte * 2 + Bit(samples[i - 1].channels, cfg.mosiChannel)) % 0x100;
      misoByte := (misoByte * 2 + Bit(samples[i - 1].channels, cfg.misoChannel)) % 0x100;
      bits := bits + 1;
      if bits == 8 {
        ghost var out := events[..eventCount];
        events[eventCount] := Event(Spi, samples[i - 1].timestamp, mosiByte, misoByte);
        eventCount := eventCount + 1;
        assert events[..eventCount] == out + [events[eventCount - 1]];
        bits, mosiByte, misoByte := 0, 0, 0;
      }
    }
    InvPrefix(samples, cfg, i, active, bits, mosiByte, misoByte, events[..eventCount]);
  }

  /** At a sampling edge the idle-level test of phase 1 can only succeed for a polarity beyond 0 and 1. */
  lemma SkipReachable(cfg: Config, prevClk: bit, clk: bit)
    requires Edge(cfg, prevClk, clk)
    ensures prevClk == Idle(cfg) && cfg.cpha == 1 <==> cfg.cpha == 1 && cfg.cpol > 1
  {
  }

  lemma InvInit(samples: seq<Sample>, cfg: Config)
    requires samples != []
    ensures Inv(samples, cfg, 1, false, 0, 0, 0, [])
  {
  }

  /** The effect of one sample on the variables, branch by branch. */
  lemma {:induction false} InvNext(samples: seq<Sample>, cfg: Config, i: nat,
                active: bool, bits: byte, mosi: byte, miso: byte, out: seq<Event>)
    requires i < |samples| && Inv(samples, cfg, i, active, bits, mosi, miso, out)
    ensures
      var prev, p := PinsOf(cfg, samples[i - 1]), PinsOf(cfg, samples[i]);
      var mo: byte, mi: byte := if active then mosi else 0, if active then miso else 0;
      if p.cs == 1 then
        Inv(samples, cfg, i + 1, false, 0, mosi, miso, out)
      else if !Samples(cfg, prev.clk, p.clk) then
        && Inv(samples, cfg, i + 1, true, bits, mo, mi, out)
        && (Dead(cfg) ==> bits == 0)
        && (!active ==> bits == 0)
      else
        var m: byte, n: byte := (mo * 2 + p.mosi) % 0x100, (mi * 2 + p.miso) % 0x100;
        && (!active ==> bits == 0)
        && bits < 8
        && if bits + 1 == 8 then
             Inv(samples, cfg, i + 1, true, 0, 0, 0, out + [Event(Spi, samples[i].timestamp, m, n)])
           else
             Inv(samples, cfg, i + 1, true, bits + 1, m, n, out)
  {
    hide Run, Bit, MsbFirst, Upto, SampleStep;
    UptoNext(samples, cfg, i);
    ClockTracked(samples, cfg, i);
    var p := PinsOf(cfg, samples[i]);
    var s := Upto(samples, cfg, i).0;
    assert MsbFirst([]) == 0;
    ShiftIn(s.mosi, p.mosi);
    ShiftIn(s.miso, p.miso);
  }

  /** Shifting in one more bit does not overflow a byte. */
  lemma ShiftIn(bits: seq<bit>, b: bit)
    requires |bits| < 8
    ensures MsbFirst(bits + [b]) == MsbFirst(bits) * 2 + b < 0x100
  {
    assert (bits + [b])[..|bits|] == bits;
    assert MsbFirst(bits + [b]) < Pow2(|bits| + 1);
    Pow2Monotone(|bits| + 1, 8);
    Pow2Values();
  }

  lemma {:induction false} InvPrefix(samples: seq<Sample>, cfg: Config, i: nat,
                  active: bool, bits: byte, mosi: byte, miso: byte, out: seq<Event>)
    requires Inv(samples, cfg, i, active, bits, mosi, miso, out) && ValidConfig(cfg)
    ensures out <= Events(samples, cfg)
    ensures i == |samples| ==> out == Events(samples, cfg)
  {
    var rest := samples[1..];
    assert rest[..i - 1] == samples[1..i];
    assert i == |samples| ==> samples[1..i] == rest;
    RunPrefix(SampleStep(cfg), Start(samples, cfg), rest, i - 1);
  }

  /** The words of the events are the words of the pin trace. */
  lemma {:induction false} EventWords(samples: seq<Sample>, cfg: Config)
    requires ValidConfig(cfg)
    ensures Map(WordOf, Events(samples, cfg)) == Words(cfg, Map(x => PinsOf(cfg, x), samples))
  {
    if samples != [] {
      var see := x => PinsOf(cfg, x);
      assert Map(see, samples)[1..] == Map(see, samples[1..]);
      RunThrough(SampleStep(cfg), Step(cfg), see, WordOf, Start(samples, cfg), samples[1..]);
    }
  }

  /** Events of a shorter capture are the first events of a longer one. */
  lemma {:induction false} PrefixMonotone(samples: seq<Sample>, cfg: Config, n: nat)
    requires n <= |samples|
    ensures Events(samples[..n], cfg) <= Events(samples, cfg)
  {
    if n > 0 && ValidConfig(cfg) {
      assert samples[..n][1..] == samples[1..][..n - 1];
      RunPrefix(SampleStep(cfg), Start(samples, cfg), samples[1..], n - 1);
    }
  }

  /** Each event is a SPI event and carries the time of the sample with which it first appears. */
  lemma {:induction false} EventTimed(samples: seq<Sample>, cfg: Config, k: nat) returns (i: nat)
    requires k < |Events(samples, cfg)|
    ensures 1 <= i < |samples|
    ensures |Events(samples[..i], cfg)| <= k < |Events(samples[..i + 1], cfg)|
    ensures Events(samples, cfg)[k].kind == Spi && Events(samples, cfg)[k].timestamp == samples[i].timestamp
    decreases |samples|
  {
    hide Step, Run;
    var n := |samples| - 1;
    var front := samples[..n];
    PrefixMonotone(samples, cfg, n);
    if k < |Events(front, cfg)| {
      i := EventTimed(front, cfg, k);
      assert samples[..i] == front[..i] && samples[..i + 1] == front[..i + 1];
    } else {
      i := n;
      LastEvents(samples, cfg);
      assert samples[..i + 1] == samples;
    }
  }

  /** What the last sample adds. */
  lemma {:induction false} LastEvents(samples: seq<Sample>, cfg: Config)
    requires Events(samples, cfg) != []
    ensures
      var n := |samples| - 1;
      var before := Events(samples[..n], cfg);
      && n >= 1
      && forall k :: |before| <= k < |Events(samples, cfg)| ==>
           Events(samples, cfg)[k].kind == Spi && Events(samples, cfg)[k].timestamp == samples[n].timestamp
  {
    hide Step;
    var n := |samples| - 1;
    var w := samples[1..];
    if n >= 1 {
      assert w[..n - 1] == samples[..n][1..] && w[n - 1] == samples[n];
      assert Start(samples[..n], cfg) == Start(samples, cfg);
      var more := Step(cfg)(Run(SampleStep(cfg), Start(samples, cfg), w[..n - 1]).0, PinsOf(cfg, samples[n])).1;
      assert Events(samples, cfg) == Events(samples[..n], cfg) + Map(Stamp(samples[n].timestamp), more);
    }
  }

  /** Repeating any samples in place decodes to the same words. */
  lemma {:induction false} OversamplingInvariance(samples: seq<Sample>, cfg: Config, extra: seq<nat>)
    requires |samples| == |extra|
    ensures Map(WordOf, Events(Stretch(samples, extra), cfg)) == Map(WordOf, Events(samples, cfg))
  {
    hide Run, Step, Words, Stretch;
    if ValidConfig(cfg) {
      EventWords(samples, cfg);
      EventWords(Stretch(samples, extra), cfg);
      MapStretch(x => PinsOf(cfg, x), samples, extra);
      PinsStretched(cfg, Map(x => PinsOf(cfg, x), samples), extra);
    }
  }

  /** Sampling the same pin states more often decodes to the same words. */
  lemma {:induction false} PinsStretched(cfg: Config, pins: seq<Pins>, extra: seq<nat>)
    requires |pins| == |extra|
    ensures Words(cfg, Stretch(pins, extra)) == Words(cfg, pins)
  {
    if pins != [] {
      StretchInvariant(Step(cfg), State(pins[0].clk, [], []), pins, extra);
      StretchHead(pins, extra);
      HeadRepeats(cfg, pins);
      HeadRepeats(cfg, Stretch(pins, extra));
    }
  }

  /** Reading the first pin state again changes nothing. */
  lemma {:induction false} HeadRepeats(cfg: Config, pins: seq<Pins>)
    requires pins != []
    ensures Run(Step(cfg), State(pins[0].clk, [], []), pins).1 == Words(cfg, pins)
  {
    assert pins == [pins[0]] + pins[1..];
    RunCons(Step(cfg), State(pins[0].clk, [], []), pins[0], pins[1..]);
  }
}
