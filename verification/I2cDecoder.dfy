/** The I2C decoder: a loop over samples, proved against a machine that keeps the bits of the current byte. */
module I2cDecoder {
  import opened Bits
  import opened Protocol
  import opened Machine

  datatype Config = Config(sclChannel: byte, sdaChannel: byte)

  datatype Pins = Pins(scl: bit, sda: bit)

  /** Between STOP and START the bus is free; after START the bits of the current byte accumulate. */
  datatype Bus = Free | Receiving(bits: seq<bit>)

  datatype State = State(pins: Pins, bus: Bus)

  /** One change of the pins as UM10204 sections 3.1.4 to 3.1.6 read it. */
  function Step(s: State, p: Pins): (State, seq<Word>) {
    if p.scl == 1 && s.pins.sda == 1 && p.sda == 0 then
      (State(p, Receiving([])), [])
    else if p.scl == 1 && s.pins.sda == 0 && p.sda == 1 then
      (State(p, Free), [])
    else if s.bus.Receiving? && s.pins.scl == 0 && p.scl == 1 then
      if |s.bus.bits| < 8 then
        (State(p, Receiving(s.bus.bits + [p.sda])), [])
      else
        (State(p, Receiving([])), [Word(MsbFirst(s.bus.bits), 1 - p.sda)])
    else
      (State(p, s.bus), [])
  }

  function PinsOf(cfg: Config, x: Sample): Pins {
    Pins(Bit(x.channels, cfg.sclChannel), Bit(x.channels, cfg.sdaChannel))
  }

  function Stamp(timestamp: uint64): Word -> Event {
    (w: Word) => Event(I2c, timestamp, w.value0, w.value1)
  }

  /** The machine over samples: each output carries the time of the sample that completed it. */
  function SampleStep(cfg: Config): (State, Sample) -> (State, seq<Event>) {
    (s: State, x: Sample) =>
      var (t, out) := Step(s, PinsOf(cfg, x));
      (t, Map(Stamp(x.timestamp), out))
  }

  /** The words on the bus that starts free and idle at the first pin state. */
  function Words(pins: seq<Pins>): seq<Word> {
    if pins == [] then [] else Run(Step, State(pins[0], Free), pins[1..]).1
  }

  predicate ValidConfig(cfg: Config) {
    cfg.sclChannel < 8 && cfg.sdaChannel < 8
  }

  /** All the events in a capture, with no limit on their number. */
  function Events(samples: seq<Sample>, cfg: Config): seq<Event> {
    if samples == [] || !ValidConfig(cfg) then []
    else Run(SampleStep(cfg), State(PinsOf(cfg, samples[0]), Free), samples[1..]).1
  }

  /** The state and the events once the samples before index `i` are read. */
  function Upto(samples: seq<Sample>, cfg: Config, i: nat): (State, seq<Event>)
    requires 1 <= i <= |samples|
  {
    Run(SampleStep(cfg), State(PinsOf(cfg, samples[0]), Free), samples[1..i])
  }

  lemma {:induction false} UptoNext(samples: seq<Sample>, cfg: Config, i: nat)
    requires 1 <= i < |samples|
    ensures
      var (s, out) := Upto(samples, cfg, i);
      var (t, words) := Step(s, PinsOf(cfg, samples[i]));
      && Upto(samples, cfg, i + 1).0 == t
      && Upto(samples, cfg, i + 1).1 ==
         (if words == [] then out else out + [Stamp(samples[i].timestamp)(words[0])])
  {
    assert samples[1..i + 1][..i - 1] == samples[1..i];
  }

  lemma PinsTracked(samples: seq<Sample>, cfg: Config, i: nat)
    requires 1 <= i <= |samples|
    ensures Upto(samples, cfg, i).0.pins == PinsOf(cfg, samples[i - 1])
  {
    if i > 1 {
      UptoNext(samples, cfg, i - 1);
    }
  }

  lemma UptoPrefix(samples: seq<Sample>, cfg: Config, i: nat)
    requires 1 <= i <= |samples| && ValidConfig(cfg)
    ensures Upto(samples, cfg, i).1 <= Events(samples, cfg)
    ensures i == |samples| ==> Upto(samples, cfg, i).1 == Events(samples, cfg)
  {
    var rest := samples[1..];
    assert rest[..i - 1] == samples[1..i];
    assert i == |samples| ==> samples[1..i] == rest;
    RunPrefix(SampleStep(cfg), State(PinsOf(cfg, samples[0]), Free), samples[1..], i - 1);
  }

  /** The variables of the loop describe a state of the machine. */
  ghost predicate Represents(bus: Bus, active: bool, bitCount: byte, current: byte, expectAck: bool) {
    match bus
    case Free => !active
    case Receiving(bits) =>
      && active
      && current == MsbFirst(bits)
      && (if expectAck then |bits| == 8 && bitCount == 0 else |bits| == bitCount < 8)
  }

  /** What the loop knows before it reads sample `i`, having written `out`. */
  ghost predicate Inv(samples: seq<Sample>, cfg: Config, i: nat,
                      active: bool, bitCount: byte, current: byte, expectAck: bool, out: seq<Event>)
  {
    && 1 <= i <= |samples|
    && Upto(samples, cfg, i).1 == out
    && Represents(Upto(samples, cfg, i).0.bus, active, bitCount, current, expectAck)
  }

  method Decode(samples: seq<Sample>, cfg: Config, events: array<Event>, maxEvents: nat) returns (eventCount: nat)
    requires maxEvents <= events.Length
    modifies events
    ensures eventCount == Min(maxEvents, |Events(samples, cfg)|)
    ensures events[..eventCount] == Events(samples, cfg)[..eventCount]
    ensures forall k :: eventCount <= k < events.Length ==> events[k] == old(events[k])
    ensures cfg.sclChannel >= 8 || cfg.sdaChannel >= 8 ==> eventCount == 0
  {
    hide Inv, Bit, Run;
    eventCount := 0;
    if maxEvents == 0 || samples == [] || cfg.sclChannel >= 8 || cfg.sdaChannel >= 8 {
      return;
    }
    var active, bitCount: byte, current: byte, expectAck := false, 0, 0, false;
    InvInit(samples, cfg);
    var i := 1;
    while i < |samples| && eventCount < maxEvents
      invariant 1 <= i <= |samples|
      invariant eventCount <= maxEvents
      invariant Inv(samples, cfg, i, active, bitCount, current, expectAck, events[..eventCount])
      invariant forall k :: eventCount <= k < events.Length ==> events[k] == old(events[k])
    {
      var prevScl, prevSda := Bit(samples[i - 1].channels, cfg.sclChannel), Bit(samples[i - 1].channels, cfg.sdaChannel);
      var scl, sda := Bit(samples[i].channels, cfg.sclChannel), Bit(samples[i].channels, cfg.sdaChannel);
      InvNext(samples, cfg, i, active, bitCount, current, expectAck, events[..eventCount]);
      if prevSda == 1 && sda == 0 && scl == 1 {
        active, bitCount, current, expectAck := true, 0, 0, false;
      } else if prevSda == 0 && sda == 1 && scl == 1 {
        active := false;
      } else if active && prevScl == 0 && scl == 1 {
        if !expectAck {
          current := (current * 2 + sda) % 0x100;
          bitCount := bitCount + 1;
          if bitCount == 8 {
            expectAck, bitCount := true, 0;
          }
        } else {
          ghost var out := events[..eventCount];
          events[eventCount] := Event(I2c, samples[i].timestamp, current, if sda == 0 then 1 else 0);
          eventCount := eventCount + 1;
          assert events[..eventCount] == out + [events[eventCount - 1]];
          current, expectAck := 0, false;
        }
      }
      i := i + 1;
    }
    InvPrefix(samples, cfg, i, active, bitCount, current, expectAck, events[..eventCount]);
  }

  lemma InvInit(samples: seq<Sample>, cfg: Config)
    requires samples != []
    ensures Inv(samples, cfg, 1, false, 0, 0, false, [])
  {
  }

  /** The effect of one sample on the variables, branch by branch. */
  lemma {:induction false} InvNext(samples: seq<Sample>, cfg: Config, i: nat,
                active: bool, bitCount: byte, current: byte, expectAck: bool, out: seq<Event>)
    requires i < |samples| && Inv(samples, cfg, i, active, bitCount, current, expectAck, out)
    ensures
      var prev, p := PinsOf(cfg, samples[i - 1]), PinsOf(cfg, samples[i]);
      if prev.sda == 1 && p.sda == 0 && p.scl == 1 then
        Inv(samples, cfg, i + 1, true, 0, 0, false, out)
      else if prev.sda == 0 && p.sda == 1 && p.scl == 1 then
        Inv(samples, cfg, i + 1, false, bitCount, current, expectAck, out)
      else if active && prev.scl == 0 && p.scl == 1 then
        if expectAck then
          Inv(samples, cfg, i + 1, active, bitCount, 0, false,
              out + [Event(I2c, samples[i].timestamp, current, if p.sda == 0 then 1 else 0)])
        else
          var n := bitCount + 1;
          && n <= 8
          && Inv(samples, cfg, i + 1, active, if n == 8 then 0 else n, (current * 2 + p.sda) % 0x100, n == 8, out)
      else
        Inv(samples, cfg, i + 1, active, bitCount, current, expectAck, out)
  {
    var prev, p := PinsOf(cfg, samples[i - 1]), PinsOf(cfg, samples[i]);
    UptoNext(samples, cfg, i);
    PinsTracked(samples, cfg, i);
    var s := Upto(samples, cfg, i).0;
    if s.bus.Receiving? && !expectAck {
      ShiftIn(s.bus.bits, p.sda, bitCount, current);
    }
  }

  /** Shifting in one more bit keeps the variables and the bits in step, without overflow. */
  lemma ShiftIn(bits: seq<bit>, b: bit, bitCount: byte, current: byte)
    requires Represents(Receiving(bits), true, bitCount, current, false)
    ensures
      var n := bitCount + 1;
      Represents(Receiving(bits + [b]), true, if n == 8 then 0 else n, (current * 2 + b) % 0x100, n == 8)
  {
    assert (bits + [b])[..|bits|] == bits;
    assert MsbFirst(bits + [b]) < Pow2(|bits| + 1);
    Pow2Monotone(|bits| + 1, 8);
    Pow2Values();
  }

  lemma InvPrefix(samples: seq<Sample>, cfg: Config, i: nat,
                  active: bool, bitCount: byte, current: byte, expectAck: bool, out: seq<Event>)
    requires Inv(samples, cfg, i, active, bitCount, current, expectAck, out) && ValidConfig(cfg)
    ensures out <= Events(samples, cfg)
    ensures i == |samples| ==> out == Events(samples, cfg)
  {
    UptoPrefix(samples, cfg, i);
  }

  /** The words of the events are the words of the pin trace. */
  lemma {:induction false} EventWords(samples: seq<Sample>, cfg: Config)
    requires ValidConfig(cfg)
    ensures Map(WordOf, Events(samples, cfg)) == Words(Map(x => PinsOf(cfg, x), samples))
  {
    if samples != [] {
      var see := x => PinsOf(cfg, x);
      assert Map(see, samples)[1..] == Map(see, samples[1..]);
      RunThrough(SampleStep(cfg), Step, see, WordOf, State(see(samples[0]), Free), samples[1..]);
    }
  }

  /** Events of a shorter capture are the first events of a longer one. */
  lemma {:induction false} PrefixMonotone(samples: seq<Sample>, cfg: Config, n: nat)
    requires n <= |samples|
    ensures Events(samples[..n], cfg) <= Events(samples, cfg)
  {
    if n > 0 && ValidConfig(cfg) {
      assert samples[..n][1..] == samples[1..][..n - 1];
      RunPrefix(SampleStep(cfg), State(PinsOf(cfg, samples[0]), Free), samples[1..], n - 1);
    }
  }

  /** Each event is a I2C event and carries the time of the sample with which it first appears. */
  lemma {:induction false} EventTimed(samples: seq<Sample>, cfg: Config, k: nat) returns (i: nat)
    requires k < |Events(samples, cfg)|
    ensures 1 <= i < |samples|
    ensures |Events(samples[..i], cfg)| <= k < |Events(samples[..i + 1], cfg)|
    ensures Events(samples, cfg)[k].kind == I2c && Events(samples, cfg)[k].timestamp == samples[i].timestamp
    decreases |samples|
  {
    hide Step, Run;
    var n := |samples| - 1;
    var front := samples[..n];
    PrefixMonotone(samples, cfg, n);
    if k < |Events(front, cfg)| {
      i := EventTimed(front, cfg, k);
      assert samples[..i] == front[..i] && samples[..i + 1] == front[..i + 1];
    } else {
      i := n;
      LastEvents(samples, cfg);
      assert samples[..i + 1] == samples;
    }
  }

  /** What the last sample adds. */
  lemma {:induction false} LastEvents(samples: seq<Sample>, cfg: Config)
    requires Events(samples, cfg) != []
    ensures
      var n := |samples| - 1;
      var before := Events(samples[..n], cfg);
      && n >= 1
      && forall k :: |before| <= k < |Events(samples, cfg)| ==>
           Events(samples, cfg)[k].kind == I2c && Events(samples, cfg)[k].timestamp == samples[n].timestamp
  {
    hide Step;
    var n := |samples| - 1;
    if n >= 1 {
      assert samples[1..][..n - 1] == samples[..n][1..];
    }
  }

  /** Repeating any samples in place decodes to the same words. */
  lemma {:induction false} OversamplingInvariance(samples: seq<Sample>, cfg: Config, extra: seq<nat>)
    requires |samples| == |extra|
    ensures Map(WordOf, Events(Stretch(samples, extra), cfg)) == Map(WordOf, Events(samples, cfg))
  {
    hide Run, Step, Words, Stretch;
    if ValidConfig(cfg) {
      EventWords(samples, cfg);
      EventWords(Stretch(samples, extra), cfg);
      MapStretch(x => PinsOf(cfg, x), samples, extra);
      PinsStretched(Map(x => PinsOf(cfg, x), samples), extra);
    }
  }

  /** Sampling the same pin states more often decodes to the same words. */
  lemma {:induction false} PinsStretched(pins: seq<Pins>, extra: seq<nat>)
    requires |pins| == |extra|
    ensures Words(Stretch(pins, extra)) == Words(pins)
  {
    if pins != [] {
      var init := State(pins[0], Free);
      StretchInvariant(Step, init, pins, extra);
      StretchHead(pins, extra);
      HeadRepeats(pins);
      HeadRepeats(Stretch(pins, extra));
    }
  }

  /** Reading the first pin state again changes nothing. */
  lemma {:induction false} HeadRepeats(pins: seq<Pins>)
    requires pins != []
    ensures Run(Step, State(pins[0], Free), pins).1 == Words(pins)
  {
    assert pins == [pins[0]] + pins[1..];
    RunCons(Step, State(pins[0], Free), pins[0], pins[1..]);
  }
}
