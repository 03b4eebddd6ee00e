/**
 The bus traffic an I2C master produces, as a trace of pin states, and the proof that decoding inverts it.
 Clocking follows UM10204: SDA moves only while SCL is low, except at START and STOP.
 */
module I2cBus {
  import opened Bits
  import opened Protocol
  import opened Machine
  import opened I2cDecoder

  /** One clock cycle: SDA wanders while SCL is low, settles, then SCL is high; every phase may be held for longer. */
  datatype Clocking = Clocking(wander: seq<bit>, setup: nat, high: nat)

  datatype SentByte = SentByte(value: byte, acked: bool, timing: nat -> Clocking)

  /** A transfer ends with STOP, the bus then idling, or with a repeated START. */
  datatype Ending = Stop(clock: Clocking, idle: nat) | Restart(clock: Clocking)

  /** START, whole bytes, the bits of a byte that was cut short, and the ending. */
  datatype Transfer = Transfer(start: nat, bytes: seq<SentByte>, cut: seq<bit>, cutTiming: nat -> Clocking, ending: Ending)

  function Lows(w: seq<bit>): seq<Pins> {
    Map(b => Pins(0, b), w)
  }

  function Cycle(b: bit, t: Clocking): seq<Pins> {
    Lows(t.wander + Repeat(b, 1 + t.setup)) + Repeat(Pins(1, b), 1 + t.high)
  }

  function BitsWave(bits: seq<bit>, timing: nat -> Clocking): seq<Pins> {
    if bits == [] then []
    else
      var n := |bits| - 1;
      BitsWave(bits[..n], timing) + Cycle(bits[n], timing(n))
  }

  function ByteWave(b: SentByte): seq<Pins> {
    BitsWave(MsbBits(b.value), b.timing) + Cycle(if b.acked then 0 else 1, b.timing(8))
  }

  function BytesWave(bytes: seq<SentByte>): seq<Pins> {
    if bytes == [] then []
    else BytesWave(bytes[..|bytes| - 1]) + ByteWave(bytes[|bytes| - 1])
  }

  function EndWave(e: Ending): seq<Pins> {
    match e
    case Stop(clock, idle) => Cycle(0, clock) + Repeat(Pins(1, 1), 1 + idle)
    case Restart(clock) => Cycle(1, clock)
  }

  function TransferWave(t: Transfer): seq<Pins> {
    Repeat(Pins(1, 0), 1 + t.start) + BytesWave(t.bytes) + BitsWave(t.cut, t.cutTiming) + EndWave(t.ending)
  }

  function TransfersWave(ts: seq<Transfer>): seq<Pins> {
    if ts == [] then []
    else TransfersWave(ts[..|ts| - 1]) + TransferWave(ts[|ts| - 1])
  }

  /** The bus is idle, then carries the transfers one after another. */
  function BusWave(idle: nat, ts: seq<Transfer>): seq<Pins> {
    Repeat(Pins(1, 1), 1 + idle) + TransfersWave(ts)
  }

  /** What was sent: the whole bytes and their acknowledgements. */
  function SentWords(ts: seq<Transfer>): seq<Word> {
    if ts == [] then []
    else SentWords(ts[..|ts| - 1]) + ByteWords(ts[|ts| - 1].bytes)
  }

  function ByteWords(bytes: seq<SentByte>): seq<Word> {
    Map((b: SentByte) => Word(b.value, if b.acked then 1 else 0), bytes)
  }

  /** A transfer cut after all eight bits: the SCL rise of its ending is taken for the ACK clock. */
  function Phantom(t: Transfer): seq<Word> {
    if |t.cut| == 8 then [Word(MsbFirst(t.cut), if t.ending.Stop? then 1 else 0)] else []
  }

  function DecodedWords(ts: seq<Transfer>): seq<Word> {
    if ts == [] then []
    else DecodedWords(ts[..|ts| - 1]) + ByteWords(ts[|ts| - 1].bytes) + Phantom(ts[|ts| - 1])
  }

  /** Between two ACK clocks there are at most eight data bits. */
  ghost predicate Framed(ts: seq<Transfer>) {
    forall t :: t in ts ==> |t.cut| <= 8
  }

  /** While SCL is low nothing happens, however SDA moves. */
  lemma {:induction false} LowRun(s: State, w: seq<bit>)
    ensures Run(Step, s, Lows(w)).0 == State(if w == [] then s.pins else Pins(0, w[|w| - 1]), s.bus)
    ensures Run(Step, s, Lows(w)).1 == []
    decreases |w|
  {
    if w != [] {
      var front := w[..|w| - 1];
      LowRun(s, front);
      assert Lows(w)[..|w| - 1] == Lows(front);
    }
  }

  /** A clock cycle is one rise of SCL with SDA at `b`. */
  lemma {:induction false} CycleRun(s: State, b: bit, t: Clocking)
    requires s.pins.scl == 1
    ensures Run(Step, s, Cycle(b, t)).0 == Step(State(Pins(0, b), s.bus), Pins(1, b)).0
    ensures Run(Step, s, Cycle(b, t)).1 == Step(State(Pins(0, b), s.bus), Pins(1, b)).1
  {
    hide Run;
    var low := t.wander + Repeat(b, 1 + t.setup);
    LowRun(s, low);
    assert low[|low| - 1] == b;
    var mid := State(Pins(0, b), s.bus);
    RunAppend(Step, s, Lows(low), Repeat(Pins(1, b), 1 + t.high));
    RunRepeat(Step, mid, Pins(1, b), t.high);
  }

  lemma {:induction false} BitsRun(s: State, bits: seq<bit>, timing: nat -> Clocking)
    requires s.pins.scl == 1 && s.bus == Receiving([]) && |bits| <= 8
    ensures
      var (t, words) := Run(Step, s, BitsWave(bits, timing));
      t.pins.scl == 1 && t.bus == Receiving(bits) && words == []
    decreases |bits|
  {
    hide Run, Cycle;
    if bits == [] {
      RunNothing(Step, s);
    } else {
      var n := |bits| - 1;
      BitsRun(s, bits[..n], timing);
      RunAppend(Step, s, BitsWave(bits[..n], timing), Cycle(bits[n], timing(n)));
      CycleRun(Run(Step, s, BitsWave(bits[..n], timing)).0, bits[n], timing(n));
      assert bits[..n] + [bits[n]] == bits;
    }
  }

  lemma {:induction false} ByteRun(s: State, b: SentByte)
    requires s.pins.scl == 1 && s.bus == Receiving([])
    ensures
      var (t, words) := Run(Step, s, ByteWave(b));
      t.pins.scl == 1 && t.bus == Receiving([]) && words == [Word(b.value, if b.acked then 1 else 0)]
  {
    var bits, ack: bit := MsbBits(b.value), if b.acked then 0 else 1;
    BitsRun(s, bits, b.timing);
    MsbRoundTrip(b.value);
    RunAppend(Step, s, BitsWave(bits, b.timing), Cycle(ack, b.timing(8)));
    CycleRun(Run(Step, s, BitsWave(bits, b.timing)).0, ack, b.timing(8));
  }

  lemma {:induction false} BytesRun(s: State, bytes: seq<SentByte>)
    requires s.pins.scl == 1 && s.bus == Receiving([])
    ensures
      var (t, words) := Run(Step, s, BytesWave(bytes));
      t.pins.scl == 1 && t.bus == Receiving([]) && words == ByteWords(bytes)
    decreases |bytes|
  {
    hide Run, Step, ByteWave;
    if bytes == [] {
      RunNothing(Step, s);
    } else {
      var front, last := bytes[..|bytes| - 1], bytes[|bytes| - 1];
      BytesRun(s, front);
      RunAppend(Step, s, BytesWave(front), ByteWave(last));
      ByteRun(Run(Step, s, BytesWave(front)).0, last);
      assert ByteWords(bytes) == ByteWords(front) + [Word(last.value, if last.acked then 1 else 0)];
    }
  }

  /** The stray SCL rise before STOP or a repeated START is harmless unless eight bits were pending. */
  lemma {:induction false} EndRun(s: State, bits: seq<bit>, e: Ending)
    requires s.pins.scl == 1 && s.bus == Receiving(bits) && |bits| <= 8
    ensures
      var (t, words) := Run(Step, s, EndWave(e));
      t.pins == Pins(1, 1)
      && words == if |bits| == 8 then [Word(MsbFirst(bits), if e.Stop? then 1 else 0)] else []
  {
    match e
    case Restart(clock) =>
      CycleRun(s, 1, clock);
    case Stop(clock, idle) =>
      CycleRun(s, 0, clock);
      RunAppend(Step, s, Cycle(0, clock), Repeat(Pins(1, 1), 1 + idle));
      RunRepeat(Step, Run(Step, s, Cycle(0, clock)).0, Pins(1, 1), idle);
  }

  lemma {:induction false} TransferRun(s: State, t: Transfer)
    requires s.pins == Pins(1, 1) && |t.cut| <= 8
    ensures
      var (u, words) := Run(Step, s, TransferWave(t));
      u.pins == Pins(1, 1) && words == ByteWords(t.bytes) + Phantom(t)
  {
    hide Run, BytesWave, BitsWave, EndWave, ByteWords;
    var start, body, cut := Repeat(Pins(1, 0), 1 + t.start), BytesWave(t.bytes), BitsWave(t.cut, t.cutTiming);
    RunRepeat(Step, s, Pins(1, 0), t.start);
    RunAppend(Step, s, start, body);
    var s1 := Run(Step, s, start).0;
    BytesRun(s1, t.bytes);
    RunAppend(Step, s, start + body, cut);
    var s2 := Run(Step, s1, body).0;
    BitsRun(s2, t.cut, t.cutTiming);
    RunAppend(Step, s, start + body + cut, EndWave(t.ending));
    EndRun(Run(Step, s2, cut).0, t.cut, t.ending);
  }

  lemma {:induction false} TransfersRun(s: State, ts: seq<Transfer>)
    requires s.pins == Pins(1, 1) && Framed(ts)
    ensures
      var (u, words) := Run(Step, s, TransfersWave(ts));
      u.pins == Pins(1, 1) && words == DecodedWords(ts)
    decreases |ts|
  {
    hide Run, Step, TransferWave, ByteWords, Phantom;
    if ts == [] {
      RunNothing(Step, s);
    } else {
      var front, last := ts[..|ts| - 1], ts[|ts| - 1];
      TransfersRun(s, front);
      RunAppend(Step, s, TransfersWave(front), TransferWave(last));
      TransferRun(Run(Step, s, TransfersWave(front)).0, last);
    }
  }

  lemma {:induction false} BusDecodes(idle: nat, ts: seq<Transfer>)
    requires Framed(ts)
    ensures Words(BusWave(idle, ts)) == DecodedWords(ts)
  {
    hide Run, Step, DecodedWords, TransfersWave;
    var wave, init := BusWave(idle, ts), State(Pins(1, 1), Free);
    assert wave[1..] == Repeat(Pins(1, 1), idle) + TransfersWave(ts);
    IdleRun(init, idle);
    RunAppend(Step, init, Repeat(Pins(1, 1), idle), TransfersWave(ts));
    TransfersRun(init, ts);
  }

  lemma IdleRun(s: State, n: nat)
    requires s.pins == Pins(1, 1)
    ensures Run(Step, s, Repeat(Pins(1, 1), n)) == (s, [])
  {
    if n > 0 {
      RunRepeat(Step, s, Pins(1, 1), n - 1);
    }
  }

  /** Each phantom is one word too many. */
  lemma {:induction false} PhantomsCounted(ts: seq<Transfer>)
    requires Framed(ts)
    ensures |DecodedWords(ts)| >= |SentWords(ts)|
    ensures (forall t :: t in ts ==> |t.cut| < 8) ==> DecodedWords(ts) == SentWords(ts)
    ensures (exists t :: t in ts && |t.cut| == 8) ==> |DecodedWords(ts)| > |SentWords(ts)|
    decreases |ts|
  {
    hide ByteWords, MsbFirst;
    if ts != [] {
      var front, last := ts[..|ts| - 1], ts[|ts| - 1];
      PhantomsCounted(front);
      assert ts == front + [last];
    }
  }

  /** Decoding returns exactly what was sent when, and only when, no byte was cut after its eighth bit. */
  lemma {:induction false} RoundTrip(idle: nat, ts: seq<Transfer>)
    requires Framed(ts)
    ensures Words(BusWave(idle, ts)) == SentWords(ts) <==> forall t :: t in ts ==> |t.cut| < 8
  {
    BusDecodes(idle, ts);
    PhantomsCounted(ts);
    if t :| t in ts && |t.cut| >= 8 {
      assert |t.cut| == 8;
    }
  }

  /** The same for a capture whose two lines are the trace, whatever the other channels and the clock show. */
  lemma {:induction false} CaptureRoundTrip(idle: nat, ts: seq<Transfer>, samples: seq<Sample>, cfg: Config)
    requires Framed(ts)
    requires cfg.sclChannel < 8 && cfg.sdaChannel < 8
    requires Lane(samples, cfg.sclChannel) == Map((p: Pins) => p.scl, BusWave(idle, ts))
    requires Lane(samples, cfg.sdaChannel) == Map((p: Pins) => p.sda, BusWave(idle, ts))
    ensures Map(WordOf, Events(samples, cfg)) == SentWords(ts) <==> forall t :: t in ts ==> |t.cut| < 8
  {
    hide Bit, BusWave, SentWords;
    var wave := BusWave(idle, ts);
    assert |wave| == |Lane(samples, cfg.sclChannel)| == |samples|;
    forall k | 0 <= k < |samples|
      ensures PinsOf(cfg, samples[k]) == wave[k]
    {
      assert Lane(samples, cfg.sclChannel)[k] == wave[k].scl;
      assert Lane(samples, cfg.sdaChannel)[k] == wave[k].sda;
    }
    assert Map(x => PinsOf(cfg, x), samples) == wave;
    RoundTrip(idle, ts);
    EventWords(samples, cfg);
  }
}
