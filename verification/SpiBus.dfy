/**
 The waveform of an SPI exchange in each of the four modes, and the proof that decoding inverts it.
 CPOL is the idle level of the clock; data is read on the first clock edge of a bit when CPHA is 0, on the second when it is 1.
 */
module SpiBus {
  import opened Bits
  import opened Protocol
  import opened Machine
  import opened SpiDecoder

  datatype Data = Data(mosi: bit, miso: bit)

  /** Data lines while the clock waits before the sampling edge of a bit, and after the sampled instant. */
  datatype BitTiming = BitTiming(before: seq<Data>, setup: Data, after: seq<Data>)

  datatype SentPair = SentPair(mosi: byte, miso: byte, timing: nat -> BitTiming)

  /** CS high: the clock may do anything, but it is idle when CS falls. */
  datatype Gap = Gap(noise: seq<(bit, Data)>, last: Data)

  /** CS low: clock idle, whole byte pairs, the bits of a pair cut short, clock idle again; then the gap. */
  datatype Frame = Frame(setup: Data, lead: seq<Data>, pairs: seq<SentPair>,
                         cut: seq<Data>, cutTiming: nat -> BitTiming, trail: seq<Data>, gap: Gap)

  predicate FourModes(cfg: Config) {
    cfg.cpol <= 1 && cfg.cpha <= 1
  }

  /** The clock level before the edge on which data is read. */
  function Before(cfg: Config): bit {
    if cfg.cpha == 0 then Idle(cfg) else 1 - Idle(cfg)
  }

  function After(cfg: Config): bit {
    1 - Before(cfg)
  }

  function Level(clk: bit, ds: seq<Data>): seq<Pins> {
    Map((d: Data) => Pins(clk, 0, d.mosi, d.miso), ds)
  }

  function BitWave(cfg: Config, d: Data, t: BitTiming): seq<Pins> {
    Level(Before(cfg), t.before + [t.setup]) + Level(After(cfg), [d] + t.after)
  }

  function BitsWave(cfg: Config, ds: seq<Data>, timing: nat -> BitTiming): seq<Pins> {
    if ds == [] then []
    else
      var n := |ds| - 1;
      BitsWave(cfg, ds[..n], timing) + BitWave(cfg, ds[n], timing(n))
  }

  function PairBits(p: SentPair): (ds: seq<Data>)
    ensures |ds| == 8
  {
    seq(8, k requires 0 <= k < 8 => Data(MsbBits(p.mosi)[k], MsbBits(p.miso)[k]))
  }

  function PairsWave(cfg: Config, ps: seq<SentPair>): seq<Pins> {
    if ps == [] then []
    else
      var p := ps[|ps| - 1];
      PairsWave(cfg, ps[..|ps| - 1]) + BitsWave(cfg, PairBits(p), p.timing)
  }

  function GapWave(cfg: Config, g: Gap): seq<Pins> {
    Map((x: (bit, Data)) => Pins(x.0, 1, x.1.mosi, x.1.miso), g.noise + [(Idle(cfg), g.last)])
  }

  function FrameWave(cfg: Config, f: Frame): seq<Pins> {
    Level(Idle(cfg), [f.setup] + f.lead) + PairsWave(cfg, f.pairs) + BitsWave(cfg, f.cut, f.cutTiming)
    + Level(Idle(cfg), f.trail) + GapWave(cfg, f.gap)
  }

  function FramesWave(cfg: Config, fs: seq<Frame>): seq<Pins> {
    if fs == [] then []
    else FramesWave(cfg, fs[..|fs| - 1]) + FrameWave(cfg, fs[|fs| - 1])
  }

  function BusWave(cfg: Config, gap: Gap, fs: seq<Frame>): seq<Pins> {
    GapWave(cfg, gap) + FramesWave(cfg, fs)
  }

  function PairWords(ps: seq<SentPair>): seq<Word> {
    Map((p: SentPair) => Word(p.mosi, p.miso), ps)
  }

  function SentWords(fs: seq<Frame>): seq<Word> {
    if fs == [] then []
    else SentWords(fs[..|fs| - 1]) + PairWords(fs[|fs| - 1].pairs)
  }

  function Mosi(ds: seq<Data>): seq<bit> {
    Map((d: Data) => d.mosi, ds)
  }

  function Miso(ds: seq<Data>): seq<bit> {
    Map((d: Data) => d.miso, ds)
  }

  /** In all four modes the table of rising and falling edges picks the edge the standard asks for. */
  lemma SamplesOnTheRightEdge(cfg: Config, prev: bit, clk: bit)
    requires FourModes(cfg)
    ensures Samples(cfg, prev, clk) <==> prev == Before(cfg) && clk == After(cfg)
  {
  }

  /** A stretch of constant clock that does not start with a sampling edge changes only the clock. */
  lemma {:induction false} LevelRun(cfg: Config, s: State, clk: bit, ds: seq<Data>)
    requires !Samples(cfg, s.clk, clk)
    ensures Run(Step(cfg), s, Level(clk, ds)).0 == State(if ds == [] then s.clk else clk, s.mosi, s.miso)
    ensures Run(Step(cfg), s, Level(clk, ds)).1 == []
    decreases |ds|
  {
    if ds != [] {
      var front := ds[..|ds| - 1];
      LevelRun(cfg, s, clk, front);
      assert Level(clk, ds)[..|ds| - 1] == Level(clk, front);
    }
  }

  /** One bit is one sampling edge with the data lines at `d`, whatever they show around it. */
  lemma {:induction false} BitRun(cfg: Config, s: State, d: Data, t: BitTiming)
    requires FourModes(cfg)
    ensures
      var r := Step(cfg)(State(Before(cfg), s.mosi, s.miso), Pins(After(cfg), 0, d.mosi, d.miso));
      Run(Step(cfg), s, BitWave(cfg, d, t)).0 == r.0 && Run(Step(cfg), s, BitWave(cfg, d, t)).1 == r.1
  {
    hide Run;
    var pre, edge, post := t.before + [t.setup], [d], t.after;
    LevelRun(cfg, s, Before(cfg), pre);
    var s1 := State(Before(cfg), s.mosi, s.miso);
    assert Level(After(cfg), edge + post) == [Pins(After(cfg), 0, d.mosi, d.miso)] + Level(After(cfg), post);
    RunAppend(Step(cfg), s, Level(Before(cfg), pre), Level(After(cfg), edge + post));
    RunCons(Step(cfg), s1, Pins(After(cfg), 0, d.mosi, d.miso), Level(After(cfg), post));
    LevelRun(cfg, Step(cfg)(s1, Pins(After(cfg), 0, d.mosi, d.miso)).0, After(cfg), post);
  }

  lemma {:induction false} BitsRun(cfg: Config, s: State, ds: seq<Data>, timing: nat -> BitTiming)
    requires FourModes(cfg) && s.mosi == s.miso == [] && |ds| < 8
    ensures
      var (t, words) := Run(Step(cfg), s, BitsWave(cfg, ds, timing));
      t.mosi == Mosi(ds) && t.miso == Miso(ds) && words == []
    ensures Run(Step(cfg), s, BitsWave(cfg, ds, timing)).0.clk == if ds == [] then s.clk else After(cfg)
    decreases |ds|
  {
    hide Run, BitWave;
    if ds == [] {
      RunNothing(Step(cfg), s);
    } else {
      var n := |ds| - 1;
      BitsRun(cfg, s, ds[..n], timing);
      RunAppend(Step(cfg), s, BitsWave(cfg, ds[..n], timing), BitWave(cfg, ds[n], timing(n)));
      BitRun(cfg, Run(Step(cfg), s, BitsWave(cfg, ds[..n], timing)).0, ds[n], timing(n));
      assert Mosi(ds) == Mosi(ds[..n]) + [ds[n].mosi];
      assert Miso(ds) == Miso(ds[..n]) + [ds[n].miso];
    }
  }

  lemma {:induction false} PairRun(cfg: Config, s: State, p: SentPair)
    requires FourModes(cfg) && s.mosi == s.miso == []
    ensures
      var (t, words) := Run(Step(cfg), s, BitsWave(cfg, PairBits(p), p.timing));
      t == State(After(cfg), [], []) && words == [Word(p.mosi, p.miso)]
  {
    hide Run, BitWave, MsbFirst;
    var ds := PairBits(p);
    BitsRun(cfg, s, ds[..7], p.timing);
    RunAppend(Step(cfg), s, BitsWave(cfg, ds[..7], p.timing), BitWave(cfg, ds[7], p.timing(7)));
    BitRun(cfg, Run(Step(cfg), s, BitsWave(cfg, ds[..7], p.timing)).0, ds[7], p.timing(7));
    assert Mosi(ds[..7]) + [ds[7].mosi] == MsbBits(p.mosi);
    assert Miso(ds[..7]) + [ds[7].miso] == MsbBits(p.miso);
    MsbRoundTrip(p.mosi);
    MsbRoundTrip(p.miso);
  }

  lemma {:induction false} PairsRun(cfg: Config, s: State, ps: seq<SentPair>)
    requires FourModes(cfg) && s.mosi == s.miso == []
    ensures
      var (t, words) := Run(Step(cfg), s, PairsWave(cfg, ps));
      t == State(if ps == [] then s.clk else After(cfg), [], []) && words == PairWords(ps)
    decreases |ps|
  {
    hide Run, Step, BitsWave, PairBits;
    if ps == [] {
      RunNothing(Step(cfg), s);
    } else {
      var front, p := ps[..|ps| - 1], ps[|ps| - 1];
      PairsRun(cfg, s, front);
      RunAppend(Step(cfg), s, PairsWave(cfg, front), BitsWave(cfg, PairBits(p), p.timing));
      PairRun(cfg, Run(Step(cfg), s, PairsWave(cfg, front)).0, p);
      assert PairWords(ps) == PairWords(front) + [Word(p.mosi, p.miso)];
    }
  }

  /** While CS is high the decoder forgets the pending bits and emits nothing. */
  lemma {:induction false} NoiseRun(cfg: Config, s: State, w: seq<(bit, Data)>)
    ensures
      var r := Run(Step(cfg), s, Map((x: (bit, Data)) => Pins(x.0, 1, x.1.mosi, x.1.miso), w));
      r.0 == (if w == [] then s else State(w[|w| - 1].0, [], [])) && r.1 == []
    decreases |w|
  {
    var f := (x: (bit, Data)) => Pins(x.0, 1, x.1.mosi, x.1.miso);
    if w != [] {
      var front := w[..|w| - 1];
      NoiseRun(cfg, s, front);
      assert Map(f, w)[..|w| - 1] == Map(f, front);
    }
  }

  lemma {:induction false} FrameRun(cfg: Config, s: State, f: Frame)
    requires FourModes(cfg) && s == State(Idle(cfg), [], []) && |f.cut| < 8
    ensures
      var (t, words) := Run(Step(cfg), s, FrameWave(cfg, f));
      t == State(Idle(cfg), [], []) && words == PairWords(f.pairs)
  {
    hide Run, Step, PairsWave, BitsWave, Level, PairWords, Map;
    var st := Step(cfg);
    var lead, body, cut := Level(Idle(cfg), [f.setup] + f.lead), PairsWave(cfg, f.pairs), BitsWave(cfg, f.cut, f.cutTiming);
    var trail, gap := Level(Idle(cfg), f.trail), GapWave(cfg, f.gap);
    LevelRun(cfg, s, Idle(cfg), [f.setup] + f.lead);
    RunAppend(st, s, lead, body);
    PairsRun(cfg, s, f.pairs);
    var s2 := Run(st, s, body).0;
    RunAppend(st, s, lead + body, cut);
    BitsRun(cfg, s2, f.cut, f.cutTiming);
    var s3 := Run(st, s2, cut).0;
    RunAppend(st, s, lead + body + cut, trail);
    LevelRun(cfg, s3, Idle(cfg), f.trail);
    RunAppend(st, s, lead + body + cut + trail, gap);
    NoiseRun(cfg, Run(st, s3, trail).0, f.gap.noise + [(Idle(cfg), f.gap.last)]);
  }

  lemma {:induction false} FramesRun(cfg: Config, s: State, fs: seq<Frame>)
    requires FourModes(cfg) && s == State(Idle(cfg), [], [])
    requires forall f :: f in fs ==> |f.cut| < 8
    ensures
      var (t, words) := Run(Step(cfg), s, FramesWave(cfg, fs));
      t == s && words == SentWords(fs)
    decreases |fs|
  {
    hide Run, Step, FrameWave, PairWords;
    if fs == [] {
      RunNothing(Step(cfg), s);
    } else {
      var front, last := fs[..|fs| - 1], fs[|fs| - 1];
      FramesRun(cfg, s, front);
      RunAppend(Step(cfg), s, FramesWave(cfg, front), FrameWave(cfg, last));
      FrameRun(cfg, s, last);
    }
  }

  /** Decoding an exchange framed by CS returns exactly its byte pairs; cut pairs leave no trace. */
  lemma {:induction false} RoundTrip(cfg: Config, gap: Gap, fs: seq<Frame>)
    requires FourModes(cfg)
    requires forall f :: f in fs ==> |f.cut| < 8
    ensures Words(cfg, BusWave(cfg, gap, fs)) == SentWords(fs)
  {
    hide Run, Step, FramesWave, SentWords;
    var wave, idle := BusWave(cfg, gap, fs), GapWave(cfg, gap);
    var init := State(wave[0].clk, [], []);
    HeadRepeats(cfg, wave);
    RunAppend(Step(cfg), init, idle, FramesWave(cfg, fs));
    NoiseRun(cfg, init, gap.noise + [(Idle(cfg), gap.last)]);
    FramesRun(cfg, State(Idle(cfg), [], []), fs);
  }

  /** The same for a capture whose four lines are the trace, whatever the other channels and the clock show. */
  lemma {:induction false} CaptureRoundTrip(cfg: Config, gap: Gap, fs: seq<Frame>, samples: seq<Sample>)
    requires cfg.cpol < 2 && cfg.cpha < 2
    requires cfg.clkChannel < 8 && cfg.csChannel < 8 && cfg.mosiChannel < 8 && cfg.misoChannel < 8
    requires forall f :: f in fs ==> |f.cut| < 8
    requires Lane(samples, cfg.clkChannel) == Map((p: Pins) => p.clk, BusWave(cfg, gap, fs))
    requires Lane(samples, cfg.csChannel) == Map((p: Pins) => p.cs, BusWave(cfg, gap, fs))
    requires Lane(samples, cfg.mosiChannel) == Map((p: Pins) => p.mosi, BusWave(cfg, gap, fs))
    requires Lane(samples, cfg.misoChannel) == Map((p: Pins) => p.miso, BusWave(cfg, gap, fs))
    ensures Map(WordOf, Events(samples, cfg)) == SentWords(fs)
  {
    hide Bit, BusWave, SentWords;
    var wave := BusWave(cfg, gap, fs);
    assert |wave| == |Lane(samples, cfg.clkChannel)| == |samples|;
    forall k | 0 <= k < |samples|
      ensures PinsOf(cfg, samples[k]) == wave[k]
    {
      assert Lane(samples, cfg.clkChannel)[k] == wave[k].clk;
      assert Lane(samples, cfg.csChannel)[k] == wave[k].cs;
      assert Lane(samples, cfg.mosiChannel)[k] == wave[k].mosi;
      assert Lane(samples, cfg.misoChannel)[k] == wave[k].miso;
    }
    assert Map(x => PinsOf(cfg, x), samples) == wave;
    RoundTrip(cfg, gap, fs);
    EventWords(samples, cfg);
  }
}
