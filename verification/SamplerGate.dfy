/**
 The trigger gate between the sampling thread and whoever sets the trigger, in steps as small as the shared accesses:
 the sampler loads `armed`, then, if it was set, reads the trigger and tests the value, then stores 0 after a match,
 and only then takes the value;
 setting a trigger writes it and stores `armed` afterwards; arming is a store alone.
 The two fields of a trigger are written and read together.
 */
module SamplerGate {
  import opened Bits
  import opened TriggerGate
  import LogicAnalyzer

  /** Where the sampler is with the value it has read. */
  datatype Phase = Between | Loaded(raw: byte) | Matched(raw: byte) | Decided(raw: byte, keep: bool)

  /** What has happened since the trigger was last written or `armed` last stored by its setter. */
  datatype Since = Since(armed: bool, prev: byte, raws: seq<byte>, mark: nat)

  /** The shared variables, the sampler's state, and the history: all values decided on, and all values taken. */
  datatype State = State(
    trigger: Trigger, armed: bool, lastRaw: byte, phase: Phase,
    raws: seq<byte>, passed: seq<byte>, since: Since)

  datatype Action =
    | Load(raw: byte)
    | Test
    | StoreZero
    | Take
    | WriteTrigger(trigger: Trigger)
    | StoreArmed(armed: bool)

  const INITIAL: State := State(Trigger(NoTrigger, 0), false, 0, Between, [], [], Since(false, 0, [], 0))

  /** The last value decided on. */
  function LastDecided(s: State): byte {
    if s.phase.Between? || s.phase.Loaded? then s.lastRaw else s.phase.raw
  }

  /** The value that is decided on and about to be taken. */
  function Coming(s: State): seq<byte> {
    if s.phase.Matched? || (s.phase.Decided? && s.phase.keep) then [s.phase.raw] else []
  }

  /** Whether the next test will find the gate closed: a store of 0 may still be due. */
  predicate Closed(s: State) {
    s.armed && !s.phase.Matched?
  }

  function Restarted(s: State, armed: bool): State {
    s.(since := Since(armed, LastDecided(s), [], |s.passed| + |Coming(s)|))
  }

  /** The value is decided on; `phase` says how. */
  function Entered(s: State, raw: byte, phase: Phase): State {
    s.(phase := phase, raws := s.raws + [raw], since := s.since.(raws := s.since.raws + [raw]))
  }

  /** One step; a step that is not enabled changes nothing. */
  function Step(s: State, a: Action): State {
    match a
    case Load(raw) =>
      if !s.phase.Between? then s
      else if s.armed then s.(phase := Loaded(raw))
      else Entered(s, raw, Decided(raw, true))
    case Test =>
      if s.phase.Loaded? && s.trigger.channel < 8 then
        var raw := s.phase.raw;
        Entered(s, raw, if Matches(s.trigger, s.lastRaw, raw) then Matched(raw) else Decided(raw, false))
      else s
    case StoreZero =>
      if s.phase.Matched? then s.(armed := false, phase := Decided(s.phase.raw, true)) else s
    case Take =>
      if s.phase.Decided? then
        s.(passed := s.passed + Coming(s), lastRaw := s.phase.raw, phase := Between)
      else s
    case WriteTrigger(trigger) =>
      if trigger.channel < 8 then Restarted(s, Closed(s)).(trigger := trigger) else s
    case StoreArmed(armed) =>
      Restarted(s, armed).(armed := armed)
  }

  /**
   An arming between a match and the store that follows it, or a test that fails although the gate was opened
   between the load of `armed` and the test.
   */
  predicate Clash(s: State, a: Action)
    requires s.trigger.channel < 8
  {
    || (s.phase.Matched? && a == StoreArmed(true))
    || (s.phase.Loaded? && a == Test && !s.armed && !Matches(s.trigger, s.lastRaw, s.phase.raw))
  }

  /** The last value is the one before; this holds in every run. */
  ghost predicate Tracked(s: State) {
    && s.trigger.channel < 8
    && LastDecided(s) == Before(0, s.raws, |s.raws|)
    && LastDecided(s) == Before(s.since.prev, s.since.raws, |s.since.raws|)
    && s.since.mark <= |s.passed| + |Coming(s)|
    && |s.since.raws| <= |s.raws| && s.since.raws == s.raws[|s.raws| - |s.since.raws|..]
    && s.since.prev == Before(0, s.raws, |s.raws| - |s.since.raws|)
  }

  /** The gate has let through what it should, and will be open or closed as it should. */
  ghost predicate Exact(s: State)
    requires Tracked(s)
  {
    && Closed(s) == StillArmed(s.since.armed, s.trigger, s.since.prev, s.since.raws)
    && (s.passed + Coming(s))[s.since.mark..] == Gated(s.since.armed, s.trigger, s.since.prev, s.since.raws)
  }

  lemma InitialExact()
    ensures Tracked(INITIAL) && Exact(INITIAL)
  {
  }

  lemma TrackedChannel(s: State)
    requires Tracked(s)
    ensures s.trigger.channel < 8
  {
  }

  lemma {:induction false} StepTracks(s: State, a: Action)
    requires Tracked(s)
    ensures Tracked(Step(s, a))
  {
    hide Matches;
  }

  /** A value that is decided on goes through the gate as the specification says, unless an open gate discards it. */
  lemma {:induction false} EnteredExact(s: State, raw: byte, phase: Phase)
    requires Tracked(s) && Exact(s) && LastDecided(s) == s.lastRaw && Coming(s) == []
    requires !s.phase.Matched? && Tracked(Entered(s, raw, phase))
    requires
      var matches := Matches(s.trigger, s.lastRaw, raw);
      || phase == (if matches then Matched(raw) else Decided(raw, false))
      || (!s.armed && phase == Decided(raw, true))
    ensures Exact(Entered(s, raw, phase)) <==> s.armed || phase != Decided(raw, false)
  {
    hide Matches, Gated, StillArmed;
    var n, raws := |s.since.raws|, s.since.raws + [raw];
    assert raws[..n] == s.since.raws && raws[..n + 1] == raws;
    LogicAnalyzer.GatedNext(s.since.armed, s.trigger, s.since.prev, raws, n);
  }

  /** A step keeps the gate exact exactly when it is no clash: a clash loses an arming or a value that is due. */
  lemma {:induction false} StepExact(s: State, a: Action)
    requires Tracked(s) && Exact(s) && Tracked(Step(s, a))
    ensures Exact(Step(s, a)) <==> !Clash(s, a)
  {
    hide Matches, Gated, StillArmed;
    match a
    case Load(raw) =>
      if s.phase.Between? && !s.armed {
        EnteredExact(s, raw, Decided(raw, true));
      }
    case Test =>
      if s.phase.Loaded? {
        EnteredExact(s, s.phase.raw, Step(s, a).phase);
      }
    case StoreZero =>
    case Take =>
      assert s.phase.Decided? ==> s.passed + Coming(s) + [] == s.passed + Coming(s);
    case WriteTrigger(trigger) =>
      if trigger.channel < 8 {
        EmptySince(Step(s, a));
      }
    case StoreArmed(_) => EmptySince(Step(s, a));
  }

  lemma EmptySince(s: State)
    requires Tracked(s) && s.since.raws == []
    ensures StillArmed(s.since.armed, s.trigger, s.since.prev, s.since.raws) == s.since.armed
    ensures Gated(s.since.armed, s.trigger, s.since.prev, s.since.raws) == []
  {
  }
}
