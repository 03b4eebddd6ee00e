/** The registers of a SUMP session, and the settings the server derives from them. */
module SumpSession {
  import opened Arith
  import opened Bits
  import opened TriggerGate
  import opened SumpProtocol

  const MAX_TARGET: nat := 0x10_0000

  datatype Registers = Registers(divider: uint32, readCount: uint32, mask: byte, value: byte, mode: byte)

  /** A session with the settings of the analyzer beside it. */
  datatype World = World(regs: Registers, rate: uint32, trigger: Trigger)

  /** `(uint32_t)(capture_samples - 1)`, or 4095. */
  function StartCount(captureSamples: uint64): uint32 {
    if captureSamples > 0 then (captureSamples - 1) % 0x1_0000_0000 else 4095
  }

  function StartRegisters(captureSamples: uint64): Registers {
    Registers(0, StartCount(captureSamples), 0, 0, 0)
  }

  function Set(r: Registers, opcode: Opcode, param: uint32): Registers {
    if opcode == SET_DIVIDER then r.(divider := param)
    else if opcode == SET_READ_COUNT then r.(readCount := param)
    else if opcode == SET_MASK then r.(mask := param % 0x100)
    else if opcode == SET_VALUE then r.(value := param % 0x100)
    else if opcode == SET_MODE then r.(mode := param % 0x100)
    else r
  }

  /** `divider + 1` is not zero in 32 bits. */
  predicate Divides(r: Registers) {
    r.divider != 0xFFFF_FFFF
  }

  function Rate(r: Registers, maxRate: uint32): uint32
    requires Divides(r)
  {
    var rate := if r.divider == 0 then maxRate else maxRate / (r.divider + 1);
    if rate == 0 then 1 else rate
  }

  function MappedMode(mode: byte): Mode {
    if mode == 1 then Rising
    else if mode == 2 then Falling
    else if mode == 3 then High
    else if mode == 4 then Low
    else NoTrigger
  }

  /** The lowest channel in the mask, or 0. */
  function Channel(mask: byte): (c: byte)
    ensures c < 8
    ensures mask != 0 ==> Bit(mask, c) == 1 && forall j :: 0 <= j < c ==> Bit(mask, j) == 0
    ensures mask == 0 ==> c == 0
  {
    if mask == 0 then 0
    else
      BitsSum(mask);
      if Bit(mask, 0) == 1 then 0
      else if Bit(mask, 1) == 1 then 1
      else if Bit(mask, 2) == 1 then 2
      else if Bit(mask, 3) == 1 then 3
      else if Bit(mask, 4) == 1 then 4
      else if Bit(mask, 5) == 1 then 5
      else if Bit(mask, 6) == 1 then 6
      else 7
  }

  function SessionTrigger(r: Registers): (t: Trigger)
    ensures t.channel < 8
  {
    var channel := Channel(r.mask);
    var mode := MappedMode(r.mode);
    if mode == NoTrigger && r.mask != 0 then Trigger(if Bit(r.value, channel) == 1 then High else Low, channel)
    else Trigger(mode, channel)
  }

  /** The number of samples one capture asks for: at least one, at most 2^20, whatever the registers hold. */
  function Target(readCount: uint32, captureSamples: uint64): (n: nat)
    ensures 1 <= n <= 0x10_0000
  {
    var target := if readCount != 0 then (readCount + 1) % 0x1_0000_0000 else captureSamples;
    Min(if target == 0 then 4096 else target, MAX_TARGET)
  }

  /** What a command does to the session and the analyzer; a divider that cannot be applied stops the process. */
  function Step(w: World, c: Command, captureSamples: uint64, maxRate: uint32): World {
    match c
    case Reset => w.(regs := StartRegisters(captureSamples))
    case Long(opcode, param) => w.(regs := Set(w.regs, opcode, param))
    case Arm => if Divides(w.regs) then w.(rate := Rate(w.regs, maxRate), trigger := SessionTrigger(w.regs)) else w
    case _ => w
  }

  function Execute(w: World, cs: seq<Command>, captureSamples: uint64, maxRate: uint32): World {
    if cs == [] then w
    else Step(Execute(w, cs[..|cs| - 1], captureSamples, maxRate), cs[|cs| - 1], captureSamples, maxRate)
  }

  /** The register behind an opcode; opcodes without one read 0. */
  function Register(r: Registers, opcode: Opcode): nat {
    if opcode == SET_DIVIDER then r.divider
    else if opcode == SET_READ_COUNT then r.readCount
    else if opcode == SET_MASK then r.mask
    else if opcode == SET_VALUE then r.value
    else if opcode == SET_MODE then r.mode
    else 0
  }

  /** The part of a parameter its register keeps. */
  function Kept(opcode: Opcode, param: uint32): nat {
    if opcode == SET_DIVIDER || opcode == SET_READ_COUNT then param
    else if opcode == SET_MASK || opcode == SET_VALUE || opcode == SET_MODE then param % 0x100
    else 0
  }

  predicate Touches(c: Command, opcode: Opcode) {
    c == Reset || (c.Long? && c.opcode == opcode)
  }

  /** `k` is the last command that resets the session or sets this register. */
  predicate LastTouch(cs: seq<Command>, opcode: Opcode, k: nat) {
    k < |cs| && Touches(cs[k], opcode) && forall j :: k < j < |cs| ==> !Touches(cs[j], opcode)
  }

  /** A register depends only on the last command that resets or sets it. */
  lemma {:induction false} LastSettingWins(w: World, cs: seq<Command>, captureSamples: uint64, maxRate: uint32,
                                           opcode: Opcode, k: nat)
    requires LastTouch(cs, opcode, k)
    ensures
      Register(Execute(w, cs, captureSamples, maxRate).regs, opcode)
      == if cs[k] == Reset then Register(StartRegisters(captureSamples), opcode) else Kept(opcode, cs[k].param)
    decreases |cs|
  {
    hide StartCount, Rate, SessionTrigger;
    var last := |cs| - 1;
    if k < last {
      LastSettingWins(w, cs[..last], captureSamples, maxRate, opcode, k);
      assert !Touches(cs[last], opcode);
    }
  }

  /** A register nothing touches keeps its value. */
  lemma {:induction false} Untouched(w: World, cs: seq<Command>, captureSamples: uint64, maxRate: uint32, opcode: Opcode)
    requires forall k :: 0 <= k < |cs| ==> !Touches(cs[k], opcode)
    ensures Register(Execute(w, cs, captureSamples, maxRate).regs, opcode) == Register(w.regs, opcode)
    decreases |cs|
  {
    hide StartCount, Rate, SessionTrigger;
    if cs != [] {
      var last := |cs| - 1;
      Untouched(w, cs[..last], captureSamples, maxRate, opcode);
      assert !Touches(cs[last], opcode);
    }
  }

  lemma {:induction false} ExecuteAppend(w: World, a: seq<Command>, b: seq<Command>, captureSamples: uint64, maxRate: uint32)
    ensures Execute(w, a + b, captureSamples, maxRate)
         == Execute(Execute(w, a, captureSamples, maxRate), b, captureSamples, maxRate)
    decreases |b|
  {
    hide Step;
    if b == [] {
      assert a + b == a;
    } else {
      assert (a + b)[..|a + b| - 1] == a + b[..|b| - 1];
      ExecuteAppend(w, a, b[..|b| - 1], captureSamples, maxRate);
    }
  }

  /** Behind a RESET the session is as new: nothing sent before it shows in the registers. */
  lemma {:induction false} ResetForgets(w: World, v: World, a: seq<Command>, b: seq<Command>, captureSamples: uint64, maxRate: uint32)
    requires v.regs == StartRegisters(captureSamples)
    ensures Execute(w, a + [Reset] + b, captureSamples, maxRate).regs == Execute(v, b, captureSamples, maxRate).regs
    decreases |b|
  {
    hide StartRegisters, Rate, SessionTrigger, Set;
    if b == [] {
      assert (a + [Reset] + b)[..|a|] == a;
    } else {
      assert (a + [Reset] + b)[..|a + [Reset] + b| - 1] == a + [Reset] + b[..|b| - 1];
      ResetForgets(w, v, a, b[..|b| - 1], captureSamples, maxRate);
    }
  }

  /** The applied rate is the maximum divided by `divider + 1`, rounded down, but at least 1. */
  lemma {:induction false} RateBounds(r: Registers, maxRate: uint32)
    requires Divides(r) && maxRate >= 1
    ensures
      var rate := Rate(r, maxRate);
      && 1 <= rate <= maxRate
      && maxRate < (rate + 1) * (r.divider + 1)
      && if r.divider < maxRate then rate * (r.divider + 1) <= maxRate else rate == 1
  {
    var d := r.divider + 1;
    var q := maxRate / d;
    assert maxRate == q * d + maxRate % d;
    if r.divider < maxRate {
      assert q >= 1;
      RateAtMost(q, d);
    } else {
      Quotient(maxRate, d, 0);
    }
  }

  lemma {:induction false} RateAtMost(q: nat, d: nat)
    requires d > 0
    ensures q <= q * d
  {
    MulMono(1, d, q);
  }

  /**
   What the trigger of a session waits for. A mode from 1 to 4 looks at the lowest masked channel; with a mask and
   any other mode the gate opens at the first sample that agrees with the value on that channel; with neither it is
   open.
   */
  lemma {:induction false} TriggerMeaning(r: Registers, previous: byte, current: byte)
    ensures
      var t, c := SessionTrigger(r), Channel(r.mask);
      var p, q := Bit(previous, c), Bit(current, c);
      && (Matches(t, previous, current) <==>
            if r.mode == 1 then p == 0 && q == 1
            else if r.mode == 2 then p == 1 && q == 0
            else if r.mode == 3 then q == 1
            else if r.mode == 4 then q == 0
            else r.mask == 0 || q == Bit(r.value, c))
      && (t.mode == NoTrigger <==> r.mask == 0 && !(1 <= r.mode <= 4))
  {
    hide Channel, Bit;
  }

  /** The target a client sets is one more than the count it sends, up to the limit, except at both ends of the range. */
  lemma {:induction false} TargetOfSetting(readCount: uint32, captureSamples: uint64)
    ensures
      Target(readCount, captureSamples) == Min(readCount + 1, 0x10_0000)
      <==> (if readCount == 0 then captureSamples == 1 else readCount != 0xFFFF_FFFF)
  {
  }

  /**
   Without a count from the client the target should be the configured number of samples, up to the limit. The
   count is kept in 32 bits, so for larger configurations this holds only when the cut-off number is large or 1.
   */
  lemma {:induction false} DefaultTarget(captureSamples: uint64)
    requires captureSamples > 0
    ensures
      var low := captureSamples % 0x1_0000_0000;
      Target(StartCount(captureSamples), captureSamples) == Min(captureSamples, 0x10_0000)
      <==> (captureSamples < 0x1_0000_0000 || low == 1 || low >= 0x10_0000)
  {
    var high := captureSamples / 0x1_0000_0000;
    var low := captureSamples % 0x1_0000_0000;
    if low == 0 {
      Remainder(captureSamples - 1, 0x1_0000_0000, high - 1);
    } else {
      Remainder(captureSamples - 1, 0x1_0000_0000, high);
    }
  }

  /** After a RESET, or at the start, a capture runs at the maximum rate, without a trigger. */
  lemma {:induction false} FreshSession(w: World, before: seq<Command>, captureSamples: uint64, maxRate: uint32)
    requires maxRate > 0
    ensures
      var t := Execute(w, before + [Reset] + [Arm], captureSamples, maxRate);
      && t.rate == maxRate && t.trigger.mode == NoTrigger
      && t.regs.readCount == (if captureSamples == 0 then 4095 else (captureSamples - 1) % 0x1_0000_0000)
  {
    assert (before + [Reset] + [Arm])[..|before| + 1] == before + [Reset];
    assert (before + [Reset])[..|before|] == before;
  }
}
