/** One client of the SUMP server: the socket, the session registers, and the command loop over both. */
module SumpServer {
  import opened Bits
  import opened Options
  import opened Protocol
  import opened TriggerGate
  import opened LogicAnalyzer
  import opened SumpProtocol
  import opened SumpSession

  /** The analyzer setting of the server: 4096 samples unless the configuration says otherwise. */
  function CaptureSamples(config: Option<uint64>): (n: uint64)
    ensures n > 0
    ensures config.Some? && config.value > 0 ==> n == config.value
    ensures config.None? || config.value == 0 ==> n == 4096
  {
    if config.Some? && config.value != 0 then config.value else 4096
  }

  /** A connection. Bytes arrive and leave in pieces that neither side chooses; a send may fail. */
  class Socket {
    var incoming: seq<byte>
    var outgoing: seq<byte>
    /** No send has failed so far. */
    ghost var intact: bool

    constructor (bytes: seq<byte>)
      ensures incoming == bytes && outgoing == [] && intact
    {
      incoming, outgoing, intact := bytes, [], true;
    }

    /** At least one byte and at most `len`, or nothing when the peer has closed. */
    method Recv(len: nat) returns (chunk: seq<byte>)
      requires len > 0
      modifies this`incoming
      ensures chunk + incoming == old(incoming) && |chunk| <= len
      ensures chunk == [] <==> old(incoming) == []
    {
      if incoming == [] {
        return [];
      }
      var n: nat :| 1 <= n <= len && n <= |incoming|;
      chunk := incoming[..n];
      incoming := incoming[n..];
    }

    /** Some of the bytes, or none when the send fails. */
    method Send(bytes: seq<byte>) returns (n: nat)
      requires bytes != []
      modifies this`outgoing, this`intact
      ensures n <= |bytes| && outgoing == old(outgoing) + bytes[..n]
      ensures intact == (old(intact) && n > 0)
    {
      n :| 0 <= n <= |bytes|;
      outgoing := outgoing + bytes[..n];
      intact := intact && n > 0;
    }

    /** However the bytes arrive, the first `len` of them are received, unless the stream ends before. */
    method RecvExact(len: nat) returns (ok: bool, bytes: seq<byte>)
      modifies this`incoming
      ensures ok <==> |old(incoming)| >= len
      ensures bytes + incoming == old(incoming)
      ensures if ok then |bytes| == len else incoming == []
    {
      bytes := [];
      while |bytes| < len
        invariant |bytes| <= len
        invariant bytes + incoming == old(incoming)
      {
        var chunk := Recv(len - |bytes|);
        if chunk == [] {
          return false, bytes;
        }
        bytes := bytes + chunk;
      }
      ok := true;
    }

    /** However the bytes leave, all of them are sent, unless a send fails. */
    method SendAll(bytes: seq<byte>) returns (ok: bool)
      modifies this`outgoing, this`intact
      ensures ok ==> outgoing == old(outgoing) + bytes && intact == old(intact)
      ensures !ok ==> !intact && exists n: nat :: n < |bytes| && outgoing == old(outgoing) + bytes[..n]
    {
      var sent := 0;
      while sent < |bytes|
        invariant sent <= |bytes|
        invariant outgoing == old(outgoing) + bytes[..sent] && intact == old(intact)
      {
        var n := Send(bytes[sent..]);
        assert bytes[..sent] + bytes[sent..][..n] == bytes[..sent + n];
        if n == 0 {
          return false;
        }
        sent := sent + n;
      }
      assert bytes[..sent] == bytes;
      ok := true;
    }
  }

  /** Why the loop of a client ends: nothing more to read, a capture that failed, or a division by zero. */
  datatype Outcome = Ended | Failed | Fault

  datatype Round = More | NoMore | Broken(outcome: Outcome)

  /** What stays the same while a client is served. */
  datatype Setup = Setup(start: World, captureSamples: uint64, maxRate: uint32, memory: nat)

  function Reached(t: Setup, cs: seq<Command>): World {
    Execute(t.start, cs, t.captureSamples, t.maxRate)
  }

  /** A capture: how many samples it was asked for and which came. */
  datatype Capture = Capture(asked: nat, samples: seq<Sample>)

  /** A reply: the bytes sent, and the capture they come from if there was one. */
  datatype Reply = Reply(bytes: seq<byte>, capture: Option<Capture>)

  /** The bytes are the channels of the samples, one byte for each. */
  ghost predicate Shows(bytes: seq<byte>, samples: seq<Sample>) {
    |bytes| == |samples| && forall k :: 0 <= k < |bytes| ==> bytes[k] == samples[k].channels
  }

  /**
   What a command is answered with. A capture needs a divider that can be applied; it asks for `Target` samples and
   sends the channels of those that come.
   */
  ghost predicate Answered(t: Setup, r: Registers, c: Command, reply: Reply) {
    match c
    case Id => reply == Reply(SIGNATURE, None)
    case Meta => reply == Reply(Metadata(t.memory, t.maxRate), None)
    case Arm =>
      && Divides(r) && reply.capture.Some?
      && var capture := reply.capture.value;
         && capture.asked == Target(r.readCount, t.captureSamples)
         && |capture.samples| <= capture.asked
         && Shows(reply.bytes, capture.samples)
    case _ => reply == Reply([], None)
  }

  /** Every command is answered under the registers that the commands before it have set. */
  ghost predicate Transcript(t: Setup, cs: seq<Command>, replies: seq<Reply>) {
    && |replies| == |cs|
    && forall k :: 0 <= k < |cs| ==> Answered(t, Reached(t, cs[..k]).regs, cs[k], replies[k])
  }

  /** The bytes of all replies, in order. */
  function Flat(replies: seq<Reply>): seq<byte> {
    if replies == [] then [] else Flat(replies[..|replies| - 1]) + replies[|replies| - 1].bytes
  }

  class Client {
    const captureSamples: uint64
    const socket: Socket
    const la: Analyzer
    var divider: uint32
    var readCount: uint32
    var mask: byte
    var value: byte
    var mode: byte

    constructor (captureSamples: uint64, socket: Socket, la: Analyzer)
      ensures this.captureSamples == captureSamples && this.socket == socket && this.la == la
      ensures Regs() == StartRegisters(captureSamples)
    {
      this.captureSamples, this.socket, this.la := captureSamples, socket, la;
      divider, readCount, mask, value, mode := 0, StartCount(captureSamples), 0, 0, 0;
    }

    ghost function Regs(): Registers
      reads this
    {
      Registers(divider, readCount, mask, value, mode)
    }

    ghost function Current(): World
      reads this, la
    {
      World(Regs(), la.sampleRate, la.trigger)
    }

    /** Puts the registers to their start values. */
    method Restart()
      modifies this
      ensures Regs() == StartRegisters(captureSamples)
    {
      divider, readCount, mask, value, mode := 0, StartCount(captureSamples), 0, 0, 0;
    }

    method SetRegister(opcode: Opcode, param: uint32)
      modifies this
      ensures Regs() == Set(old(Regs()), opcode, param)
    {
      match opcode {
        case 0x80 => divider := param;
        case 0x81 => readCount := param;
        case 0xC0 => mask := param % 0x100;
        case 0xC1 => value := param % 0x100;
        case 0xC2 => mode := param % 0x100;
        case _ =>
      }
    }

    /** The lowest channel in the mask, or 0. */
    method FindChannel() returns (channel: byte)
      ensures channel == Channel(mask)
    {
      channel := 0;
      if mask != 0 {
        while channel < 8
          invariant channel <= 8
          invariant forall j :: 0 <= j < channel ==> Bit(mask, j) == 0
        {
          if Bit(mask, channel) != 0 {
            break;
          }
          channel := channel + 1;
        }
      }
      if channel >= 8 {
        channel := 0;
      }
    }

    /** Brings the analyzer in line with the registers. */
    method ApplySession() returns (ok: bool)
      requires la.Rated()
      modifies la`sampleRate, la`periodNs, la`trigger, la`armed
      ensures la.Rated()
      ensures ok <==> Divides(Regs())
      ensures !ok ==> unchanged(la)
      ensures ok ==> la.sampleRate == Rate(Regs(), la.maxSampleRate) && la.trigger == SessionTrigger(Regs())
      ensures ok ==> la.armed == (la.trigger.mode != NoTrigger)
    {
      hide Bit;
      if divider == 0xFFFF_FFFF {
        return false;
      }
      RateBounds(Regs(), la.maxSampleRate);
      var sampleRate := if divider == 0 then la.maxSampleRate else la.maxSampleRate / (divider + 1);
      if sampleRate == 0 {
        sampleRate := 1;
      }
      var _ := la.SetSampleRate(sampleRate);
      var channel := FindChannel();
      var m := MappedMode(mode);
      if m == NoTrigger && mask != 0 {
        m := if Bit(value, channel) != 0 then High else Low;
      }
      var _ := la.SetTrigger(Trigger(m, channel));
      la.Arm();
      ok := true;
    }

    /**
     Configures the analyzer, captures and sends what was captured. How many samples come in time, and whether
     there is memory for them, is up to the environment.
     */
    method StreamCapture() returns (outcome: Outcome, ghost reply: Reply)
      requires la.Rated()
      modifies socket`outgoing, socket`intact, la`sampleRate, la`periodNs, la`trigger, la`armed
      ensures la.Rated()
      ensures outcome == Fault ==> !Divides(Regs()) && Current() == old(Current())
      ensures outcome != Ended ==> socket.intact ==> old(socket.intact) && socket.outgoing == old(socket.outgoing)
      ensures outcome == Ended ==>
                && Divides(Regs())
                && reply.capture.Some?
                && reply.capture.value.asked == Target(readCount, captureSamples)
                && |reply.capture.value.samples| <= reply.capture.value.asked
                && Shows(reply.bytes, reply.capture.value.samples)
                && la.sampleRate == Rate(Regs(), la.maxSampleRate) && la.trigger == SessionTrigger(Regs())
                && socket.outgoing == old(socket.outgoing) + reply.bytes && socket.intact == old(socket.intact)
    {
      var target := if readCount != 0 then (readCount + 1) % 0x1_0000_0000 else captureSamples;
      if target == 0 {
        target := 4096;
      }
      if target > MAX_TARGET {
        target := MAX_TARGET;
      }
      var enough: bool := *;
      if !enough {
        return Failed, Reply([], None);
      }
      var applied := ApplySession();
      if !applied {
        return Fault, Reply([], None);
      }
      var samples, capture := Captured(target);
      var bytes := seq(|samples|, k requires 0 <= k < |samples| => samples[k].channels);
      reply := Reply(bytes, Some(capture));
      var sent := socket.SendAll(bytes);
      outcome := if sent then Ended else Failed;
    }

    /** What a blocking capture may return. */
    method Captured(target: nat) returns (samples: seq<Sample>, ghost capture: Capture)
      ensures |samples| <= target && capture == Capture(target, samples)
    {
      var none: seq<Sample> := [];
      assert |none| <= target;
      samples :| |samples| <= target;
      capture := Capture(target, samples);
    }

    ghost predicate For(t: Setup)
      reads la
    {
      t.captureSamples == captureSamples && t.maxRate == la.maxSampleRate && t.memory == la.ringCapacitySamples
    }

    /** One round of the command loop: a command is read and handled, or there is none, or a capture ends the loop. */
    method HandleOne(ghost t: Setup) returns (round: Round, ghost c: Command, ghost reply: Reply)
      requires la.Rated() && For(t)
      modifies this, socket, la`sampleRate, la`periodNs, la`trigger, la`armed
      ensures la.Rated() && For(t)
      ensures socket.intact ==> old(socket.intact)
      ensures round == More ==>
                && Commands(old(socket.incoming)) == [c] + Commands(socket.incoming)
                && |socket.incoming| < |old(socket.incoming)|
                && Answered(t, old(Regs()), c, reply)
                && Current() == Step(old(Current()), c, captureSamples, la.maxSampleRate)
                && (socket.intact ==> socket.outgoing == old(socket.outgoing) + reply.bytes)
      ensures round == NoMore ==> Commands(old(socket.incoming)) == [] && Current() == old(Current())
      ensures round.Broken? ==>
                && round.outcome != Ended
                && [Arm] <= Commands(old(socket.incoming)) && Regs() == old(Regs())
                && (round.outcome == Fault ==> !Divides(Regs()) && Current() == old(Current()))
      ensures round != More && socket.intact ==> socket.outgoing == old(socket.outgoing)
    {
      hide Commands, Param, Metadata, Rate, Divides, StartRegisters, SessionTrigger, Target;
      ghost var before := socket.incoming;
      var cmd := socket.Recv(1);
      c, reply := Reset, Reply([], None);
      if cmd == [] {
        Stop(before);
        return NoMore, c, reply;
      }
      if cmd[0] == 0x00 {
        Restart();
      } else if cmd[0] == 0x02 {
        c, reply := Id, Reply(SIGNATURE, None);
        var _ := socket.SendAll(SIGNATURE);
      } else if cmd[0] == 0x04 {
        c, reply := Meta, Reply(Metadata(la.ringCapacitySamples, la.maxSampleRate), None);
        var _ := socket.SendAll(Metadata(la.ringCapacitySamples, la.maxSampleRate));
      } else if cmd[0] == 0x01 {
        c := Arm;
        ShortAt(before, Arm);
        var outcome, sent := StreamCapture();
        reply := sent;
        if outcome != Ended {
          return Broken(outcome), c, reply;
        }
      } else if cmd[0] >= 0x80 {
        var ok, bytes := socket.RecvExact(4);
        if !ok {
          Stop(before);
          return NoMore, c, reply;
        }
        LongAt(before, bytes, socket.incoming);
        c := Long(cmd[0], Param(bytes));
        SetRegister(cmd[0], Param(bytes));
      } else {
        Stop(before);
        return NoMore, c, reply;
      }
      if !c.Long? {
        ShortAt(before, c);
      }
      round := More;
    }

    /**
     The command loop. It handles exactly the commands of the incoming stream, in order, whatever pieces the stream
     arrives in, and stops early only at an ARM: because a capture failed, or because the divider cannot be applied.
     */
    method Serve() returns (outcome: Outcome, ghost handled: seq<Command>, ghost replies: seq<Reply>)
      requires la.Rated()
      modifies this, socket, la`sampleRate, la`periodNs, la`trigger, la`armed
      ensures la.Rated()
      ensures outcome == Ended ==> handled == Commands(old(socket.incoming))
      ensures outcome != Ended ==> handled + [Arm] <= Commands(old(socket.incoming))
      ensures
        var t := Setup(World(StartRegisters(captureSamples), old(la.sampleRate), old(la.trigger)),
                       captureSamples, la.maxSampleRate, la.ringCapacitySamples);
        && Transcript(t, handled, replies)
        && Regs() == Reached(t, handled).regs
        && (outcome != Failed ==> Current() == Reached(t, handled))
      ensures outcome == Fault ==> !Divides(Regs())
      ensures socket.intact ==> old(socket.intact) && socket.outgoing == old(socket.outgoing) + Flat(replies)
    {
      hide Analyzer.Rated, Commands, Reached, Transcript, Flat, Divides, StartRegisters, Answered, Step;
      Restart();
      handled, replies := [], [];
      ghost var t := Setup(World(StartRegisters(captureSamples), la.sampleRate, la.trigger),
                           captureSamples, la.maxSampleRate, la.ringCapacitySamples);
      Nothing(t);
      var running := true;
      outcome := Ended;
      while running
        invariant la.Rated() && outcome == Ended && For(t)
        invariant running ==> handled + Commands(socket.incoming) == Commands(old(socket.incoming))
        invariant !running ==> handled == Commands(old(socket.incoming))
        invariant Transcript(t, handled, replies) && Current() == Reached(t, handled)
        invariant socket.intact ==> old(socket.intact) && socket.outgoing == old(socket.outgoing) + Flat(replies)
        decreases running, |socket.incoming|
      {
        var round, c, reply := HandleOne(t);
        match round {
          case More =>
            Handled(t, handled, replies, c, reply);
            handled, replies := handled + [c], replies + [reply];
          case NoMore =>
            running := false;
          case Broken(why) =>
            outcome := why;
            break;
        }
      }
    }
  }

  lemma Nothing(t: Setup)
    ensures Transcript(t, [], []) && Reached(t, []) == t.start && Flat([]) == []
  {
  }

  lemma Stop(bytes: seq<byte>)
    requires bytes == [] || !Known(bytes[0]) || (bytes[0] >= 0x80 && |bytes| < 5)
    ensures Commands(bytes) == []
  {
  }

  lemma {:induction false} ShortAt(bytes: seq<byte>, c: Command)
    requires bytes != [] && !c.Long? && Image(c)[0] == bytes[0]
    ensures Commands(bytes) == [c] + Commands(bytes[1..])
  {
  }

  lemma {:induction false} LongAt(bytes: seq<byte>, params: seq<byte>, rest: seq<byte>)
    requires |params| == 4 && |bytes| == 5 + |rest| && bytes[0] >= 0x80 && bytes[1..] == params + rest
    ensures Commands(bytes) == [Long(bytes[0], Param(params))] + Commands(rest)
  {
    hide Param;
    assert bytes[1..5] == bytes[1..][..4] == params;
    assert bytes[5..] == bytes[1..][4..] == rest;
  }

  lemma {:induction false} Handled(t: Setup, cs: seq<Command>, replies: seq<Reply>, c: Command, reply: Reply)
    requires Transcript(t, cs, replies) && Answered(t, Reached(t, cs).regs, c, reply)
    ensures Transcript(t, cs + [c], replies + [reply])
    ensures Reached(t, cs + [c]) == Step(Reached(t, cs), c, t.captureSamples, t.maxRate)
    ensures Flat(replies + [reply]) == Flat(replies) + reply.bytes
  {
    hide Answered, Step;
    assert (cs + [c])[..|cs|] == cs;
    assert (replies + [reply])[..|replies|] == replies;
    forall k | 0 <= k < |cs|
      ensures Answered(t, Reached(t, (cs + [c])[..k]).regs, (cs + [c])[k], (replies + [reply])[k])
    {
      assert (cs + [c])[..k] == cs[..k];
    }
  }
}
