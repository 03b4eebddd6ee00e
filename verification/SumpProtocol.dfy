/** The byte stream of the SUMP protocol: one-byte commands and five-byte commands, and the replies of the server. */
module SumpProtocol {
  import opened Arith
  import opened Bits
  import opened SampleCodec

  type Opcode = x: byte | 0x80 <= x witness 0x80

  datatype Command = Reset | Arm | Id | Meta | Long(opcode: Opcode, param: uint32)

  const SET_DIVIDER: Opcode := 0x80
  const SET_READ_COUNT: Opcode := 0x81
  const SET_MASK: Opcode := 0xC0
  const SET_VALUE: Opcode := 0xC1
  const SET_MODE: Opcode := 0xC2

  /** A command as a client sends it. */
  function Image(c: Command): (bytes: seq<byte>)
    ensures |bytes| == if c.Long? then 5 else 1
  {
    match c
    case Reset => [0]
    case Arm => [1]
    case Id => [2]
    case Meta => [4]
    case Long(opcode, param) => [opcode] + LittleEndian(param, 4)
  }

  function Images(cs: seq<Command>): seq<byte> {
    if cs == [] then [] else Image(cs[0]) + Images(cs[1..])
  }

  function Short(b: byte): (c: Command)
    requires b < 0x80 && Known(b)
    ensures !c.Long?
  {
    if b == 0 then Reset else if b == 1 then Arm else if b == 2 then Id else Meta
  }

  predicate Known(b: byte) {
    b >= 0x80 || b == 0 || b == 1 || b == 2 || b == 4
  }

  /** No command begins here: nothing is left, the first byte is unknown, or the parameter is cut off. */
  predicate Stuck(bytes: seq<byte>) {
    bytes == [] || !Known(bytes[0]) || (bytes[0] >= 0x80 && |bytes| < 5)
  }

  function Param(bytes: seq<byte>): uint32
    requires |bytes| == 4
  {
    FromLittleEndian(bytes) % 0x1_0000_0000
  }

  function First(bytes: seq<byte>): (c: Command)
    requires !Stuck(bytes)
    ensures |Image(c)| <= |bytes|
  {
    if bytes[0] >= 0x80 then Long(bytes[0], Param(bytes[1..5])) else Short(bytes[0])
  }

  /** The commands a server finds in a stream, up to the first point where it is stuck. */
  function Commands(bytes: seq<byte>): seq<Command> {
    if Stuck(bytes) then []
    else [First(bytes)] + Commands(bytes[|Image(First(bytes))|..])
  }

  lemma {:induction false} ParamRoundTrip(param: uint32)
    ensures Param(LittleEndian(param, 4)) == param
  {
    hide LittleEndian, FromLittleEndian, Pow2;
    Pow2Four();
    LittleEndianRoundTrip(param, 4);
  }

  lemma Pow2Four()
    ensures Pow2(32) == 0x1_0000_0000
  {
    Pow2Values();
    Pow2Bytes(8);
    Pow2Bytes(16);
    Pow2Bytes(24);
  }

  /** Every four bytes are the image of their number. */
  lemma {:induction false} ParamImage(bytes: seq<byte>)
    requires |bytes| == 4
    ensures LittleEndian(Param(bytes), 4) == bytes
  {
    var v := FromLittleEndian(bytes);
    NumberImage(bytes);
    Pow2Four();
  }

  lemma {:induction false} NumberImage(bytes: seq<byte>)
    ensures FromLittleEndian(bytes) < Pow2(8 * |bytes|)
    ensures LittleEndian(FromLittleEndian(bytes), |bytes|) == bytes
    decreases |bytes|
  {
    if bytes != [] {
      var rest := FromLittleEndian(bytes[1..]);
      NumberImage(bytes[1..]);
      Pow2Bytes(8 * |bytes[1..]|);
      Quotient(bytes[0] + 0x100 * rest, 0x100, rest);
    }
  }

  /** Whatever follows, a serialised command is read back as itself. */
  lemma {:induction false} FirstOfImage(c: Command, tail: seq<byte>)
    ensures !Stuck(Image(c) + tail) && First(Image(c) + tail) == c
  {
    hide LittleEndian, Param;
    if c.Long? {
      ParamRoundTrip(c.param);
      assert (Image(c) + tail)[1..5] == LittleEndian(c.param, 4);
    }
  }

  /**
   A server reads back exactly the commands a client sent, and goes on with the bytes behind them: commands it
   does not act on keep the framing.
   */
  lemma {:induction false} RoundTrip(cs: seq<Command>, tail: seq<byte>)
    ensures Commands(Images(cs) + tail) == cs + Commands(tail)
    decreases |cs|
  {
    hide Image, First, Stuck;
    if cs == [] {
      assert Images(cs) + tail == tail;
    } else {
      var rest := Images(cs[1..]) + tail;
      assert Images(cs) + tail == Image(cs[0]) + rest;
      FirstOfImage(cs[0], rest);
      RoundTrip(cs[1..], tail);
    }
  }

  /** The other way: what a server reads is the serialisation of its commands, and it stops only where it is stuck. */
  lemma {:induction false} Framing(bytes: seq<byte>) returns (rest: seq<byte>)
    ensures bytes == Images(Commands(bytes)) + rest && Stuck(rest)
    decreases |bytes|
  {
    hide Image, First, Stuck, Images, Commands;
    if Stuck(bytes) {
      rest := bytes;
      StuckCommands(bytes);
    } else {
      var k := |Image(First(bytes))|;
      rest := Framing(bytes[k..]);
      CommandsNext(bytes);
      assert bytes == bytes[..k] + bytes[k..];
    }
  }

  lemma StuckCommands(bytes: seq<byte>)
    requires Stuck(bytes)
    ensures Commands(bytes) == [] && Images([]) == []
  {
  }

  lemma {:induction false} CommandsNext(bytes: seq<byte>)
    requires !Stuck(bytes)
    ensures
      var c := First(bytes);
      && bytes[..|Image(c)|] == Image(c)
      && Images(Commands(bytes)) == Image(c) + Images(Commands(bytes[|Image(c)|..]))
  {
    hide Image, First, Stuck;
    ImageOfFirst(bytes);
    var k := |Image(First(bytes))|;
    assert Commands(bytes)[1..] == Commands(bytes[k..]);
  }

  lemma {:induction false} ImageOfFirst(bytes: seq<byte>)
    requires !Stuck(bytes)
    ensures bytes[..|Image(First(bytes))|] == Image(First(bytes))
  {
    hide LittleEndian, Param;
    if bytes[0] >= 0x80 {
      ParamImage(bytes[1..5]);
    }
  }

  /** The stream determines the commands, so no two command lists share a serialisation. */
  lemma {:induction false} ImagesInjective(a: seq<Command>, b: seq<Command>)
    requires Images(a) == Images(b)
    ensures a == b
  {
    RoundTrip(a, []);
    RoundTrip(b, []);
    StuckCommands([]);
    assert Images(a) + [] == Images(b) + [];
    assert a + [] == a && b + [] == b;
  }

  // The replies.

  const SIGNATURE: seq<byte> := ['1' as int, 'A' as int, 'L' as int, 'S' as int]

  const NAME: string := "Embedded Debug Toolkit"

  function NameBytes(): (bytes: seq<byte>)
    ensures |bytes| == 22
  {
    seq(|NAME|, k requires 0 <= k < |NAME| => NAME[k] as int % 0x100)
  }

  /** The metadata block: device name, sample memory, maximum rate and protocol version. */
  function Metadata(memory: nat, maxRate: uint32): (bytes: seq<byte>)
    ensures |bytes| == 37
  {
    [1] + NameBytes() + [0] + [0x21] + LittleEndian(memory % 0x1_0000_0000, 4)
    + [0x23] + LittleEndian(maxRate, 4) + [0x40, 2] + [0]
  }

  /** A client finds the sample memory and the maximum rate behind their tokens; the block fits into 64 bytes. */
  lemma {:induction false} MetadataFields(memory: nat, maxRate: uint32)
    ensures
      var m := Metadata(memory, maxRate);
      && |m| <= 64
      && m[0] == 1 && m[1..23] == NameBytes() && m[23] == 0
      && m[24] == 0x21 && Param(m[25..29]) == memory % 0x1_0000_0000
      && m[29] == 0x23 && Param(m[30..34]) == maxRate
      && m[34] == 0x40 && m[35] == 2 && m[36] == 0
  {
    hide LittleEndian, Param, NameBytes;
    var m := Metadata(memory, maxRate);
    ParamRoundTrip(memory % 0x1_0000_0000);
    ParamRoundTrip(maxRate);
    assert m[25..29] == LittleEndian(memory % 0x1_0000_0000, 4);
    assert m[30..34] == LittleEndian(maxRate, 4);
  }

  /**
   The protocol on the wire: one byte for each short command, the opcode with four bytes for a setting, and the reply
   to ID.
   */
  lemma {:induction false} Wire(opcode: Opcode, param: uint32, tail: seq<byte>)
    ensures Commands([0x00] + tail) == [Reset] + Commands(tail)
    ensures Commands([0x01] + tail) == [Arm] + Commands(tail)
    ensures Commands([0x02] + tail) == [Id] + Commands(tail)
    ensures Commands([0x04] + tail) == [Meta] + Commands(tail)
    ensures
      Commands([opcode, param % 0x100, param / 0x100 % 0x100, param / 0x1_0000 % 0x100, param / 0x100_0000] + tail)
      == [Long(opcode, param)] + Commands(tail)
    ensures SIGNATURE == [0x31, 0x41, 0x4C, 0x53]
  {
    hide Commands;
    OneCommand(Reset, tail);
    OneCommand(Arm, tail);
    OneCommand(Id, tail);
    OneCommand(Meta, tail);
    OneCommand(Long(opcode, param), tail);
    FourBytes(param);
    assert Image(Long(opcode, param))
        == [opcode, param % 0x100, param / 0x100 % 0x100, param / 0x1_0000 % 0x100, param / 0x100_0000];
  }

  lemma {:induction false} OneCommand(c: Command, tail: seq<byte>)
    ensures Commands(Image(c) + tail) == [c] + Commands(tail)
  {
    hide Commands, Image;
    RoundTrip([c], tail);
    assert Images([c]) == Image(c) + Images([]) == Image(c);
  }

  lemma {:induction false} FourBytes(param: uint32)
    ensures LittleEndian(param, 4)
         == [param % 0x100, param / 0x100 % 0x100, param / 0x1_0000 % 0x100, param / 0x100_0000]
  {
    var a := param / 0x100;
    var b := a / 0x100;
    var c := b / 0x100;
    assert b == param / 0x1_0000 && c == param / 0x100_0000 && c < 0x100;
    assert LittleEndian(c, 1) == [c];
    assert LittleEndian(b, 2) == [b % 0x100, c];
    assert LittleEndian(a, 3) == [a % 0x100, b % 0x100, c];
  }
}
