/** The sample and event records shared by the three protocol decoders. */
module Protocol {
  import opened Bits

  /** One reading of the eight channels. */
  datatype Sample = Sample(timestamp: uint64, channels: byte)

  datatype Kind = Uart | I2c | Spi

  /** One decoded unit; the text summary is left out. */
  datatype Event = Event(kind: Kind, timestamp: uint64, value0: nat, value1: nat)

  /** The two numbers an event carries. */
  datatype Word = Word(value0: nat, value1: nat)

  function WordOf(e: Event): Word {
    Word(e.value0, e.value1)
  }

  /** One channel of every sample. */
  function Lane(samples: seq<Sample>, channel: nat): (line: seq<bit>)
    ensures |line| == |samples|
    ensures forall k :: 0 <= k < |line| ==> line[k] == Bit(samples[k].channels, channel)
  {
    seq(|samples|, k requires 0 <= k < |samples| => Bit(samples[k].channels, channel))
  }
}
