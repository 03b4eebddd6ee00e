/**
 The 16-byte memory image of a sample: the timestamp, least significant byte first, the channel byte, and padding.
 Padding is written as zero; nothing reads it.
 */
module SampleCodec {
  import opened Bits
  import opened Protocol
  import opened RingIndex

  const SIZE: nat := 16

  function LittleEndian(v: nat, n: nat): (bytes: seq<byte>)
    ensures |bytes| == n
  {
    if n == 0 then [] else [v % 0x100] + LittleEndian(v / 0x100, n - 1)
  }

  function FromLittleEndian(bytes: seq<byte>): nat {
    if bytes == [] then 0 else bytes[0] + 0x100 * FromLittleEndian(bytes[1..])
  }

  lemma {:induction false} LittleEndianRoundTrip(v: nat, n: nat)
    requires v < Pow2(8 * n)
    ensures FromLittleEndian(LittleEndian(v, n)) == v
    decreases n
  {
    if n > 0 {
      assert Pow2(8 * n) == 0x100 * Pow2(8 * (n - 1)) by {
        Pow2Bytes(8 * (n - 1));
      }
      LittleEndianRoundTrip(v / 0x100, n - 1);
      assert LittleEndian(v, n)[1..] == LittleEndian(v / 0x100, n - 1);
    }
  }

  lemma {:induction false} Pow2Bytes(m: nat)
    ensures Pow2(m + 8) == 0x100 * Pow2(m)
  {
    assert Pow2(m + 2) == 4 * Pow2(m);
    assert Pow2(m + 4) == 4 * Pow2(m + 2);
    assert Pow2(m + 6) == 4 * Pow2(m + 4);
    assert Pow2(m + 8) == 4 * Pow2(m + 6);
  }

  function Encode(s: Sample): (bytes: seq<byte>)
    ensures |bytes| == SIZE
  {
    LittleEndian(s.timestamp, 8) + [s.channels] + [0, 0, 0, 0, 0, 0, 0]
  }

  function Decode(bytes: seq<byte>): Sample
    requires |bytes| == SIZE
  {
    Sample(FromLittleEndian(bytes[..8]) % WORD, bytes[8])
  }

  lemma {:induction false} DecodeEncode(s: Sample)
    ensures Decode(Encode(s)) == s
  {
    hide LittleEndian, FromLittleEndian, Pow2;
    assert Encode(s)[..8] == LittleEndian(s.timestamp, 8);
    WordIsPow2();
    LittleEndianRoundTrip(s.timestamp, 8);
  }

  function EncodeAll(ss: seq<Sample>): (bytes: seq<byte>)
    ensures |bytes| == SIZE * |ss|
  {
    if ss == [] then [] else EncodeAll(ss[..|ss| - 1]) + Encode(ss[|ss| - 1])
  }

  /** The whole samples in a run of bytes. */
  function DecodeAll(bytes: seq<byte>): (ss: seq<Sample>)
    ensures |ss| == |bytes| / SIZE
  {
    seq(|bytes| / SIZE, k requires 0 <= k < |bytes| / SIZE => Decode(bytes[SIZE * k..SIZE * k + SIZE]))
  }

  lemma {:induction false} EncodeAppend(a: seq<Sample>, b: seq<Sample>)
    ensures EncodeAll(a + b) == EncodeAll(a) + EncodeAll(b)
    decreases |b|
  {
    if b == [] {
      assert a + b == a;
    } else {
      assert (a + b)[..|a + b| - 1] == a + b[..|b| - 1];
      EncodeAppend(a, b[..|b| - 1]);
    }
  }

  /** Sample `k` occupies bytes `16 k` to `16 k + 15`. */
  lemma {:induction false} ImageAt(ss: seq<Sample>, k: nat)
    requires k < |ss|
    ensures EncodeAll(ss)[SIZE * k..SIZE * k + SIZE] == Encode(ss[k])
  {
    assert ss == ss[..k] + [ss[k]] + ss[k + 1..];
    EncodeAppend(ss[..k] + [ss[k]], ss[k + 1..]);
    EncodeAppend(ss[..k], [ss[k]]);
    assert EncodeAll([ss[k]]) == Encode(ss[k]);
  }

  lemma {:induction false} DecodeEncodeAll(ss: seq<Sample>)
    ensures DecodeAll(EncodeAll(ss)) == ss
  {
    forall k | 0 <= k < |ss|
      ensures DecodeAll(EncodeAll(ss))[k] == ss[k]
    {
      ImageAt(ss, k);
      DecodeEncode(ss[k]);
    }
  }

  /** Cutting the bytes at a multiple of the sample size cuts the samples. */
  lemma {:induction false} EncodePrefix(ss: seq<Sample>, n: nat)
    requires n % SIZE == 0 && n <= SIZE * |ss|
    ensures n / SIZE <= |ss| && EncodeAll(ss)[..n] == EncodeAll(ss[..n / SIZE])
    ensures EncodeAll(ss)[n..] == EncodeAll(ss[n / SIZE..])
  {
    var k := n / SIZE;
    assert ss == ss[..k] + ss[k..];
    EncodeAppend(ss[..k], ss[k..]);
  }

  /** Bytes that are a prefix of a stream of samples, cut at a multiple of the sample size, are samples of that stream. */
  lemma {:induction false} PrefixOfImages(bytes: seq<byte>, ss: seq<Sample>)
    requires bytes <= EncodeAll(ss) && |bytes| % SIZE == 0
    ensures DecodeAll(bytes) == ss[..|bytes| / SIZE] && bytes == EncodeAll(DecodeAll(bytes))
  {
    EncodePrefix(ss, |bytes|);
    assert bytes == EncodeAll(ss)[..|bytes|];
    DecodeEncodeAll(ss[..|bytes| / SIZE]);
  }
}
