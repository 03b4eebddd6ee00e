/** Bits, bytes and the fixed-width unsigned integers of the C sources. */
module Bits {
  import opened Arith

  type bit = b: int | 0 <= b < 2
  type byte = b: int | 0 <= b < 0x100
  type uint32 = x: int | 0 <= x < 0x1_0000_0000
  type uint64 = x: int | 0 <= x < 0x1_0000_0000_0000_0000

  function Min(a: nat, b: nat): nat {
    if a <= b then a else b
  }

  function Pow2(n: nat): (p: nat)
    ensures p > 0
  {
    if n == 0 then 1 else 2 * Pow2(n - 1)
  }

  /** `a & b`, bit by bit. */
  function And(a: nat, b: nat): (r: nat)
    ensures r <= a && r <= b
  {
    if a == 0 || b == 0 then 0 else a % 2 * (b % 2) + 2 * And(a / 2, b / 2)
  }

  /** The value of one channel: `(value >> index) & 1`. */
  function Bit(value: byte, index: nat): bit {
    value / Pow2(index) % 2
  }

  /** The number whose binary digits are `bits`, most significant first. */
  function MsbFirst(bits: seq<bit>): (v: nat)
    ensures v < Pow2(|bits|)
  {
    if bits == [] then 0 else 2 * MsbFirst(bits[..|bits| - 1]) + bits[|bits| - 1]
  }

  /** The number whose binary digits are `bits`, least significant first. */
  function LsbFirst(bits: seq<bit>): (v: nat)
    ensures v < Pow2(|bits|)
  {
    if bits == [] then 0
    else LsbFirst(bits[..|bits| - 1]) + bits[|bits| - 1] * Pow2(|bits| - 1)
  }

  /** The eight bits of a byte in the order I2C and SPI send them. */
  function MsbBits(value: byte): seq<bit> {
    seq(8, k requires 0 <= k < 8 => Bit(value, 7 - k))
  }

  /** The eight bits of a byte in the order a UART sends them. */
  function LsbBits(value: byte): seq<bit> {
    seq(8, k requires 0 <= k < 8 => Bit(value, k))
  }

  lemma Pow2Values()
    ensures Pow2(0) == 1 && Pow2(1) == 2 && Pow2(2) == 4 && Pow2(3) == 8 && Pow2(4) == 16
    ensures Pow2(5) == 32 && Pow2(6) == 64 && Pow2(7) == 128 && Pow2(8) == 256
  {
    assert Pow2(2) == 4;
    assert Pow2(4) == 16;
    assert Pow2(6) == 64;
  }

  lemma {:induction false} Pow2Monotone(m: nat, n: nat)
    requires m <= n
    ensures Pow2(m) <= Pow2(n)
    decreases n
  {
    if m < n {
      Pow2Monotone(m, n - 1);
    }
  }

  /** A byte is the weighted sum of its bits. */
  lemma {:induction false} BitsSum(v: byte)
    ensures v == Bit(v, 0) + 2 * Bit(v, 1) + 4 * Bit(v, 2) + 8 * Bit(v, 3)
                 + 16 * Bit(v, 4) + 32 * Bit(v, 5) + 64 * Bit(v, 6) + 128 * Bit(v, 7)
  {
    Pow2Values();
    assert v / 2 / 2 == v / 4;
    assert v / 4 / 2 == v / 8;
    assert v / 8 / 2 == v / 16;
    assert v / 16 / 2 == v / 32;
    assert v / 32 / 2 == v / 64;
    assert v / 64 / 2 == v / 128;
  }

  lemma {:induction false} MsbRoundTrip(v: byte)
    ensures MsbFirst(MsbBits(v)) == v
  {
    var s := MsbBits(v);
    BitsSum(v);
    MsbUnroll(s);
  }

  lemma {:induction false} MsbUnroll(s: seq<bit>)
    requires |s| == 8
    ensures MsbFirst(s) == 128 * (s[0] as int) + 64 * (s[1] as int) + 32 * (s[2] as int) + 16 * (s[3] as int)
                           + 8 * (s[4] as int) + 4 * (s[5] as int) + 2 * (s[6] as int) + s[7]
  {
    assert s[..8] == s;
    forall k | 0 <= k < 8
      ensures MsbFirst(s[..k + 1]) == 2 * MsbFirst(s[..k]) + s[k]
    {
      assert s[..k + 1][..k] == s[..k];
    }
    assert MsbFirst(s[..1]) == s[0];
    assert MsbFirst(s[..2]) == 2 * (s[0] as int) + s[1];
    assert MsbFirst(s[..3]) == 4 * (s[0] as int) + 2 * (s[1] as int) + s[2];
    assert MsbFirst(s[..4]) == 8 * (s[0] as int) + 4 * (s[1] as int) + 2 * (s[2] as int) + s[3];
  }

  lemma {:induction false} LsbRoundTrip(v: byte)
    ensures LsbFirst(LsbBits(v)) == v
  {
    var s := LsbBits(v);
    BitsSum(v);
    Pow2Values();
    assert s[..8] == s;
    forall k | 0 <= k < 8
      ensures LsbFirst(s[..k + 1]) == LsbFirst(s[..k]) + s[k] * Pow2(k)
    {
      assert s[..k + 1][..k] == s[..k];
    }
    assert LsbFirst(s[..1]) == s[0];
    assert LsbFirst(s[..2]) == s[0] + 2 * (s[1] as int);
    assert LsbFirst(s[..3]) == s[0] + 2 * (s[1] as int) + 4 * (s[2] as int);
    assert LsbFirst(s[..4]) == s[0] + 2 * (s[1] as int) + 4 * (s[2] as int) + 8 * (s[3] as int);
  }

  /** Masking with one bit of the mask set tests that bit. */
  lemma {:induction false} AndPow2(v: nat, index: nat)
    ensures And(v, Pow2(index)) == v / Pow2(index) % 2 * Pow2(index)
    decreases index
  {
    hide And;
    if index == 0 {
      AndOne(v);
    } else {
      var p := Pow2(index - 1);
      AndPow2(v / 2, index - 1);
      AndEven(v, p);
      DivideTwice(v, p);
    }
  }

  lemma AndOne(v: nat)
    ensures And(v, 1) == v % 2
  {
  }

  lemma AndEven(v: nat, p: nat)
    requires p > 0
    ensures And(v, 2 * p) == 2 * And(v / 2, p)
  {
    assert 2 * p / 2 == p && 2 * p % 2 == 0;
  }

  lemma {:induction false} DivideTwice(v: nat, p: nat)
    requires p > 0
    ensures v / 2 / p == v / (2 * p)
  {
    var q := v / 2 / p;
    assert v / 2 == q * p + v / 2 % p;
    assert q * (2 * p) == 2 * (q * p);
    assert (q + 1) * (2 * p) == q * (2 * p) + 2 * p;
    Quotient(v, 2 * p, q);
  }
}
