/** Positions of the ring: 64-bit counters that run freely, masked into a power-of-two number of slots. */
module RingIndex {
  import opened Arith
  import opened Bits

  const WORD: nat := 0x1_0000_0000_0000_0000

  /** The test `v != 0 && (v & (v - 1)) == 0`. */
  predicate IsPowerOfTwo(v: nat) {
    v != 0 && And(v, v - 1) == 0
  }

  /** The code's distance between two positions, `to - from` in 64 bits. */
  function Distance(from: uint64, to: uint64): uint64 {
    (to - from) % WORD
  }

  function Advance(pos: uint64, n: nat): uint64 {
    (pos + n) % WORD
  }

  lemma AdvanceNothing(pos: uint64)
    ensures Advance(pos, 0) == pos
  {
  }

  lemma AdvanceTwice(pos: uint64, m: nat, n: nat)
    ensures Advance(Advance(pos, m), n) == Advance(pos, m + n)
  {
  }

  /** The slot of a position. */
  function Slot(pos: nat, cap: nat): (slot: nat)
    requires cap > 0
    ensures slot < cap
  {
    pos % cap
  }

  /** Where the `k`-th byte from `pos` goes when it is copied in two chunks, the first one of `firstChunk` bytes. */
  function ChunkIndex(pos: uint64, mask: nat, firstChunk: nat, k: nat): nat {
    if k < firstChunk then And(pos, mask) + k else k - firstChunk
  }

  lemma {:induction false} WordIsPow2()
    ensures Pow2(64) == WORD && Pow2(63) == 0x8000_0000_0000_0000
  {
    Pow2Values();
    Pow2Add(8, 8);
    Pow2Add(16, 16);
    Pow2Add(32, 32);
    assert Pow2(64) == 2 * Pow2(63);
  }

  lemma {:induction false} Pow2Add(m: nat, n: nat)
    ensures Pow2(m + n) == Pow2(m) * Pow2(n)
    decreases n
  {
    if n > 0 {
      Pow2Add(m, n - 1);
    }
  }

  /** Masking with `2^n - 1` is the remainder by `2^n`. */
  lemma {:induction false} MaskIsRemainder(x: nat, n: nat)
    ensures And(x, Pow2(n) - 1) == Slot(x, Pow2(n))
    decreases n
  {
    hide And;
    if n == 0 {
      assert And(x, 0) == 0;
    } else {
      MaskIsRemainder(x / 2, n - 1);
      MaskDoubled(x, Pow2(n - 1));
    }
  }

  lemma {:induction false} MaskDoubled(x: nat, p: nat)
    requires p > 0 && And(x / 2, p - 1) == x / 2 % p
    ensures And(x, 2 * p - 1) == x % (2 * p)
  {
    hide And;
    AndOdd(x, p);
    HalvedRemainder(x, p);
  }

  lemma {:induction false} AndOdd(x: nat, p: nat)
    requires p > 0
    ensures And(x, 2 * p - 1) == x % 2 + 2 * And(x / 2, p - 1)
  {
    assert (2 * p - 1) / 2 == p - 1;
    assert (2 * p - 1) % 2 == 1;
  }

  lemma {:induction false} HalvedRemainder(x: nat, p: nat)
    requires p > 0
    ensures x % (2 * p) == x % 2 + 2 * (x / 2 % p)
  {
    var q, r := x / 2 / p, x / 2 % p;
    assert x / 2 == q * p + r;
    assert x == 2 * (x / 2) + x % 2;
    assert q * (2 * p) == 2 * (q * p);
    assert (q + 1) * (2 * p) == q * (2 * p) + 2 * p;
    Remainder(x, 2 * p, q);
  }

  /** The bit test recognises exactly the powers of two. */
  lemma {:induction false} PowerOfTwoTest(v: nat)
    ensures IsPowerOfTwo(v) <==> exists n: nat :: v == Pow2(n)
    decreases v
  {
    if v == 1 {
      assert v == Pow2(0);
    } else if v > 1 {
      var h := v / 2;
      PowerOfTwoTest(h);
      HalvedTest(v);
      if n: nat :| h == Pow2(n) && v % 2 == 0 {
        assert v == Pow2(n + 1);
      }
      if n: nat :| v == Pow2(n) {
        assert v == 2 * Pow2(n - 1);
        assert h == Pow2(n - 1);
      }
    }
  }

  lemma {:induction false} HalvedTest(v: nat)
    requires v > 1
    ensures IsPowerOfTwo(v) <==> v % 2 == 0 && IsPowerOfTwo(v / 2)
  {
    AndSelf(v / 2);
    assert v % 2 == 0 ==> (v - 1) / 2 == v / 2 - 1;
    assert v % 2 == 1 ==> (v - 1) / 2 == v / 2;
  }

  lemma {:induction false} AndSelf(v: nat)
    ensures And(v, v) == v
    decreases v
  {
    if v > 0 {
      AndSelf(v / 2);
    }
  }

  /** A remainder by `2^64` does not change the remainder by a smaller power of two. */
  lemma {:induction false} WrapKeepsSlot(x: nat, n: nat)
    requires n <= 64
    ensures Slot(x % WORD, Pow2(n)) == Slot(x, Pow2(n))
  {
    hide Pow2;
    WordIsPow2();
    Pow2Add(64 - n, n);
    var p, m := Pow2(n), Pow2(64 - n);
    var q := x / WORD;
    assert x == q * WORD + x % WORD;
    assert q * WORD == q * m * p by {
      assert m * p == WORD;
    }
    RemainderShift(x % WORD, p, q * m);
  }

  lemma {:induction false} RemainderShift(a: nat, p: nat, k: nat)
    requires p > 0
    ensures (k * p + a) % p == a % p
  {
    var q := a / p;
    assert a == q * p + a % p;
    assert (k + q) * p == k * p + q * p;
    assert (k + q + 1) * p == (k + q) * p + p;
    Remainder(k * p + a, p, k + q);
  }

  lemma {:induction false} FullTurn(pos: nat, cap: nat)
    requires cap > 0
    ensures Slot(pos + cap, cap) == Slot(pos, cap)
  {
    RemainderShift(pos, cap, 1);
  }

  /** Slots of positions less than one capacity apart are different. */
  lemma {:induction false} SlotsDistinct(base: nat, j: nat, k: nat, cap: nat)
    requires 0 < cap && j < k < cap
    ensures Slot(base + j, cap) != Slot(base + k, cap)
  {
    SlotAt(base, j, cap);
    SlotAt(base, k, cap);
  }

  /** The slot of a position less than one capacity ahead. */
  lemma {:induction false} SlotAt(base: nat, k: nat, cap: nat)
    requires 0 < cap && k < cap
    ensures
      var off := Slot(base, cap);
      Slot(base + k, cap) == if off + k < cap then off + k else off + k - cap
  {
    var q := base / cap;
    assert base == q * cap + base % cap;
    assert (q + 1) * cap == q * cap + cap;
    assert (q + 2) * cap == (q + 1) * cap + cap;
    if base % cap + k < cap {
      Remainder(base + k, cap, q);
    } else {
      Remainder(base + k, cap, q + 1);
    }
  }

  lemma OrderBound(order: nat)
    requires order <= 63
    ensures Pow2(order) <= 0x8000_0000_0000_0000 < WORD
  {
    Pow2Monotone(order, 63);
    WordIsPow2();
  }

  /** Copying in two chunks puts byte `k` into the slot of position `pos + k`. */
  lemma {:induction false} ChunkIndexIsSlot(pos: nat, order: nat, count: nat, k: nat)
    requires order <= 63 && k < count <= Pow2(order)
    ensures
      var cap := Pow2(order);
      var firstChunk := Min(cap - And(pos % WORD, cap - 1), count);
      ChunkIndex(pos % WORD, cap - 1, firstChunk, k) == Slot(pos + k, cap)
  {
    MaskIsRemainder(pos % WORD, order);
    WrapKeepsSlot(pos, order);
    SlotAt(pos, k, Pow2(order));
  }

  lemma DistanceGrows(from: uint64, to: uint64, n: nat)
    requires Distance(from, to) + n < WORD
    ensures Distance(from, Advance(to, n)) == Distance(from, to) + n
  {
    assert Advance(to, n) == to + n || Advance(to, n) == to + n - WORD;
  }

  lemma DistanceShrinks(from: uint64, to: uint64, n: nat)
    requires n <= Distance(from, to)
    ensures Distance(Advance(from, n), to) == Distance(from, to) - n
  {
    assert Advance(from, n) == from + n || Advance(from, n) == from + n - WORD;
  }

  /** The 64-bit distance of two free-running counters is their true distance. */
  lemma {:induction false} TrueDistance(from: nat, to: nat)
    requires from <= to < from + WORD
    ensures Distance(from % WORD, to % WORD) == to - from
  {
    var a, b := from / WORD, to / WORD;
    assert from == a * WORD + from % WORD;
    assert to == b * WORD + to % WORD;
  }

  /** The doubling loop run `k` times from 1, in 64 bits. */
  function Doubled(k: nat): uint64 {
    if k == 0 then 1 else Doubled(k - 1) * 2 % WORD
  }

  lemma {:induction false} DoubledValue(k: nat)
    ensures Doubled(k) == if k < 64 then Pow2(k) else 0
    decreases k, 1
  {
    if 0 < k < 64 {
      DoubledValue(k - 1);
      DoublingFits(k - 1);
    } else if k > 0 {
      DoubledAway(k);
    }
  }

  /** The 64th doubling shifts the last bit out. */
  lemma {:induction false} DoubledAway(k: nat)
    requires k >= 64
    ensures Doubled(k) == 0
    decreases k, 0
  {
    hide Pow2, Doubled;
    DoubledNext(k);
    if k == 64 {
      DoubledValue(k - 1);
      WordIsPow2();
    } else {
      DoubledAway(k - 1);
    }
  }

  lemma DoubledNext(k: nat)
    requires k > 0
    ensures Doubled(k) == Doubled(k - 1) * 2 % WORD
  {
  }

  lemma {:induction false} DoublingFits(k: nat)
    requires k < 63
    ensures Pow2(k) * 2 == Pow2(k + 1) < WORD
  {
    Pow2Monotone(k + 1, 63);
    WordIsPow2();
  }

  /** The doubling loop reaches its goal, and so ends, exactly for goals up to `2^63`. */
  lemma {:induction false} DoublingEnds(v: uint64)
    ensures (exists k :: Doubled(k) >= v) <==> v <= 0x8000_0000_0000_0000
  {
    WordIsPow2();
    DoubledValue(63);
    if k :| Doubled(k) >= v {
      DoubledValue(k);
      if k < 64 {
        Pow2Monotone(k, 63);
      }
    }
  }

  method RoundUpPow2(v: uint64) returns (p: uint64)
    requires v <= 0x8000_0000_0000_0000
    ensures p >= v
    ensures v >= 2 ==> p < 2 * v
    ensures v <= 1 ==> p == 1
    ensures exists n: nat :: n <= 63 && p == Pow2(n)
  {
    p := 1;
    ghost var n := 0;
    WordIsPow2();
    while p < v
      invariant n <= 63 && p == Pow2(n) && (n > 0 ==> Pow2(n - 1) < v)
      invariant v <= 1 ==> n == 0
      decreases 64 - n
    {
      if n == 63 {
        assert false;
      }
      Pow2Monotone(n + 1, 63);
      p := p * 2 % WORD;
      n := n + 1;
    }
  }
}
