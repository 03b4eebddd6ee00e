/** The byte ring as one thread uses it: a FIFO kept in an array between two 64-bit positions. */
module RingBuffer {
  import opened Bits
  import opened RingIndex

  class Ring {
    var data: array?<byte>
    var capacity: nat
    var mask: nat
    var writePos: uint64
    var readPos: uint64
    ghost var order: nat

    ghost predicate Valid()
      reads this
    {
      data != null ==>
        && 1 <= order <= 63
        && capacity == data.Length == Pow2(order)
        && mask == capacity - 1
        && Distance(readPos, writePos) <= capacity
    }

    /** The bytes written and not yet read, oldest first. */
    ghost function Contents(): (s: seq<byte>)
      requires Valid()
      reads this, data
      ensures data != null ==> |s| == Distance(readPos, writePos) <= capacity
    {
      if data == null then [] else
      Unread(data[..], readPos, Distance(readPos, writePos))
    }

    constructor ()
      ensures Valid() && data == null && Contents() == []
    {
      data := null;
      capacity, mask, writePos, readPos := 0, 0, 0, 0;
    }

    /** `enough` is whether the allocation succeeds. */
    method Init(capacityBytes: nat, enough: bool) returns (ok: bool)
      requires capacityBytes <= 0x8000_0000_0000_0000
      modifies this
      ensures ok <==> capacityBytes >= 2 && enough
      ensures ok ==> Valid() && data != null && fresh(data) && Contents() == []
      ensures ok ==> writePos == readPos == 0
      ensures ok ==> capacityBytes <= capacity < 2 * capacityBytes
      ensures ok && IsPowerOfTwo(capacityBytes) ==> capacity == capacityBytes
      ensures !ok ==> unchanged(`capacity) && unchanged(`mask) && unchanged(`writePos) && unchanged(`readPos)
      ensures !ok ==> data == if capacityBytes < 2 then old(data) else null
    {
      hide Pow2, And, Slot, Unread;
      if capacityBytes < 2 {
        return false;
      }
      ghost var n: nat;
      var bytes := capacityBytes;
      PowerOfTwoTest(capacityBytes);
      WordIsPow2();
      if And(capacityBytes, capacityBytes - 1) != 0 {
        bytes := RoundUpPow2(capacityBytes);
        n :| n <= 63 && bytes == Pow2(n);
      } else {
        n :| bytes == Pow2(n);
        if n > 63 {
          Pow2Monotone(64, n);
        }
      }
      if !enough {
        data := null;
        return false;
      }
      Pow2Values();
      data := new byte[bytes](_ => 0);
      capacity := bytes;
      mask := bytes - 1;
      writePos, readPos := 0, 0;
      order := n;
      assert Distance(readPos, writePos) == 0;
      assert |Contents()| == 0;
      return true;
    }

    method Destroy()
      modifies this
      ensures Valid() && data == null && Contents() == []
    {
      data := null;
      capacity, mask, writePos, readPos := 0, 0, 0, 0;
    }

    method Reset()
      requires Valid()
      modifies this`writePos, this`readPos
      ensures Valid() && Contents() == []
    {
      writePos, readPos := 0, 0;
    }

    method AvailableData() returns (n: nat)
      requires Valid()
      ensures n == |Contents()|
    {
      if data == null {
        return 0;
      }
      return Distance(readPos, writePos);
    }

    method AvailableSpace() returns (n: nat)
      requires Valid()
      ensures n == if data == null then 0 else capacity - |Contents()|
    {
      if data == null {
        return 0;
      }
      var used := AvailableData();
      return capacity - used;
    }

    method Write(src: seq<byte>) returns (written: nat)
      requires Valid()
      modifies this`writePos, data
      ensures Valid()
      ensures written == if data == null then 0 else Min(|src|, capacity - |old(Contents())|)
      ensures Contents() == old(Contents()) + src[..written]
      ensures writePos == Advance(old(writePos), written)
    {
      hide Pow2, And, Slot, Copied, Unread, Distance;
      if data == null || |src| == 0 {
        return 0;
      }
      var freeSpace := capacity - Distance(readPos, writePos);
      written := Min(|src|, freeSpace);
      if written == 0 {
        return;
      }
      var offset := And(writePos, mask);
      var firstChunk := Min(capacity - offset, written);
      ghost var before := data[..];
      CopyChunks(data, offset, firstChunk, src[..written]);
      CopyAppends(before, order, readPos, writePos, src[..written]);
      OrderBound(order);
      DistanceGrows(readPos, writePos, written);
      writePos := Advance(writePos, written);
    }

    method Read(dst: array<byte>, len: nat) returns (taken: nat)
      requires Valid() && dst != data && len <= dst.Length
      modifies this`readPos, dst
      ensures Valid()
      ensures taken == Min(len, |old(Contents())|)
      ensures dst[..taken] == old(Contents())[..taken]
      ensures dst[taken..] == old(dst[taken..])
      ensures Contents() == old(Contents())[taken..]
      ensures readPos == Advance(old(readPos), taken)
    {
      hide Pow2, And, Slot, Unread, Distance;
      taken := Peek(dst, len);
      if taken > 0 {
        DistanceShrinks(readPos, writePos, taken);
        ReadDrops(data[..], order, readPos, taken, Distance(readPos, writePos));
        readPos := Advance(readPos, taken);
      }
    }

    method Peek(dst: array<byte>, len: nat) returns (taken: nat)
      requires Valid() && dst != data && len <= dst.Length
      modifies dst
      ensures Valid() && Contents() == old(Contents())
      ensures taken == Min(len, |Contents()|)
      ensures dst[..taken] == Contents()[..taken]
      ensures dst[taken..] == old(dst[taken..])
    {
      hide Pow2, And, Slot, Unread, Distance;
      if data == null || len == 0 {
        return 0;
      }
      taken := Min(len, Distance(readPos, writePos));
      if taken == 0 {
        return;
      }
      var offset := And(readPos, mask);
      var firstChunk := Min(capacity - offset, taken);
      ChunksOut(data[..], order, readPos, taken, Distance(readPos, writePos));
      ghost var before := data[..];
      CopyTwo(dst, data[offset..offset + firstChunk], data[..taken - firstChunk]);
      assert data[..] == before;
    }
  }

  /** The `n` bytes from position `pos` on, each in its slot. */
  function Unread(data: seq<byte>, pos: nat, n: nat): (s: seq<byte>)
    requires |data| > 0
    ensures |s| == n
  {
    seq(n, k requires 0 <= k < n => data[Slot(pos + k, |data|)])
  }

  /** The array after `src` is copied to `offset` in two chunks, the first one of `firstChunk` bytes. */
  function Copied(data: seq<byte>, offset: nat, firstChunk: nat, src: seq<byte>): (after: seq<byte>)
    requires firstChunk <= |src| <= |data| && offset + firstChunk <= |data|
    ensures |after| == |data|
  {
    var one := data[..offset] + src[..firstChunk] + data[offset + firstChunk..];
    src[firstChunk..] + one[|src| - firstChunk..]
  }

  /** The slot of the `j`-th unread byte, seen from the write position. */
  lemma {:induction false} SlotFromWrite(readPos: uint64, writePos: uint64, order: nat, j: nat)
    requires order <= 63 && Distance(readPos, writePos) <= Pow2(order)
    requires j < Pow2(order)
    ensures
      var cap, used, offset := Pow2(order), Distance(readPos, writePos), And(writePos, Pow2(order) - 1);
      var ahead := if j < used then cap - used + j else j - used;
      && offset < cap
      && Slot(readPos + j, cap) == if offset + ahead < cap then offset + ahead else offset + ahead - cap
  {
    hide Pow2, And, Slot;
    var cap, used := Pow2(order), Distance(readPos, writePos);
    var base := readPos + used;
    MaskIsRemainder(writePos, order);
    assert Slot(base, cap) == Slot(writePos, cap) by {
      WrapKeepsSlot(base, order);
      assert base % WORD == writePos;
    }
    if j < used {
      SlotAt(base, cap - used + j, cap);
      FullTurn(readPos + j, cap);
      assert readPos + j + cap == base + (cap - used + j);
    } else {
      SlotAt(base, j - used, cap);
    }
  }

  /** Copying in two chunks to the write position appends to the unread bytes. */
  lemma {:induction false} CopyAppends(data: seq<byte>, order: nat, readPos: uint64, writePos: uint64, src: seq<byte>)
    requires order <= 63 && |data| == Pow2(order)
    requires Distance(readPos, writePos) + |src| <= |data|
    ensures
      var used, offset := Distance(readPos, writePos), And(writePos, |data| - 1);
      && offset < |data|
      && Unread(Copied(data, offset, Min(|data| - offset, |src|), src), readPos, used + |src|)
         == Unread(data, readPos, used) + src
  {
    hide Pow2, And, Slot, Copied, Distance;
    var used, offset := Distance(readPos, writePos), And(writePos, |data| - 1);
    MaskIsRemainder(writePos, order);
    var first := Min(|data| - offset, |src|);
    var after := Copied(data, offset, first, src);
    var unread := Unread(data, readPos, used) + src;
    forall j | 0 <= j < used + |src|
      ensures Unread(after, readPos, used + |src|)[j] == unread[j]
    {
      SlotFromWrite(readPos, writePos, order, j);
      CopiedAt(data, offset, first, src, Slot(readPos + j, |data|));
    }
    assert Unread(after, readPos, used + |src|) == unread;
  }

  lemma CopiedAt(data: seq<byte>, offset: nat, firstChunk: nat, src: seq<byte>, i: nat)
    requires firstChunk <= |src| <= |data| && offset + firstChunk <= |data|
    requires firstChunk < |src| ==> offset + firstChunk == |data|
    requires i < |data|
    ensures Copied(data, offset, firstChunk, src)[i] ==
            if offset <= i < offset + firstChunk then src[i - offset]
            else if i < |src| - firstChunk then src[firstChunk + i]
            else data[i]
  {
    var one := data[..offset] + src[..firstChunk] + data[offset + firstChunk..];
    assert one[i] == if offset <= i < offset + firstChunk then src[i - offset] else data[i];
  }

  /** The first unread bytes in two chunks, as they are copied out. */
  lemma {:induction false} ChunksOut(data: seq<byte>, order: nat, readPos: uint64, n: nat, used: nat)
    requires order <= 63 && |data| == Pow2(order) && n <= used <= |data|
    ensures
      var offset := And(readPos, |data| - 1);
      && offset < |data|
      && var first := Min(|data| - offset, n);
         Unread(data, readPos, used)[..n] == data[offset..offset + first] + data[..n - first]
  {
    hide Pow2, And, Slot;
    MaskIsRemainder(readPos, order);
    var offset := And(readPos, |data| - 1);
    var first := Min(|data| - offset, n);
    var chunks := data[offset..offset + first] + data[..n - first];
    forall k | 0 <= k < n
      ensures Unread(data, readPos, used)[k] == chunks[k]
    {
      SlotAt(readPos, k, |data|);
    }
    assert Unread(data, readPos, used)[..n] == chunks;
  }

  /** Reading moves the read position past the bytes taken. */
  lemma {:induction false} ReadDrops(data: seq<byte>, order: nat, readPos: uint64, n: nat, used: nat)
    requires order <= 63 && |data| == Pow2(order) && n <= used
    ensures Unread(data, Advance(readPos, n), used - n) == Unread(data, readPos, used)[n..]
  {
    hide Pow2, Slot;
    var rest := Unread(data, readPos, used)[n..];
    forall k | 0 <= k < used - n
      ensures Unread(data, Advance(readPos, n), used - n)[k] == rest[k]
    {
      WrapKeepsSlot(readPos + (n + k), order);
      WrapKeepsSlot(Advance(readPos, n) + k, order);
    }
    assert Unread(data, Advance(readPos, n), used - n) == rest;
  }

  method CopyChunks(a: array<byte>, offset: nat, firstChunk: nat, src: seq<byte>)
    requires firstChunk <= |src| <= a.Length && offset + firstChunk <= a.Length
    modifies a
    ensures a[..] == Copied(old(a[..]), offset, firstChunk, src)
  {
    CopyInto(a, offset, src[..firstChunk]);
    if firstChunk < |src| {
      ghost var one := a[..];
      CopyInto(a, 0, src[firstChunk..]);
      assert one[..0] + src[firstChunk..] == src[firstChunk..];
    } else {
      assert src[firstChunk..] + a[..][0..] == a[..];
    }
  }

  method CopyTwo(a: array<byte>, first: seq<byte>, second: seq<byte>)
    requires |first| + |second| <= a.Length
    modifies a
    ensures a[..|first| + |second|] == first + second
    ensures a[|first| + |second|..] == old(a[|first| + |second|..])
  {
    CopyInto(a, 0, first);
    if second != [] {
      CopyInto(a, |first|, second);
    }
  }

  method CopyInto(a: array<byte>, offset: nat, src: seq<byte>)
    requires offset + |src| <= a.Length
    modifies a
    ensures a[..] == old(a[..offset]) + src + old(a[offset + |src|..])
  {
    forall k | 0 <= k < |src| {
      a[offset + k] := src[k];
    }
  }
}
