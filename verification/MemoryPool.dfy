/** The block pool: reference counts, acquired at zero by a scan and released by a decrement that never ends below zero. */
module MemoryPool {
  /** The first block that is free, or the number of blocks when none is. */
  function FirstFree(refs: seq<int>): (n: nat)
    ensures n <= |refs|
    ensures forall k :: 0 <= k < n ==> refs[k] != 0
    ensures n < |refs| ==> refs[n] == 0
  {
    if refs == [] then 0
    else
      var m := FirstFree(refs[..|refs| - 1]);
      if m < |refs| - 1 then m else if refs[|refs| - 1] == 0 then |refs| - 1 else |refs|
  }

  /** One release: the decrement and, when it took the last reference, the store of zero. */
  function Released(refs: seq<int>, b: nat): (after: seq<int>)
    requires b < |refs|
    ensures |after| == |refs|
  {
    refs[b := if refs[b] <= 1 then 0 else refs[b] - 1]
  }

  class Pool {
    var refs: array<int>
    var used: array<nat>
    var shutdown: bool

    ghost predicate Valid()
      reads this
    {
      refs != used as object && refs.Length == used.Length
    }

    constructor (blockCount: nat)
      ensures Valid() && fresh(refs) && fresh(used) && !shutdown
      ensures refs[..] == seq(blockCount, _ => 0)
    {
      refs := new int[blockCount](_ => 0);
      used := new nat[blockCount](_ => 0);
      shutdown := false;
    }

    method Shutdown()
      modifies this`shutdown
      ensures shutdown
    {
      shutdown := true;
    }

    /**
     Scans for a free block, again after every wakeup, until one is found, the wait times out or the pool is shut down.
     Between wakeups this thread alone runs; the interleaved form is `VideoPipeline.Step`.
     */
    method Acquire(wakeups: nat) returns (block: nat, ok: bool)
      requires Valid()
      modifies refs, used
      ensures ok <==> !shutdown && FirstFree(old(refs[..])) < refs.Length
      ensures ok ==> block == FirstFree(old(refs[..])) && refs[..] == old(refs[..])[block := 1]
      ensures ok ==> used[..] == old(used[..])[block := 0]
      ensures !ok ==> refs[..] == old(refs[..]) && used[..] == old(used[..])
    {
      var left: int := wakeups;
      while !shutdown
        invariant refs[..] == old(refs[..]) && used[..] == old(used[..])
        invariant 0 <= left
        invariant left < wakeups ==> FirstFree(refs[..]) == refs.Length
        decreases left
      {
        var i := 0;
        while i < refs.Length
          invariant i <= refs.Length
          invariant forall k :: 0 <= k < i ==> refs[k] != 0
          invariant refs[..] == old(refs[..]) && used[..] == old(used[..])
        {
          if refs[i] == 0 {
            FirstFreeIs(refs[..], i);
            refs[i] := 1;
            used[i] := 0;
            return i, true;
          }
          i := i + 1;
        }
        FirstFreeIs(refs[..], i);
        if left == 0 {
          return 0, false;
        }
        left := left - 1;
      }
      return 0, false;
    }

    method Retain(block: nat)
      requires Valid() && block < refs.Length
      modifies refs
      ensures refs[..] == old(refs[..])[block := old(refs[block]) + 1]
    {
      refs[block] := refs[block] + 1;
    }

    method Release(block: nat)
      requires Valid() && block < refs.Length
      modifies refs
      ensures refs[..] == Released(old(refs[..]), block)
    {
      var before := refs[block];
      refs[block] := before - 1;
      if before <= 1 {
        refs[block] := 0;
      }
    }
  }

  lemma {:induction false} FirstFreeIs(refs: seq<int>, n: nat)
    requires n <= |refs| && forall k :: 0 <= k < n ==> refs[k] != 0
    requires n < |refs| ==> refs[n] == 0
    ensures FirstFree(refs) == n
  {
  }
}
