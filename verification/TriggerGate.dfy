/** The trigger gate: nothing is stored until a sample matches the trigger against its predecessor. */
module TriggerGate {
  import opened Bits

  datatype Mode = NoTrigger | Rising | Falling | High | Low

  datatype Trigger = Trigger(mode: Mode, channel: byte)

  /** The condition the documentation of each mode describes. */
  predicate Matches(t: Trigger, previous: byte, current: byte)
    requires t.channel < 8
  {
    var p, c := Bit(previous, t.channel), Bit(current, t.channel);
    match t.mode
    case NoTrigger => true
    case Rising => p == 0 && c == 1
    case Falling => p == 1 && c == 0
    case High => c == 1
    case Low => c == 0
  }

  /** The raw value read before index `k`. */
  function Before(prev: byte, raws: seq<byte>, k: nat): byte
    requires k <= |raws|
  {
    if k == 0 then prev else raws[k - 1]
  }

  predicate MatchesAt(t: Trigger, prev: byte, raws: seq<byte>, k: nat)
    requires t.channel < 8 && k < |raws|
  {
    Matches(t, Before(prev, raws, k), raws[k])
  }

  /** The index of the first match, or the length when there is none. */
  function FirstMatch(t: Trigger, prev: byte, raws: seq<byte>): (n: nat)
    requires t.channel < 8
    ensures n <= |raws|
    ensures forall k :: 0 <= k < n ==> !MatchesAt(t, prev, raws, k)
    ensures n < |raws| ==> MatchesAt(t, prev, raws, n)
  {
    if raws == [] then 0
    else
      var last := |raws| - 1;
      var n := FirstMatch(t, prev, raws[..last]);
      assert forall k :: 0 <= k < last ==> MatchesAt(t, prev, raws[..last], k) == MatchesAt(t, prev, raws, k);
      if n < last then n else if MatchesAt(t, prev, raws, last) then last else |raws|
  }

  /** What passes the gate: everything when it is open, else the stream from the first match on. */
  function Gated(armed: bool, t: Trigger, prev: byte, raws: seq<byte>): seq<byte>
    requires t.channel < 8
  {
    if armed then raws[FirstMatch(t, prev, raws)..] else raws
  }

  /** Whether the gate is still closed after these values. */
  predicate StillArmed(armed: bool, t: Trigger, prev: byte, raws: seq<byte>)
    requires t.channel < 8
  {
    armed && FirstMatch(t, prev, raws) == |raws|
  }

  lemma {:induction false} FirstMatchIs(t: Trigger, prev: byte, raws: seq<byte>, n: nat)
    requires t.channel < 8 && n <= |raws|
    requires forall k :: 0 <= k < n ==> !MatchesAt(t, prev, raws, k)
    requires n < |raws| ==> MatchesAt(t, prev, raws, n)
    ensures FirstMatch(t, prev, raws) == n
  {
  }

  lemma MatchesAtAppend(t: Trigger, prev: byte, a: seq<byte>, b: seq<byte>, k: nat)
    requires t.channel < 8 && k < |a| + |b|
    ensures MatchesAt(t, prev, a + b, k) ==
            if k < |a| then MatchesAt(t, prev, a, k) else MatchesAt(t, Before(prev, a, |a|), b, k - |a|)
  {
    hide Matches;
  }

  lemma {:induction false} FirstMatchAppend(t: Trigger, prev: byte, a: seq<byte>, b: seq<byte>)
    requires t.channel < 8
    ensures
      var n, m := FirstMatch(t, prev, a), FirstMatch(t, Before(prev, a, |a|), b);
      FirstMatch(t, prev, a + b) == if n < |a| then n else |a| + m
  {
    hide FirstMatch, MatchesAt;
    var n, m := FirstMatch(t, prev, a), FirstMatch(t, Before(prev, a, |a|), b);
    var first := if n < |a| then n else |a| + m;
    forall k | 0 <= k < first
      ensures !MatchesAt(t, prev, a + b, k)
    {
      MatchesAtAppend(t, prev, a, b, k);
    }
    if first < |a + b| {
      MatchesAtAppend(t, prev, a, b, first);
    }
    FirstMatchIs(t, prev, a + b, first);
  }

  /** The gate works on a stream as it does on its parts, the second part seeing the last value of the first. */
  lemma {:induction false} GatedAppend(armed: bool, t: Trigger, prev: byte, a: seq<byte>, b: seq<byte>)
    requires t.channel < 8
    ensures
      var still, last := StillArmed(armed, t, prev, a), Before(prev, a, |a|);
      && Gated(armed, t, prev, a + b) == Gated(armed, t, prev, a) + Gated(still, t, last, b)
      && StillArmed(armed, t, prev, a + b) == StillArmed(still, t, last, b)
      && Before(prev, a + b, |a + b|) == Before(last, b, |b|)
  {
    hide FirstMatch;
    FirstMatchAppend(t, prev, a, b);
  }

  /** The raw values of successive batches, as one stream. */
  function Joined(batches: seq<seq<byte>>): seq<byte> {
    if batches == [] then [] else Joined(batches[..|batches| - 1]) + batches[|batches| - 1]
  }

  /** What successive batches store when each one goes on from where the one before it stopped. */
  function StoredByBatches(armed: bool, t: Trigger, prev: byte, batches: seq<seq<byte>>): seq<byte>
    requires t.channel < 8
  {
    if batches == [] then []
    else
      var front, last := batches[..|batches| - 1], batches[|batches| - 1];
      var raws := Joined(front);
      StoredByBatches(armed, t, prev, front)
      + Gated(StillArmed(armed, t, prev, raws), t, Before(prev, raws, |raws|), last)
  }

  /** Cutting the stream into batches changes nothing: the suffix from the first match on is stored. */
  lemma {:induction false} BatchesStoreTheSuffix(armed: bool, t: Trigger, prev: byte, batches: seq<seq<byte>>)
    requires t.channel < 8
    ensures StoredByBatches(armed, t, prev, batches) == Gated(armed, t, prev, Joined(batches))
    decreases |batches|
  {
    if batches != [] {
      var front, last := batches[..|batches| - 1], batches[|batches| - 1];
      BatchesStoreTheSuffix(armed, t, prev, front);
      GatedAppend(armed, t, prev, Joined(front), last);
    }
  }
}
