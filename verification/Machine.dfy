/**
 A decoder as a machine: it reads one input at a time and may emit outputs.
 What holds of every such machine is proved here once for the I2C and SPI decoders.
 */
module Machine {

  /** Feeds all of `w` to the machine: the state it ends in and everything it emitted. */
  function Run<S, X, E>(step: (S, X) -> (S, seq<E>), s: S, w: seq<X>): (S, seq<E>) {
    if w == [] then (s, [])
    else
      var (t, out) := Run(step, s, w[..|w| - 1]);
      var (u, more) := step(t, w[|w| - 1]);
      (u, out + more)
  }

  /** Each element of `w`, repeated `1 + extra[k]` times. */
  function Stretch<X>(w: seq<X>, extra: seq<nat>): seq<X>
    requires |w| == |extra|
  {
    if w == [] then []
    else Stretch(w[..|w| - 1], extra[..|w| - 1]) + Repeat(w[|w| - 1], 1 + extra[|w| - 1])
  }

  function Repeat<X>(x: X, n: nat): seq<X> {
    seq(n, _ => x)
  }

  function Map<X, Y>(f: X -> Y, w: seq<X>): (v: seq<Y>)
    ensures |v| == |w|
    ensures forall k :: 0 <= k < |w| ==> v[k] == f(w[k])
  {
    seq(|w|, k requires 0 <= k < |w| => f(w[k]))
  }

  lemma {:induction false} RunAppend<S, X, E>(step: (S, X) -> (S, seq<E>), s: S, a: seq<X>, b: seq<X>)
    ensures Run(step, s, a + b).0 == Run(step, Run(step, s, a).0, b).0
    ensures Run(step, s, a + b).1 == Run(step, s, a).1 + Run(step, Run(step, s, a).0, b).1
    decreases |b|
  {
    if b == [] {
      assert a + b == a;
    } else {
      var front := b[..|b| - 1];
      assert (a + b)[..|a + b| - 1] == a + front;
      RunAppend(step, s, a, front);
    }
  }

  lemma RunNothing<S, X, E>(step: (S, X) -> (S, seq<E>), s: S)
    ensures Run(step, s, []).0 == s && Run(step, s, []).1 == []
  {
  }

  lemma {:induction false} RunOne<S, X, E>(step: (S, X) -> (S, seq<E>), s: S, x: X)
    ensures Run(step, s, [x]) == step(s, x)
  {
    assert Run(step, s, [x][..0]) == (s, []);
    assert [] + step(s, x).1 == step(s, x).1;
  }

  /** One input after another, from the front. */
  lemma {:induction false} RunCons<S, X, E>(step: (S, X) -> (S, seq<E>), s: S, x: X, w: seq<X>)
    ensures Run(step, s, [x] + w).0 == Run(step, step(s, x).0, w).0
    ensures Run(step, s, [x] + w).1 == step(s, x).1 + Run(step, step(s, x).0, w).1
  {
    RunAppend(step, s, [x], w);
    RunOne(step, s, x);
  }

  /** What a machine emitted on a prefix of its input is a prefix of what it emits on all of it. */
  lemma {:induction false} RunPrefix<S, X, E>(step: (S, X) -> (S, seq<E>), s: S, w: seq<X>, n: nat)
    requires n <= |w|
    ensures Run(step, s, w[..n]).1 <= Run(step, s, w).1
  {
    assert w == w[..n] + w[n..];
    RunAppend(step, s, w[..n], w[n..]);
  }

  /** A machine that sees its input through `p` and whose output is seen through `q`. */
  lemma {:induction false} RunThrough<S(!new), X(!new), Y, E, F>(
    step: (S, X) -> (S, seq<E>), seen: (S, Y) -> (S, seq<F>), p: X -> Y, q: E -> F, s: S, w: seq<X>)
    requires forall t, x :: seen(t, p(x)).0 == step(t, x).0
    requires forall t, x :: seen(t, p(x)).1 == Map(q, step(t, x).1)
    ensures Run(seen, s, Map(p, w)).0 == Run(step, s, w).0
    ensures Run(seen, s, Map(p, w)).1 == Map(q, Run(step, s, w).1)
    decreases |w|
  {
    if w != [] {
      var front, x := w[..|w| - 1], w[|w| - 1];
      RunThrough(step, seen, p, q, s, front);
      assert Map(p, w)[..|w| - 1] == Map(p, front);
      var t := Run(step, s, front).0;
      assert seen(t, p(x)).0 == step(t, x).0;
      assert seen(t, p(x)).1 == Map(q, step(t, x).1);
    }
  }

  /** A machine does nothing on `x` when it has just read `x`. */
  ghost predicate IgnoresRepeats<S(!new), X(!new), E>(step: (S, X) -> (S, seq<E>)) {
    forall s, x :: step(step(s, x).0, x) == (step(s, x).0, [])
  }

  lemma {:induction false} RunRepeat<S, X, E>(step: (S, X) -> (S, seq<E>), s: S, x: X, n: nat)
    requires step(step(s, x).0, x) == (step(s, x).0, [])
    ensures Run(step, s, Repeat(x, 1 + n)) == step(s, x)
    decreases n
  {
    if n == 0 {
      assert Repeat(x, 1) == [x];
      RunOne(step, s, x);
    } else {
      assert Repeat(x, 1 + n)[..n] == Repeat(x, n);
      RunRepeat(step, s, x, n - 1);
      assert step(s, x).1 + [] == step(s, x).1;
    }
  }

  /** Holding every input for longer changes neither the final state nor the output. */
  lemma {:induction false} StretchInvariant<S(!new), X(!new), E>(
    step: (S, X) -> (S, seq<E>), s: S, w: seq<X>, extra: seq<nat>)
    requires |w| == |extra|
    requires IgnoresRepeats(step)
    ensures Run(step, s, Stretch(w, extra)) == Run(step, s, w)
    decreases |w|
  {
    if w != [] {
      var n := |w| - 1;
      StretchInvariant(step, s, w[..n], extra[..n]);
      var t := Run(step, s, w[..n]).0;
      RunAppend(step, s, Stretch(w[..n], extra[..n]), Repeat(w[n], 1 + extra[n]));
      RunRepeat(step, t, w[n], extra[n]);
    }
  }

  lemma {:induction false} StretchHead<X>(w: seq<X>, extra: seq<nat>)
    requires |w| == |extra| > 0
    ensures Stretch(w, extra) != [] && Stretch(w, extra)[0] == w[0]
    decreases |w|
  {
    if |w| > 1 {
      StretchHead(w[..|w| - 1], extra[..|w| - 1]);
    }
  }

  /** Looking at every input through `f` and holding inputs for longer do not interfere. */
  lemma {:induction false} MapStretch<X, Y>(f: X -> Y, w: seq<X>, extra: seq<nat>)
    requires |w| == |extra|
    ensures Map(f, Stretch(w, extra)) == Stretch(Map(f, w), extra)
    decreases |w|
  {
    if w != [] {
      var n := |w| - 1;
      MapStretch(f, w[..n], extra[..n]);
      assert Map(f, w)[..n] == Map(f, w[..n]);
      assert Map(f, Repeat(w[n], 1 + extra[n])) == Repeat(f(w[n]), 1 + extra[n]);
    }
  }
}
