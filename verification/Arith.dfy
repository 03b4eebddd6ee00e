/** The few facts about products and quotients that the solver does not find alone. */
module Arith {

  lemma MulMono(x: int, y: int, d: int)
    requires x <= y && d >= 0
    ensures x * d <= y * d
  {
    assert (y - x) * d >= 0;
  }

  lemma Quotient(a: int, d: int, q: int)
    requires d > 0 && q * d <= a < (q + 1) * d
    ensures a / d == q
  {
    var p := a / d;
    assert a == p * d + a % d;
    if p < q {
      MulMono(p + 1, q, d);
    } else if p > q {
      MulMono(q + 1, p, d);
    }
  }

  /** A number that lies on a multiple keeps its distance from it as remainder. */
  lemma Remainder(a: int, d: int, q: int)
    requires d > 0 && q * d <= a < (q + 1) * d
    ensures a % d == a - q * d
  {
    Quotient(a, d, q);
  }

  lemma Distribute3(a: int, b: int, c: int, d: int)
    ensures (a + b + c) * d == a * d + b * d + c * d
  {
  }
}
