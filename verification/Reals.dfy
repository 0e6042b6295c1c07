/** Arithmetic on the reals that the solver is led through step by step. */
module Reals {

  function Abs(x: real): real {
    if x < 0.0 then -x else x
  }

  /** Multiplying by a positive number keeps order both ways. */
  lemma Scale(x: real, y: real, c: real)
    requires c > 0.0
    ensures x < y <==> x * c < y * c
    ensures x == y <==> x * c == y * c
  {
    assert (y - x) * c == y * c - x * c;
    if x < y { assert (y - x) * c > 0.0; }
    if x > y { assert (x - y) * c > 0.0; }
  }

  lemma Quotient(x: real, d: real)
    requires d > 0.0
    ensures x / d * d == x
    ensures x > 0.0 <==> x / d > 0.0
  {
    Scale(0.0, x / d, d);
  }

  /** The same for a divisor of either sign. */
  lemma QuotientBack(x: real, d: real)
    requires d != 0.0
    ensures x / d * d == x
  {
  }

  /** A quotient against a limit, with the division multiplied out. */
  lemma QuotientOrder(x: real, d: real, limit: real)
    requires d > 0.0
    ensures x >= limit * d <==> x / d >= limit
    ensures x <= limit * d <==> x / d <= limit
  {
    Quotient(x, d);
    Scale(x / d, limit, d);
  }
}
