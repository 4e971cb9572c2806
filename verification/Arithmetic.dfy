/** Quotients and remainders, for a divisor the solver does not know. */
module Arithmetic {

  lemma MulMono(a: int, b: int, m: nat)
    ensures a <= b ==> a * m <= b * m
  {
  }

  /** A quotient and a remainder below the divisor are the quotient and the remainder. */
  lemma DivUnique(v: nat, d: nat, q: nat, r: nat)
    requires d > 0 && r < d && v == q * d + r
    ensures v / d == q && v % d == r
  {
    MulMono(q + 1, v / d, d);
    MulMono(v / d + 1, q, d);
  }
}
