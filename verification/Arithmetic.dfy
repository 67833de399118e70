/** Small facts about products, quotients and remainders. */
module Arithmetic {

  function Product(s: seq<nat>): nat {
    if s == [] then 1 else s[0] * Product(s[1..])
  }

  lemma AtLeastOnce(times: nat, steps: nat)
    requires times >= 1
    ensures times * steps >= steps
  {
    assert times * steps == (times - 1) * steps + steps;
  }

  /** A digit and a rest below the place value stay below the next digit. */
  lemma DigitBound(i: nat, extent: nat, p: nat, rest: nat)
    requires i < extent && rest < p
    ensures i * p + rest < extent * p
  {
    assert extent * p == i * p + p + (extent - i - 1) * p;
  }

  lemma SameDigits(a: nat, b: nat, x: nat, y: nat, p: nat)
    requires x < p && y < p && a * p + x == b * p + y
    ensures a == b && x == y
  {
    if a < b {
      DigitBound(a, b, p, x);
    } else if b < a {
      DigitBound(b, a, p, y);
    }
  }

  lemma QuotientUnique(x: nat, d: nat, q: nat, r: nat)
    requires r < d && x == q * d + r
    ensures x / d == q && x % d == r
  {
    assert x == (x / d) * d + x % d;
    SameDigits(x / d, q, x % d, r, d);
  }

  lemma QuotientStep(x: nat, d: nat)
    requires d > 0
    ensures (x + d) / d == x / d + 1
  {
    assert x + d == (x / d + 1) * d + x % d;
    QuotientUnique(x + d, d, x / d + 1, x % d);
  }
}
