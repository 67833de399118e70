/** Prime factors of a trip count, with the 32-bit loop variable of the program. */
module Factors {
  import opened Arithmetic

  /** Values of an unsigned int. */
  const UINT: nat := 0x1_0000_0000

  datatype Result = Returns(factors: seq<nat>) | Diverges

  predicate Divides(d: nat, n: nat)
    requires d > 0
  {
    n % d == 0
  }

  /** No number from 2 on and below k divides n. */
  ghost predicate NoDivisorBelow(k: nat, n: nat) {
    forall d :: 2 <= d < k ==> !Divides(d, n)
  }

  ghost predicate IsPrime(p: nat) {
    p >= 2 && NoDivisorBelow(p, p)
  }

  ghost predicate AscendingPrimes(s: seq<nat>) {
    && (forall i :: 0 <= i < |s| ==> IsPrime(s[i]))
    && (forall i, j :: 0 <= i < j < |s| ==> s[i] <= s[j])
  }

  // ---------- Divisibility ----------

  lemma MultipleDivides(d: nat, q: nat)
    requires d > 0
    ensures Divides(d, q * d)
  {
    QuotientUnique(q * d, d, q, 0);
  }

  lemma DividesTransitive(a: nat, b: nat, c: nat)
    requires a > 0 && b > 0 && Divides(a, b) && Divides(b, c)
    ensures Divides(a, c)
  {
    var q, r := b / a, c / b;
    assert b == q * a && c == r * b;
    assert c == (r * q) * a;
    MultipleDivides(a, r * q);
  }

  /** A divisor of a quotient divides the number. */
  lemma QuotientDivisors(d: nat, n: nat, k: nat)
    requires d > 0 && n > 0 && Divides(d, n)
    ensures n / d > 0 && n == n / d * d && (NoDivisorBelow(k, n) ==> NoDivisorBelow(k, n / d))
  {
    forall e | 2 <= e < k && Divides(e, n / d)
      ensures Divides(e, n)
    {
      assert n == d * (n / d);
      MultipleDivides(n / d, d);
      DividesTransitive(e, n / d, n);
    }
  }

  /** The least divisor is prime. */
  lemma LeastDivisorIsPrime(d: nat, n: nat)
    requires d >= 2 && Divides(d, n) && NoDivisorBelow(d, n)
    ensures IsPrime(d)
  {
    forall e | 2 <= e < d && Divides(e, d)
      ensures false
    {
      DividesTransitive(e, d, n);
    }
  }

  /** An odd number has no even divisor. */
  lemma OddDivisors(d: nat, n: nat)
    requires d > 0 && n % 2 == 1 && d % 2 == 0
    ensures !Divides(d, n)
  {
    if Divides(d, n) {
      DividesTransitive(2, d, n);
    }
  }

  lemma {:induction false} ProductSnoc(s: seq<nat>, x: nat)
    ensures Product(s + [x]) == Product(s) * x
  {
    if s == [] {
      assert s + [x] == [x] && [x][1..] == [];
    } else {
      ProductSnoc(s[1..], x);
      assert (s + [x])[1..] == s[1..] + [x];
      assert s[0] * (Product(s[1..]) * x) == s[0] * Product(s[1..]) * x;
    }
  }

  lemma DividesDifference(d: nat, x: nat, y: nat)
    requires d > 0 && Divides(d, x) && Divides(d, y) && y <= x
    ensures Divides(d, x - y)
  {
    var q, r := x / d, y / d;
    assert x == q * d && y == r * d;
    if q < r {
      DigitBound(q, r, d, 0);
    }
    assert x - y == (q - r) * d;
    MultipleDivides(d, q - r);
  }

  /** A prime that divides r * b with 0 < r < p divides b. */
  lemma {:induction false} PrimeDividesRest(p: nat, r: nat, b: nat)
    requires IsPrime(p) && 1 <= r < p && Divides(p, r * b)
    ensures Divides(p, b)
    decreases r
  {
    if r > 1 {
      var q, rest := p / r, p % r;
      assert p == q * r + rest;
      assert !Divides(r, p);
      assert b * p == q * (r * b) + rest * b;
      MultipleDivides(p, b);
      DividesMultiple(p, r * b, q);
      DividesDifference(p, b * p, q * (r * b));
      PrimeDividesRest(p, rest, b);
    }
  }

  lemma DividesMultiple(d: nat, x: nat, q: nat)
    requires d > 0 && Divides(d, x)
    ensures Divides(d, q * x)
  {
    assert q * x == q * (x / d) * d by {
      assert x == x / d * d;
    }
    MultipleDivides(d, q * (x / d));
  }

  lemma PrimeDividesProduct(p: nat, a: nat, b: nat)
    requires IsPrime(p) && Divides(p, a * b)
    ensures Divides(p, a) || Divides(p, b)
  {
    var q, r := a / p, a % p;
    if r > 0 {
      assert a * b == (q * b) * p + r * b by {
        assert a == q * p + r;
      }
      MultipleDivides(p, q * b);
      DividesDifference(p, a * b, (q * b) * p);
      PrimeDividesRest(p, r, b);
    }
  }

  /** A prime divides a product of primes only if it is one of them. */
  lemma {:induction false} PrimeFactorsUnique(p: nat, s: seq<nat>)
    requires IsPrime(p) && (forall i :: 0 <= i < |s| ==> IsPrime(s[i])) && Divides(p, Product(s))
    ensures p in s
  {
    if s == [] {
      QuotientUnique(1, p, 0, 1);
    } else {
      PrimeDividesProduct(p, s[0], Product(s[1..]));
      if Divides(p, s[0]) {
        assert NoDivisorBelow(s[0], s[0]);
        if p > s[0] {
          QuotientUnique(s[0], p, 0, s[0]);
        }
      } else {
        PrimeFactorsUnique(p, s[1..]);
      }
    }
  }

  // ---------- The factorization ----------

  /** What is left over has no divisor below k, what was taken out are primes up to k. */
  ghost predicate Factored(n: nat, left: nat, factors: seq<nat>, k: nat) {
    && left > 0 && n == Product(factors) * left
    && AscendingPrimes(factors) && (forall i :: 0 <= i < |factors| ==> factors[i] <= k)
    && NoDivisorBelow(k, left)
  }

  lemma TakeFactor(n: nat, left: nat, factors: seq<nat>, k: nat)
    requires k >= 2 && Factored(n, left, factors, k) && Divides(k, left)
    ensures Factored(n, left / k, factors + [k], k) && left / k < left
  {
    LeastDivisorIsPrime(k, left);
    QuotientDivisors(k, left, k);
    ProductSnoc(factors, k);
    MoveFactor(Product(factors), left, k, left / k);
  }

  lemma MoveFactor(product: nat, left: nat, k: nat, quotient: nat)
    requires k >= 2 && quotient > 0 && left == quotient * k
    ensures product * left == product * k * quotient && quotient < left
  {
    assert product * (quotient * k) == product * k * quotient;
    assert quotient * k == quotient * 2 + quotient * (k - 2);
  }

  lemma SkipEven(n: nat, left: nat, factors: seq<nat>, k: nat)
    requires k >= 3 && k % 2 == 1 && Factored(n, left, factors, k) && !Divides(k, left)
    ensures Factored(n, left, factors, k + 2)
  {
    assert !Divides(2, left);
    OddDivisors(k + 1, left);
    forall d | 2 <= d < k + 2
      ensures !Divides(d, left)
    {
    }
  }

  /** What is left when it is not above k is one or a prime. */
  lemma TakeRest(n: nat, left: nat, factors: seq<nat>, k: nat)
    requires k >= 3 && Factored(n, left, factors, k) && left <= k
    ensures left == 1 ==> Product(factors) == n
    ensures left > 1 ==> left == k > 2 && AscendingPrimes(factors + [left]) && Product(factors + [left]) == n
  {
    if left > 1 {
      QuotientUnique(left, left, 1, 0);
      assert Divides(left, left);
      ProductSnoc(factors, left);
    }
  }

  lemma {:induction false} LeastDivisor(n: nat, k: nat) returns (d: nat)
    requires 2 <= k <= n && NoDivisorBelow(k, n)
    ensures k <= d <= n && Divides(d, n) && NoDivisorBelow(d, n)
    decreases n - k
  {
    QuotientUnique(n, n, 1, 0);
    if Divides(k, n) {
      d := k;
    } else {
      d := LeastDivisor(n, k + 1);
    }
  }

  ghost predicate HasPrimeFrom(n: nat, bound: nat) {
    exists p :: p >= bound && IsPrime(p) && Divides(p, n)
  }

  /** A rest without divisors below the bound shows a prime factor from the bound on. */
  lemma LargePrime(n: nat, left: nat, factors: seq<nat>, bound: nat)
    requires bound >= 2 && Factored(n, left, factors, bound) && left > 1
    ensures HasPrimeFrom(n, bound)
  {
    if left < bound {
      QuotientUnique(left, left, 1, 0);
      assert Divides(left, left);
      assert false;
    }
    var d := LeastDivisor(left, bound);
    LeastDivisorIsPrime(d, left);
    MultipleDivides(left, Product(factors));
    DividesTransitive(d, left, n);
  }

  lemma NoLargePrime(n: nat, factors: seq<nat>, bound: nat)
    requires AscendingPrimes(factors) && Product(factors) == n && forall i :: 0 <= i < |factors| ==> factors[i] < bound
    ensures !HasPrimeFrom(n, bound)
  {
    forall p | p >= bound && IsPrime(p) && Divides(p, n)
      ensures false
    {
      PrimeFactorsUnique(p, factors);
    }
  }

  /** Ascending primes with product n; but the loop variable wraps round to one, and dividing
      by one goes on for ever, exactly when a prime factor does not fit an unsigned int. */
  method FactorConstant(n: nat) returns (r: Result)
    requires n > 1
    ensures r.Diverges? <==> HasPrimeFrom(n, UINT)
    ensures r.Returns? ==> AscendingPrimes(r.factors) && Product(r.factors) == n
  {
    var factors: seq<nat>, longNum: nat := DivideOutTwo(n);
    var i: nat := 3;
    while i < longNum
      invariant i == 1 || (3 <= i < UINT && i % 2 == 1)
      invariant Factored(n, longNum, factors, if i == 1 then UINT else i)
      invariant forall k :: 0 <= k < |factors| ==> factors[k] < UINT
      decreases if i == 1 then 0 else UINT - i
    {
      if i == 1 {
        LargePrime(n, longNum, factors, UINT);
        return Diverges;
      }
      factors, longNum := DivideOut(n, i, longNum, factors);
      SkipEven(n, longNum, factors, i);
      NextUnsigned(i);
      i := (i + 2) % UINT;
    }
    TakeRest(n, longNum, factors, if i == 1 then UINT else i);
    if longNum > 2 {
      factors := factors + [longNum];
    }
    NoLargePrime(n, factors, UINT);
    return Returns(factors);
  }

  /** The odd numbers end at the largest unsigned int, and after that comes one. */
  lemma NextUnsigned(i: nat)
    requires 3 <= i < UINT && i % 2 == 1
    ensures var next := (i + 2) % UINT;
      if i == UINT - 1 then next == 1 else next == i + 2 < UINT && next % 2 == 1
  {
  }

  /** The first loop. */
  method DivideOutTwo(n: nat) returns (factors: seq<nat>, longNum: nat)
    requires n > 1
    ensures Factored(n, longNum, factors, 3) && forall k :: 0 <= k < |factors| ==> factors[k] < UINT
  {
    factors, longNum := [], n;
    while longNum % 2 == 0
      invariant Factored(n, longNum, factors, 2)
      decreases longNum
    {
      TakeFactor(n, longNum, factors, 2);
      factors := factors + [2];
      longNum := longNum / 2;
    }
    assert !Divides(2, longNum);
  }

  /** The inner loop. */
  method DivideOut(ghost n: nat, i: nat, longNum0: nat, factors0: seq<nat>) returns (factors: seq<nat>, longNum: nat)
    requires 3 <= i < UINT && Factored(n, longNum0, factors0, i)
    requires forall k :: 0 <= k < |factors0| ==> factors0[k] < UINT
    ensures Factored(n, longNum, factors, i) && !Divides(i, longNum)
    ensures forall k :: 0 <= k < |factors| ==> factors[k] < UINT
  {
    factors, longNum := factors0, longNum0;
    while longNum % i == 0
      invariant Factored(n, longNum, factors, i)
      invariant forall k :: 0 <= k < |factors| ==> factors[k] < UINT
      decreases longNum
    {
      TakeFactor(n, longNum, factors, i);
      factors := factors + [i];
      longNum := longNum / i;
    }
  }
}
