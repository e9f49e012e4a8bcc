/** cldm_is_prime and the search for the next table capacity. */
module Primes {

  predicate Divides(d: nat, n: nat)
    requires d > 0
  { n % d == 0 }

  ghost predicate Prime(n: nat) { n > 1 && forall d :: 1 < d < n ==> !Divides(d, n) }

  /** The divisors the loop tries: one less than the multiples of six, up to the square root. */
  ghost predicate Tried(d: nat, n: nat) { d > 0 && d % 6 == 5 && d * d <= n }

  /** What the code accepts. */
  ghost predicate Accepted(n: nat) {
    n == 2 || n == 3 || (n != 0 && n % 3 != 0 && forall d :: Tried(d, n) ==> !Divides(d, n))
  }

  /** cldm_is_prime. The operators bind so that the first test only rejects zero, and the second one in the
      loop never rejects. */
  method IsPrime(num: nat) returns (r: bool)
    ensures r <==> Accepted(num)
  {
    if num == 2 || num == 3 {
      return true;
    }
    if (if num == 0 then 1 else 0) % 2 != 0 || num % 3 == 0 {
      return false;
    }
    r := NoDivisor(num);
  }

  /** The loop condition: the square of div - 1 is not above the number. */
  predicate More(div: nat, num: nat)
    requires div >= 6
  { div * div - 2 * div < num }

  /** The test in the loop body. */
  predicate Rejects(div: nat, num: nat)
    requires div >= 6
  { num % (div - 1) == 0 || num % div + 1 == 0 }

  /** The loop of cldm_is_prime. */
  method NoDivisor(num: nat) returns (r: bool)
    requires num != 0 && num != 2 && num != 3 && num % 3 != 0
    ensures r <==> Accepted(num)
  {
    hide Accepted, Tried, Divides, Cleared, More, Rejects;
    ClearedStart(num);
    var div := 6;
    while More(div, num)
      invariant div >= 6 && div % 6 == 0 && Cleared(div - 1, num)
      decreases num + 6 - div
    {
      if Rejects(div, num) {
        TriedAt(div, num);
        return false;
      }
      StepBound(div, num);
      ClearedNext(div, num);
      div := div + 6;
    }
    ClearedAll(div, num);
    return true;
  }

  /** No divisor among those below `k` that the loop tries. */
  ghost predicate Cleared(k: nat, num: nat) { forall d: nat :: Tried(d, num) && d < k ==> !Divides(d, num) }

  lemma ClearedStart(num: nat)
    ensures Cleared(5, num)
  {
  }

  lemma ClearedNext(div: nat, num: nat)
    requires div >= 6 && div % 6 == 0 && Cleared(div - 1, num) && !Rejects(div, num)
    ensures Cleared(div + 5, num)
  {
    forall d: nat | Tried(d, num) && d < div + 5
      ensures !Divides(d, num)
    {
      assert d < div - 1 || d == div - 1;
    }
  }

  lemma ClearedAll(div: nat, num: nat)
    requires div >= 6 && div % 6 == 0 && !More(div, num) && Cleared(div - 1, num)
    requires num != 0 && num % 3 != 0
    ensures Accepted(num)
  {
    forall d | Tried(d, num)
      ensures !Divides(d, num)
    {
      TriedBelow(d, div, num);
    }
  }

  lemma TriedAt(div: nat, num: nat)
    requires div >= 6 && div % 6 == 0 && More(div, num) && Rejects(div, num)
    requires num != 2 && num != 3
    ensures !Accepted(num)
  {
    assert (div - 1) * (div - 1) == div * div - 2 * div + 1;
    assert Tried(div - 1, num) && Divides(div - 1, num);
  }

  lemma StepBound(div: nat, num: nat)
    requires div >= 6 && More(div, num)
    ensures div - 6 < num
  {
    assert div * (div - 2) == div * div - 2 * div;
    assert div * (div - 2) >= div * 1;
  }

  lemma TriedBelow(d: nat, div: nat, num: nat)
    requires Tried(d, num) && div >= 6 && div % 6 == 0 && div * div - 2 * div >= num
    ensures d < div - 1
  {
    if d >= div - 1 {
      MulMono(div - 1, div - 1, d, d);
    }
  }

  /** Every prime is accepted. */
  lemma PrimeAccepted(n: nat)
    requires Prime(n)
    ensures Accepted(n)
  {
    if n != 2 && n != 3 {
      assert !Divides(3, n);
      forall d | Tried(d, n)
        ensures !Divides(d, n)
      {
        assert d >= 5;
        assert d * d >= 5 * d > d;
      }
    }
  }

  /** The other direction fails: 49 is accepted. */
  lemma FortyNine()
    ensures Accepted(49) && !Prime(49)
  {
    forall d | Tried(d, 49)
      ensures !Divides(d, 49)
    {
      if d > 7 { MulMono(8, 8, d, d); }
      assert d == 5;
    }
    assert Divides(7, 49);
  }

  /** Below 49 the code is right about odd numbers. */
  lemma RightBelow(n: nat)
    requires n % 2 == 1 && 1 < n < 49
    ensures Accepted(n) <==> Prime(n)
  {
    hide Accepted, Prime, Tried;
    if Prime(n) {
      PrimeAccepted(n);
    } else if n % 3 == 0 {
      ThreeRefused(n);
    } else {
      SmallComposites(n);
    }
  }

  lemma ThreeRefused(n: nat)
    requires n % 3 == 0 && n > 1 && !Prime(n)
    ensures !Accepted(n)
  {
    assert Prime(3);
  }

  /** An odd number below 49 that is neither prime nor a multiple of three has the divisor 5, and is no less than its
      square. */
  lemma SmallComposites(n: nat)
    requires n % 2 == 1 && n % 3 != 0 && 1 < n < 49 && !Prime(n)
    ensures !Accepted(n)
  {
    var d: nat :| 1 < d < n && Divides(d, n);
    var q := n / d;
    assert n == d * q == q * d;
    assert q > 1;
    if d <= q { FactorFive(n, d, q); } else { FactorFive(n, q, d); }
    assert Tried(5, n) && Divides(5, n);
  }

  lemma FactorFive(n: nat, d: nat, q: nat)
    requires n == d * q && n % 2 == 1 && n % 3 != 0 && n < 49 && 1 < d <= q
    ensures n % 5 == 0 && n >= 25
  {
    if d >= 7 { MulMono(7, 7, d, q); }
    assert d == 2 || d == 3 || d == 4 || d == 5 || d == 6;
  }

  // ---------------------------------------------------------------- infinitely many primes

  function Factorial(n: nat): (f: nat)
    ensures f > 0
  { if n == 0 then 1 else n * Factorial(n - 1) }

  lemma {:induction false} FactorialMultiple(n: nat, d: nat)
    requires 1 <= d <= n
    ensures Factorial(n) % d == 0
  {
    if d == n {
      MultipleOf(Factorial(n - 1), n);
    } else {
      FactorialMultiple(n - 1, d);
      MultipleTimes(Factorial(n - 1), n, d);
    }
  }

  lemma MultipleOf(a: nat, d: nat)
    requires d > 0
    ensures (d * a) % d == 0
  {
    Quotient(d * a, d, a);
  }

  lemma MultipleTimes(a: nat, m: nat, d: nat)
    requires d > 0 && a % d == 0
    ensures (m * a) % d == 0
  {
    var q := a / d;
    assert m * a == d * (m * q);
    Quotient(m * a, d, m * q);
  }

  lemma Quotient(x: nat, d: nat, q: nat)
    requires d > 0 && x == d * q
    ensures x % d == 0
  {
    Remainder(x, d, q, 0);
  }

  /** Quotient and remainder are unique. */
  lemma Remainder(x: nat, d: nat, q: int, r: nat)
    requires d > 0 && x == d * q + r && r < d
    ensures x % d == r
  {
    var q', r' := x / d, x % d;
    assert x == d * q' + r';
    assert d * (q - q') == r' - r;
    if q - q' >= 1 { MulMono(d, 1, d, q - q'); }
    if q' - q >= 1 { MulMono(d, 1, d, q' - q); }
  }

  lemma MulMono(a: nat, b: nat, x: nat, y: nat)
    requires a <= x && b <= y
    ensures a * b <= x * y
  {
    assert a * b <= a * y;
    assert a * y <= x * y;
  }

  lemma {:induction false} PrimeFactor(n: nat) returns (p: nat)
    requires n > 1
    ensures Prime(p) && n % p == 0
  {
    if d: nat :| 1 < d < n && Divides(d, n) {
      p := PrimeFactor(d);
      var q := n / d;
      assert n == q * d;
      MultipleTimes(d, q, p);
    } else {
      p := n;
    }
  }

  lemma PrimeBeyond(n: nat) returns (p: nat)
    ensures Prime(p) && p > n
  {
    var m := Factorial(n) + 1;
    p := PrimeFactor(m);
    if p <= n {
      FactorialMultiple(n, p);
      AddOne(Factorial(n), p);
    }
  }

  lemma AddOne(a: nat, d: nat)
    requires d > 1 && a % d == 0
    ensures (a + 1) % d == 1
  {
    Remainder(a + 1, d, a / d, 1);
  }

  lemma PrimeOdd(p: nat)
    requires Prime(p) && p > 2
    ensures p % 2 == 1
  {
    assert !Divides(2, p);
  }

  /** From the capacity a table starts with, the search passes over 63 and 65. */
  lemma FirstGrowth()
    ensures !Accepted(63) && !Accepted(65) && Accepted(67) && Prime(67)
  {
    assert Tried(5, 65) && Divides(5, 65);
    forall d | Tried(d, 67)
      ensures !Divides(d, 67)
    {
      if d > 8 { MulMono(9, 9, d, d); }
      assert d == 5;
    }
    forall d | 1 < d < 67
      ensures !Divides(d, 67)
    {
      SixtySeven(d);
    }
  }

  lemma SixtySeven(d: nat)
    requires 1 < d < 67
    ensures !Divides(d, 67)
  {
    if d <= 8 {
      assert d == 2 || d == 3 || d == 4 || d == 5 || d == 6 || d == 7 || d == 8;
    } else {
      NotProduct(d, 67 / d);
    }
  }

  lemma NotProduct(d: nat, q: nat)
    requires 8 < d < 67
    ensures d * q != 67
  {
    if q < 8 {
      assert q == 0 || q == 1 || q == 2 || q == 3 || q == 4 || q == 5 || q == 6 || q == 7;
    } else {
      MulMono(9, 8, d, q);
    }
  }

  /** cldm_ht_sizeup: the search stops because there is always another prime. */
  method SizeUp(capacity: nat) returns (next: nat)
    ensures next % 2 == 1 && next >= 2 * capacity + 1 && Accepted(next)
    ensures forall x :: 2 * capacity + 1 <= x < next && x % 2 == 1 ==> !Accepted(x)
    ensures capacity == 31 ==> next == 67
  {
    hide Accepted, Prime;
    FirstGrowth();
    next := 2 * capacity + 1;
    ghost var p := PrimeBeyond(next + 2);
    PrimeOdd(p);
    PrimeAccepted(p);
    var found := IsPrime(next);
    while !found
      invariant next % 2 == 1 && 2 * capacity + 1 <= next <= p && (found <==> Accepted(next))
      invariant forall x :: 2 * capacity + 1 <= x < next && x % 2 == 1 ==> !Accepted(x)
      decreases p - next
    {
      next := next + 2;
      found := IsPrime(next);
    }
  }
}
