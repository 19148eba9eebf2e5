/** Prime numbers, and a sieve that finds those below 361. */
module Primes {

  predicate IsPrime(p: int) { p >= 2 && forall d | 2 <= d < p :: p % d != 0 }

  predicate Passes(n: int, q: int)
    requires q > 0
  {
    n == q || n % q != 0
  }

  /** No prime below 19 divides n, except n itself. */
  predicate Sieved(n: int) {
    && n >= 2 && Passes(n, 2) && Passes(n, 3) && Passes(n, 5) && Passes(n, 7)
    && Passes(n, 11) && Passes(n, 13) && Passes(n, 17)
  }

  lemma By2(n: int, m: int)
    requires n == 2 * m
    ensures n % 2 == 0
  {
  }

  lemma By3(n: int, m: int)
    requires n == 3 * m
    ensures n % 3 == 0
  {
  }

  lemma By5or7(n: int, m: int)
    ensures n == 5 * m ==> n % 5 == 0
    ensures n == 7 * m ==> n % 7 == 0
  {
  }

  lemma By11or13(n: int, m: int)
    ensures n == 11 * m ==> n % 11 == 0
    ensures n == 13 * m ==> n % 13 == 0
  {
  }

  lemma By17(n: int, m: int)
    requires n == 17 * m
    ensures n % 17 == 0
  {
  }

  lemma SmallFactor(n: int, d: int, e: int)
    requires 2 <= d <= 18 && d < n && n == d * e
    ensures !Sieved(n)
  {
    if d % 2 == 0 {
      var h := d / 2;
      assert n == 2 * (h * e) by { assert d == 2 * h; }
      By2(n, h * e);
    } else if d == 9 {
      By3(n, 3 * e);
    } else if d == 15 {
      By3(n, 5 * e);
    } else if d == 3 {
      By3(n, e);
    } else if d == 17 {
      By17(n, e);
    } else {
      By5or7(n, e);
      By11or13(n, e);
    }
  }

  /** Below the square of 19 the sieve is exact. */
  lemma SievedIsPrime(n: int)
    requires n < 361
    ensures Sieved(n) <==> IsPrime(n)
  {
    if Sieved(n) {
      forall d | 2 <= d < n ensures n % d != 0 {
        if n % d == 0 { Cofactor(n, d); }
      }
    }
    if n >= 2 && !Sieved(n) { SmallestFactor(n); }
  }

  lemma Cofactor(n: int, d: int)
    requires 2 <= d < n < 361 && n % d == 0
    ensures !Sieved(n)
  {
    var e := n / d;
    assert n == d * e;
    if d <= 18 {
      SmallFactor(n, d, e);
    } else {
      CofactorIsSmall(d, e);
      SmallFactor(n, e, d);
    }
  }

  lemma CofactorIsSmall(d: int, e: int)
    requires 19 <= d < d * e < 361
    ensures 2 <= e <= 18
  {
    assert e <= 1 ==> d * e <= d;
    assert e >= 19 ==> d * e >= 19 * 19;
  }

  lemma SmallestFactor(n: int)
    requires n >= 2 && !Sieved(n)
    ensures !IsPrime(n)
  {
    var q :=
      if !Passes(n, 2) then 2 else if !Passes(n, 3) then 3 else if !Passes(n, 5) then 5
      else if !Passes(n, 7) then 7 else if !Passes(n, 11) then 11 else if !Passes(n, 13) then 13 else 17;
    assert n % q == 0 && q < n;
  }
}
