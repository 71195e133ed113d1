/** The guest's trial-division primality test (`is_prime` in
    wasm/src/lib.rs) and its unit test. */
module Primes {
  import opened Int32

  /** `d` divides `n` exactly. */
  predicate Divides(d: int, n: int) {
    d != 0 && n % d == 0
  }

  /** The mathematical definition the test must agree with. */
  predicate Prime(n: int) {
    2 <= n && forall d :: 2 <= d < n ==> !Divides(d, n)
  }

  /** Multiplying both sides of `b <= c` by a non-negative factor. */
  lemma MulLeft(a: int, b: int, c: int)
    requires a >= 0 && b <= c
    ensures a * b <= a * c
  {
    assert a * c - a * b == a * (c - b);
  }

  /** A product is divisible by each of its positive factors. */
  lemma MulDivides(a: int, q: int, n: int)
    requires a > 0 && n == a * q
    ensures Divides(a, n)
  {
    var k := q - n / a;
    assert n == a * (n / a) + n % a;
    assert a * k == a * q - a * (n / a);
    assert a * k == n % a;
    if k >= 1 {
      MulLeft(a, 1, k);
    } else if k <= -1 {
      MulLeft(a, k, -1);
    }
  }

  /** An even divisor means `n` itself is even. */
  lemma EvenDivisor(d: int, n: int)
    requires d > 0 && d % 2 == 0 && Divides(d, n)
    ensures Divides(2, n)
  {
    var h := d / 2;
    var m := n / d;
    assert n == d * m;
    assert d * m == 2 * (h * m);
    MulDivides(2, h * m, n);
  }

  /** While the guard `i <= n / i` holds, `i * i <= n`, so `i` is a proper
      candidate divisor. */
  lemma GuardWithin(n: int, i: int)
    requires n >= 0 && i >= 3 && i <= n / i
    ensures i * i <= n && i < n
  {
    assert n == i * (n / i) + n % i;
    MulLeft(i, i, n / i);
    MulLeft(i, 1, i);
  }

  /** Once the guard `i <= n / i` fails, `i * i > n`. */
  lemma GuardExceeds(n: int, i: int)
    requires n >= 0 && i > 0 && i > n / i
    ensures i * i > n
  {
    assert n == i * (n / i) + n % i;
    MulLeft(i, n / i, i - 1);
    assert i * (i - 1) == i * i - i;
  }

  /** A product of two factors each at least `i` is at least `i * i`. */
  lemma ProductAtLeastSquare(d: int, e: int, i: int)
    requires d >= i >= 0
    ensures e >= i ==> d * e >= i * i
  {
    if e >= i {
      MulLeft(d, i, e);
      MulLeft(i, i, d);
      assert d * i == i * d;
    }
  }

  /** Once trial division has excluded every divisor below `i` and
      `i * i > n`, no larger proper divisor can exist either: its
      cofactor would be a smaller divisor. */
  lemma NoDivisorPastRoot(n: int, i: int)
    requires n >= 2 && i >= 2 && i * i > n
    requires forall d :: 2 <= d < i ==> !Divides(d, n)
    ensures Prime(n)
  {
    forall d | i <= d < n
      ensures !Divides(d, n)
    {
      var e := n / d;
      assert n == d * e + n % d;
      ProductAtLeastSquare(d, e, i);
      if e >= 1 {
        MulLeft(d, 1, e);
      }
      if n % d == 0 {
        MulDivides(e, d, n);
      }
    }
  }

  /** One round of trial division: an odd `i` that does not divide odd `n`
      extends the divisor-free range by two, as `i + 1` is even. */
  lemma TrialStep(n: int, i: int)
    requires n % 2 == 1 && 3 <= i < n && i % 2 == 1
    requires forall d :: 2 <= d < i ==> !Divides(d, n)
    requires !Divides(i, n)
    ensures i + 2 <= n && (i + 2) % 2 == 1
    ensures forall d :: 2 <= d < i + 2 ==> !Divides(d, n)
  {
    if Divides(i + 1, n) {
      EvenDivisor(i + 1, n);
    }
  }

  /** The primality test with the guard the source evidently intends,
      written `i <= n / i` so that no intermediate value leaves `i32`. */
  method IsPrime(n: I32) returns (r: bool)
    ensures r <==> Prime(n)
    ensures n < 2 ==> !r
    ensures n % 2 == 0 ==> (r <==> n == 2)
  {
    if n < 2 {
      return false;
    }
    if n % 2 == 0 {
      if n != 2 {
        MulDivides(2, n / 2, n);
      }
      return n == 2;
    }
    var i := 3;
    while i <= n / i
      invariant 3 <= i <= n && i % 2 == 1
      invariant forall d :: 2 <= d < i ==> !Divides(d, n)
    {
      GuardWithin(n, i);
      if n % i == 0 {
        assert 2 <= i < n && Divides(i, n);
        return false;
      }
      TrialStep(n, i);
      i := i + 2;
    }
    GuardExceeds(n, i);
    NoDivisorPastRoot(n, i);
    return true;
  }

  /* --- The unit test ------------------------------------------------- */

  /** The numbers of `[lo, hi)` the test accepts, in ascending order:
      `(lo..hi).filter(|&i| is_prime(i)).collect()`. */
  function PrimesIn(lo: int, hi: int): (ps: seq<int>)
    ensures forall j :: 0 <= j < |ps| ==> lo <= ps[j] < hi && Prime(ps[j])
    ensures forall p :: lo <= p < hi && Prime(p) ==> p in ps
    ensures StrictlyIncreasing(ps)
    decreases hi - lo
  {
    if hi <= lo then []
    else PrimesIn(lo, hi - 1) + (if Prime(hi - 1) then [hi - 1] else [])
  }

  /** Trial division by every candidate, for the small primes of the test. */
  lemma NoDivisorBelow(n: int)
    requires 2 <= n < 20
    requires n !in {4, 6, 8, 9, 10, 12, 14, 15, 16, 18}
    ensures Prime(n)
  {
    forall d | 2 <= d < n
      ensures !Divides(d, n)
    {
      assert d in {2, 3, 4, 5, 6, 7, 8, 9, 10, 11, 12, 13, 14, 15, 16, 17, 18};
    }
  }

  /** The primes below 20, settled divisor by divisor, and the others of
      `[1, 20)` each refuted by a witness divisor. */
  lemma PrimesBelowTwenty()
    ensures Prime(2) && Prime(3) && Prime(5) && Prime(7)
    ensures Prime(11) && Prime(13) && Prime(17) && Prime(19)
    ensures !Prime(1) && !Prime(9) && !Prime(15)
    ensures forall n :: 2 < n < 20 && n % 2 == 0 ==> !Prime(n)
  {
    NoDivisorBelow(2);
    NoDivisorBelow(3);
    NoDivisorBelow(5);
    NoDivisorBelow(7);
    NoDivisorBelow(11);
    NoDivisorBelow(13);
    NoDivisorBelow(17);
    NoDivisorBelow(19);
    assert Divides(3, 9) && Divides(3, 15);
    forall n | 2 < n < 20 && n % 2 == 0
      ensures !Prime(n)
    {
      assert Divides(2, n);
    }
  }

  predicate StrictlyIncreasing(xs: seq<int>) {
    forall j, k :: 0 <= j < k < |xs| ==> xs[j] < xs[k]
  }

  /** A strictly increasing sequence is determined by its elements. */
  lemma {:induction false} IncreasingUnique(a: seq<int>, b: seq<int>)
    requires StrictlyIncreasing(a) && StrictlyIncreasing(b)
    requires forall x :: x in a <==> x in b
    ensures a == b
    decreases |a|
  {
    assert |a| > 0 ==> a[0] in a && a[0] in b;
    assert |b| > 0 ==> b[0] in b && b[0] in a;
    if |a| > 0 && |b| > 0 {
      assert a[0] == b[0] by {
        assert a[0] in a && b[0] in b;
        assert b[0] in a && a[0] in b;
      }
      forall x
        ensures x in a[1..] <==> x in b[1..]
      {
        if x in a[1..] {
          assert x in b && x != b[0];
        }
        if x in b[1..] {
          assert x in a && x != a[0];
        }
      }
      IncreasingUnique(a[1..], b[1..]);
      assert a == [a[0]] + a[1..];
      assert b == [b[0]] + b[1..];
    }
  }

  /** The list the smoke test expects is the reference filter up to 20. */
  lemma TwentyExpected(ps: seq<int>)
    requires forall j :: 0 <= j < |ps| ==> 1 <= ps[j] < 20 && Prime(ps[j])
    requires forall p :: 1 <= p < 20 && Prime(p) ==> p in ps
    requires StrictlyIncreasing(ps)
    ensures ps == [2, 3, 5, 7, 11, 13, 17, 19]
  {
    PrimesBelowTwenty();
    forall x | x in ps
      ensures x in [2, 3, 5, 7, 11, 13, 17, 19]
    {
      var j :| 0 <= j < |ps| && ps[j] == x;
      assert 1 <= x < 20 && Prime(x);
    }
    IncreasingUnique(ps, [2, 3, 5, 7, 11, 13, 17, 19]);
  }

  /** `is_prime_smoke_test`: filtering `1..20` with `is_prime` as written
      keeps exactly the primes; no guard overflows on these inputs. */
  method SmokeTest() returns (primes: seq<int>)
    ensures primes == [2, 3, 5, 7, 11, 13, 17, 19]
  {
    primes := [];
    var i := 1;
    while i < 20
      invariant 1 <= i <= 20
      invariant primes == PrimesIn(1, i)
    {
      AsWrittenExactBelow(i);
      if IsPrimeAsWritten(i) == Decided(true) {
        primes := primes + [i];
      }
      i := i + 1;
    }
    TwentyExpected(primes);
  }

  /* --- The loop exactly as written ------------------------------------ */

  /** The largest odd trial divisor whose square fits in `i32`: the next
      one, `LastSafeDivisor + 2 = 46341`, squares to 2147488281. */
  const LastSafeDivisor: int := 46339

  /** Below this bound the source's guard never overflows. */
  const OverflowFreeBound: int := LastSafeDivisor * LastSafeDivisor

  /** Outcome of the source's test in a build with overflow checks (Rust's
      debug profile), where `i * i` outside `i32` panics: either a verdict,
      or the divisor whose square overflowed. A release build wraps the
      product instead and is not what this models. */
  datatype Verdict = Decided(isPrime: bool) | GuardOverflow(at: int)

  /** `while i * i <= n { if n % i == 0 { return false; } i += 2; } true`,
      panicking at the first product outside `i32`. */
  function TrialDivisionAsWritten(n: I32, i: int): Verdict
    requires 3 <= i
    decreases n - i
  {
    if i * i > I32_MAX then GuardOverflow(i)
    else if i * i > n then Decided(true)
    else if n % i == 0 then Decided(false)
    else
      MulLeft(i, 3, i);
      TrialDivisionAsWritten(n, i + 2)
  }

  /** `is_prime` with its guard as written, overflow-checked: below 2 and
      on even inputs it answers as the corrected test does; every verdict
      it reaches is right; and it panics exactly on the primes above
      `OverflowFreeBound`. */
  function IsPrimeAsWritten(n: I32): (r: Verdict)
    ensures n < 2 ==> r == Decided(false)
    ensures 2 <= n && n % 2 == 0 ==> r == Decided(n == 2)
    ensures r.Decided? ==> (r.isPrime <==> Prime(n))
    ensures r.GuardOverflow? <==> Prime(n) && n > OverflowFreeBound
  {
    if n < 2 then Decided(false)
    else if n % 2 == 0 then
      assert n != 2 ==> 2 <= 2 < n && Divides(2, n);
      Decided(n == 2)
    else
      TrialFromThree(n);
      TrialDivisionAsWritten(n, 3)
  }

  /** The odd case of `IsPrimeAsWritten`: trial division from 3. */
  lemma TrialFromThree(n: I32)
    requires n >= 3 && n % 2 == 1
    ensures TrialDivisionAsWritten(n, 3).Decided? ==>
              (TrialDivisionAsWritten(n, 3).isPrime <==> Prime(n))
    ensures TrialDivisionAsWritten(n, 3).GuardOverflow? <==> Prime(n) && n > OverflowFreeBound
  {
    TrialAsWrittenSound(n, 3);
    if n <= OverflowFreeBound {
      TrialDecidedBelow(n, 3);
    }
    if Prime(n) && n > OverflowFreeBound {
      TrialReachesOverflow(n, 3);
    }
  }

  lemma {:induction false} TrialAsWrittenSound(n: I32, i: int)
    requires n >= 3 && n % 2 == 1 && 3 <= i && i % 2 == 1
    requires forall d :: 2 <= d < i ==> !Divides(d, n)
    ensures TrialDivisionAsWritten(n, i).Decided? ==>
              (TrialDivisionAsWritten(n, i).isPrime <==> Prime(n))
    ensures TrialDivisionAsWritten(n, i).GuardOverflow? ==> Prime(n)
    decreases n - i
  {
    if i * i > I32_MAX {
      NoDivisorPastRoot(n, i);
    } else if i * i > n {
      NoDivisorPastRoot(n, i);
    } else {
      MulLeft(i, 3, i);
      if n % i == 0 {
        assert 2 <= i < n && Divides(i, n);
      } else {
        TrialStep(n, i);
        TrialAsWrittenSound(n, i + 2);
      }
    }
  }

  lemma {:induction false} TrialDecidedBelow(n: I32, i: int)
    requires n <= OverflowFreeBound && 3 <= i <= LastSafeDivisor && i % 2 == 1
    ensures TrialDivisionAsWritten(n, i).Decided?
    decreases LastSafeDivisor - i
  {
    MulLeft(i, i, LastSafeDivisor);
    MulLeft(LastSafeDivisor, i, LastSafeDivisor);
    if i * i <= n && n % i != 0 {
      TrialDecidedBelow(n, i + 2);
    }
  }

  /** Up to `OverflowFreeBound` the guard never overflows, so the as-written
      test is exact there. */
  lemma AsWrittenExactBelow(n: I32)
    requires n <= OverflowFreeBound
    ensures IsPrimeAsWritten(n) == Decided(Prime(n))
  {
  }

  lemma {:induction false} TrialReachesOverflow(n: I32, i: int)
    requires Prime(n) && n > OverflowFreeBound
    requires 3 <= i <= LastSafeDivisor + 2 && i % 2 == 1
    ensures TrialDivisionAsWritten(n, i) == GuardOverflow(LastSafeDivisor + 2)
    decreases LastSafeDivisor + 2 - i
  {
    if i < LastSafeDivisor + 2 {
      MulLeft(i, i, LastSafeDivisor);
      MulLeft(LastSafeDivisor, i, LastSafeDivisor);
      assert 2 <= i < n;
      assert !Divides(i, n);
      TrialReachesOverflow(n, i + 2);
    } else {
      assert i * i == 2147488281;
    }
  }

  /** A prime above `OverflowFreeBound` passes every trial divisor up to
      `LastSafeDivisor`, so the next guard squares 46341 to 2147488281, which
      exceeds `i32::MAX`: with overflow checks the as-written test panics
      instead of answering `true`. */
  lemma AsWrittenOverflowsOnLargePrimes(n: I32)
    requires Prime(n) && n > OverflowFreeBound
    ensures IsPrimeAsWritten(n) == GuardOverflow(LastSafeDivisor + 2)
    ensures IsPrimeAsWritten(n) != Decided(Prime(n))
  {
    assert 2 < n && !Divides(2, n);
    TrialReachesOverflow(n, 3);
  }
}
