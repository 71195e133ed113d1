/** The guest program (wasm/src/lib.rs): its exported entry point and its
    read-modify-write helpers, each a `host_get` followed by a `host_set`
    on the shared map. Rust's `%` and `/` truncate toward zero while
    Dafny's are Euclidean, but the guest only tests `v % 2 == 0` (zero in
    both conventions exactly when `v` is even) and halves even numbers
    (exact in both), so the two agree on every input used here. */
module Guest {
  import opened Int32
  import opened SharedStore
  import opened Bridge
  import Primes

  /** The key the exported `exec` reads. */
  const ExecKey: I32 := 42

  /** `exec`: the entry point the server calls; one `host_get(42)`. */
  function Exec(s: Store): (r: Step)
    ensures r.store == s
    ensures ExecKey in s ==> r.value == s[ExecKey]
    ensures ExecKey !in s ==> r.value == 0
  {
    HostGet(s, ExecKey)
  }

  /** What the server observes when it calls `exec`: one `host_get(42)`
      whose value is returned. The run ends normally and writes nothing. */
  function ExecRun(s: Store): (r: GuestRun)
    ensures r.Finished? && r.result == Exec(s).value
    ensures WrittenKeys(r.calls) == {}
    ensures RunHostCalls(s, r.calls) == s
  {
    Finished([CallGet(ExecKey)], HostGet(s, ExecKey).value)
  }

  /** `get_and_increment`: a fetch-and-add of one. */
  function GetAndIncrement(s: Store, key: I32): (r: Step)
    requires Get(s, key) < I32_MAX
    ensures Get(r.store, key) == Get(s, key) + 1
    ensures r.value == Get(s, key)
    ensures forall k :: k != key ==> Get(r.store, k) == Get(s, k)
  {
    var v := HostGet(s, key);
    HostSet(v.store, key, v.value + 1)
  }

  /** `get_and_increment` applied `n` times in a row to one key. */
  function IncrementRepeatedly(s: Store, key: I32, n: nat): Store
    requires Get(s, key) + n <= I32_MAX
    decreases n
  {
    if n == 0 then s
    else IncrementRepeatedly(GetAndIncrement(s, key).store, key, n - 1)
  }

  /** A run of increments counts: the key ends up `n` higher, and nothing
      else moves. */
  lemma {:induction false} IncrementsCount(s: Store, key: I32, n: nat)
    requires Get(s, key) + n <= I32_MAX
    ensures Get(IncrementRepeatedly(s, key, n), key) == Get(s, key) + n
    ensures forall k :: k != key ==> Get(IncrementRepeatedly(s, key, n), k) == Get(s, k)
    decreases n
  {
    if n > 0 {
      IncrementsCount(GetAndIncrement(s, key).store, key, n - 1);
    }
  }

  /** The odd case of a Collatz step must stay within `i32`. */
  predicate CollatzFits(v: int) {
    v % 2 == 0 || I32_MIN <= 3 * v + 1 <= I32_MAX
  }

  /** `collatz`: one Collatz step on the stored value (`0` when absent). */
  function Collatz(s: Store, key: I32): (r: Step)
    requires CollatzFits(Get(s, key))
    ensures r.value == Get(s, key)
    ensures Get(s, key) % 2 == 0 ==> 2 * Get(r.store, key) == Get(s, key)
    ensures Get(s, key) % 2 != 0 ==> Get(r.store, key) == 3 * Get(s, key) + 1
    ensures forall k :: k != key ==> Get(r.store, k) == Get(s, k)
  {
    var v := HostGet(s, key);
    var next := if v.value % 2 == 0 then v.value / 2 else 3 * v.value + 1;
    HostSet(v.store, key, next)
  }

  /** Starting from 1 the stored value runs through the cycle 1, 4, 2, 1,
      each call returning the value it replaced. */
  lemma CollatzCycleFromOne(s: Store, key: I32)
    requires Get(s, key) == 1
    ensures var a := Collatz(s, key);
            var b := Collatz(a.store, key);
            var c := Collatz(b.store, key);
            a.value == 1 && b.value == 4 && c.value == 2 && Get(c.store, key) == 1
  {
  }

  /** An odd step always lands on an even value, so the next call halves
      it: two calls from odd `v` store `(3v + 1) / 2`, and the second
      returns `3v + 1`. */
  lemma {:induction false} CollatzOddThenHalves(s: Store, key: I32)
    requires Get(s, key) % 2 != 0 && CollatzFits(Get(s, key))
    ensures var a := Collatz(s, key);
            CollatzFits(Get(a.store, key)) &&
            var b := Collatz(a.store, key);
            b.value == 3 * Get(s, key) + 1 && 2 * Get(b.store, key) == 3 * Get(s, key) + 1
  {
    var v: int := Get(s, key);
    var m := v / 2;
    assert v == 2 * m + 1;
    assert 3 * v + 1 == 2 * (3 * m + 2);
  }

  /** `next_prime`: replaces the stored value by the smallest prime above
      it and returns the value replaced. The search counts upward one at a
      time, as the source's loop does. */
  method NextPrime(s: Store, key: I32) returns (r: Step)
    requires exists p :: Get(s, key) < p <= I32_MAX && Primes.Prime(p)
    ensures r.value == Get(s, key)
    ensures Get(s, key) < Get(r.store, key) && Primes.Prime(Get(r.store, key))
    ensures forall q :: Get(s, key) < q < Get(r.store, key) ==> !Primes.Prime(q)
    ensures forall k :: k != key ==> Get(r.store, k) == Get(s, k)
  {
    var start := HostGet(s, key);
    ghost var bound :| start.value < bound <= I32_MAX && Primes.Prime(bound);
    var v: I32 := start.value;
    while true
      invariant start.value <= v < bound
      invariant forall q :: start.value < q <= v ==> !Primes.Prime(q)
      decreases bound - v
    {
      v := v + 1;
      var isPrime := Primes.IsPrime(v);
      if isPrime {
        r := HostSet(start.store, key, v);
        return;
      }
    }
  }

  /** How `next_prime` ends when it calls `is_prime` as written, with
      overflow checks: the search either stores a prime, or panics while
      testing the candidate `at`, before its `host_set`. */
  datatype PrimeSearch = Found(step: Step) | Overflowed(at: I32)

  /** `next_prime` calling the as-written `is_prime`. Every candidate up to
      the next prime is decided correctly; that prime is stored when it lies
      within `Primes.OverflowFreeBound`, and otherwise testing it panics and
      the map is left as it was. */
  method NextPrimeAsWritten(s: Store, key: I32) returns (r: PrimeSearch)
    requires exists p :: Get(s, key) < p <= I32_MAX && Primes.Prime(p)
    ensures r.Found? ==>
              && r.step.value == Get(s, key)
              && Get(s, key) < Get(r.step.store, key) <= Primes.OverflowFreeBound
              && Primes.Prime(Get(r.step.store, key))
              && (forall q :: Get(s, key) < q < Get(r.step.store, key) ==> !Primes.Prime(q))
              && (forall k :: k != key ==> Get(r.step.store, k) == Get(s, k))
    ensures r.Overflowed? ==>
              && Get(s, key) < r.at && Primes.OverflowFreeBound < r.at
              && Primes.Prime(r.at)
              && (forall q :: Get(s, key) < q < r.at ==> !Primes.Prime(q))
  {
    var start := HostGet(s, key);
    ghost var bound :| start.value < bound <= I32_MAX && Primes.Prime(bound);
    var v: I32 := start.value;
    while true
      invariant start.value <= v < bound
      invariant forall q :: start.value < q <= v ==> !Primes.Prime(q)
      decreases bound - v
    {
      v := v + 1;
      match Primes.IsPrimeAsWritten(v)
      case GuardOverflow(_) =>
        return Overflowed(v);
      case Decided(isPrime) =>
        if isPrime {
          r := Found(HostSet(start.store, key, v));
          return;
        }
    }
  }
}
