# blitdb store, host bridge and guest logic in Dafny

blitdb is a small server that keeps one process-wide map from `i32` keys to
`i32` values. Clients read and write it directly over HTTP (`get_by_key`,
`set_by_key`). They can also post a compiled WebAssembly module to `exec`.
The server binds the module's imports named `host_get` and `host_set` to
closures over that same map, then calls the module's `exec` entry point.
In the guest program (wasm/src/lib.rs), the exported `exec` calls
`host_get`. The helpers `get_and_increment`, `collatz` and `next_prime`
each call `host_get` and then `host_set`. `next_prime` also calls
`is_prime`, a trial-division test that calls no import.

This project models that core as functions, and methods for the loops,
over an immutable `map<I32, I32>`. Each get or set is one atomic step that returns the map
after it.

- `Int32` holds the `i32` range as a subset type of `int`.
- `SharedStore` holds the map, `Get`, `Set` and their algebra.
- `Bridge` holds the `host_get`/`host_set` closures, the import-binding loop,
  and the effect of a guest's host calls made in program order.
- `Primes` holds `is_prime` (as written and corrected) and its unit test.
- `Guest` holds the guest's `exec`, `get_and_increment`, `collatz` and
  `next_prime`.
- `Server` holds the `get_by_key`, `set_by_key` and `exec` handlers, plus the
  lemmas showing that the direct path and the guest path share one map.

Keys and values are `i32` throughout. The guest passes them to the host
as plain `i32` arguments: no guest memory is read or written, and the
only imports the server offers are `host_get` and `host_set`. A set
returns the previous value, or `0` when the key was absent.

## Model

| member | source | states |
|---|---|---|
| SharedStore.Get | server/src/main.rs:69 | reading returns the stored value, and `0` for an absent key, never an error |
| SharedStore.Set | server/src/main.rs:117-122 | after a set the key holds the new value, the key set grows by exactly that key, every other key reads as before, and the result is the previous value or `0` |
| SharedStore.SetTwiceLastWins | server/src/main.rs:121 | two sets to one key leave the same map as the second alone, and the second reports the first value |
| SharedStore.SetUndo | server/src/main.rs:121-122 | setting a present key back to the value a set reported restores the original map |
| SharedStore.SetCommutes | server/src/main.rs:121 | sets to different keys commute |
| Bridge.HostGet | server/src/main.rs:94-109 | the guest's `host_get` leaves the map unchanged and returns the stored value or `0` |
| Bridge.HostSet | server/src/main.rs:111-124 | the guest's `host_set` stores the value, keeps every other entry, and returns the previous value or `0` |
| Bridge.BindImports | server/src/main.rs:126-133 | binding yields at most one capability per import, and one for every import exactly when every name is `host_get` or `host_set` |
| Bridge.BindImportsCounts | server/src/main.rs:127-132 | the get capability appears once per declared `host_get` and the set capability once per declared `host_set`, so the output length is the number of recognised names; other names contribute nothing |
| Bridge.BindImportsAppend | server/src/main.rs:127-132 | binding works import by import in declaration order: binding a concatenation gives the concatenated bindings |
| Bridge.RunHostCalls | server/src/main.rs:88-91 | a guest's sequence of host calls adds to the shared map exactly the keys it sets |
| Bridge.RunHostCallsLastWriteWins | server/src/main.rs:117-121 | after a guest's host calls, every key holds the value of its last set in the trace, or its earlier value if the trace never set it |
| Primes.IsPrime | wasm/src/lib.rs:83-98 | the primality test (with the overflow-free guard) answers true exactly for primes; it is false below 2, and for even `n` it is true only for 2 |
| Primes.PrimesIn | wasm/src/lib.rs:106 | filtering a range by primality keeps exactly the primes of the range, in strictly increasing order |
| Primes.TwentyExpected | wasm/src/lib.rs:106-107 | the only strictly increasing list of all primes in `[1, 20)` is `[2, 3, 5, 7, 11, 13, 17, 19]` |
| Primes.SmokeTest | wasm/src/lib.rs:104-108 | filtering `1..20` with `is_prime` as written yields `[2, 3, 5, 7, 11, 13, 17, 19]` |
| Primes.IncreasingUnique | wasm/src/lib.rs:106-107 | two strictly increasing lists with the same elements are equal, so a collected filter has one possible value |
| Primes.IsPrimeAsWritten | wasm/src/lib.rs:83-98 | `is_prime` as written, in a build with overflow checks: below 2 it answers false and on even inputs true only for 2; every verdict it reaches is right; and its guard `i * i` overflows (a panic) exactly on the primes above 46339 * 46339 |
| Primes.AsWrittenExactBelow | wasm/src/lib.rs:91 | for every `n` up to 46339 * 46339 the source's guard never overflows, and the test answers exactly `Prime(n)` |
| Primes.AsWrittenOverflowsOnLargePrimes | wasm/src/lib.rs:91 | in a build with overflow checks, for every prime above 46339 * 46339 the source's guard computes `46341 * 46341`, which exceeds `i32::MAX`, so the test panics instead of answering true |
| Guest.Exec | wasm/src/lib.rs:9-11 | the entry point returns the value at key 42, or `0` if absent, and leaves the map unchanged |
| Guest.ExecRun | wasm/src/lib.rs:9-11 | seen from the server, the entry point ends normally, writes no key, leaves the map unchanged, and returns what `exec` reads |
| Guest.GetAndIncrement | wasm/src/lib.rs:62-65 | the key ends one above its prior value (or `0`), that prior value is returned, and no other key changes |
| Guest.IncrementsCount | wasm/src/lib.rs:62-65 | `n` increments in a row raise the key by `n` and touch no other key |
| Guest.Collatz | wasm/src/lib.rs:67-71 | an even prior value (`0` when absent) is halved and an odd one becomes `3v + 1`; the prior value is returned; no other key changes |
| Guest.CollatzCycleFromOne | wasm/src/lib.rs:67-71 | from 1 the stored value runs 1, 4, 2, 1, and each call returns the value it replaced |
| Guest.CollatzOddThenHalves | wasm/src/lib.rs:67-71 | from an odd value `v` the next step is even and fits, so two calls store `(3v + 1) / 2`, the second returning `3v + 1` |
| Guest.NextPrime | wasm/src/lib.rs:73-81 | with the overflow-free primality test, the key ends holding the smallest prime strictly above its prior value; the prior value is returned; no other key changes |
| Guest.NextPrimeAsWritten | wasm/src/lib.rs:73-98 | with `is_prime` as written and overflow checks: when the smallest prime above the prior value is at most 46339 * 46339 it is stored, the prior value is returned and no other key changes; otherwise the search panics while testing that prime, before any write |
| Server.GetByKey | server/src/main.rs:68-70 | the direct read returns the stored value or `0` and leaves the map unchanged |
| Server.SetByKey | server/src/main.rs:72-75 | a body that is not UTF-8 or not a decimal `i32` fails and leaves the map unchanged; otherwise the value is stored, the previous value (or `0`) is returned, and no other key changes |
| Server.ExecRequest | server/src/main.rs:77-144 | a compile failure or an unrecognised import name is an error and leaves the map unchanged; once every import is bound, the start function runs on the request's map and `exec` runs after it, from the map it left and the instance state it set up; their host calls stay in the map, even when either traps; a trapping start function is an instantiation error; the response is `exec`'s result, or an error after a trap; it is `Ok` exactly when every import is recognised and neither run traps |
| Server.SetThenGetByKey | server/src/main.rs:68-75 | a direct set followed by a direct get of the same key returns the value set |
| Server.ExecWritesVisibleToGetByKey | server/src/main.rs:88-91 | after an `exec` request whose imports all bind, a direct `get_by_key` reports each key's last write by the start function and then `exec`, or its earlier value, even when either trapped |
| Server.StartStateReachesExec | server/src/main.rs:134-140 | `exec` runs in the instance the start function set up: a module whose start function reads key 1 and clears it, and whose `exec` returns what was read, answers 5 from `{1: 5}` and 7 from `{1: 7}`, though both maps become `{1: 0}` |
| Server.GuestProgramExec | server/src/main.rs:134-143 | the guest program, built with a `host_get` import and no start function, answers the value at key 42 (or `0`) and leaves the map unchanged |
| Server.DirectSetVisibleToExec | server/src/main.rs:88-91 | a value posted to key 42 with `set_by_key` is what a later `exec` of the guest program returns |

## Left out

- HTTP routing, the `readyz`/`livez` handlers, decimal rendering of response bodies, and the mapping of every error to a 500 response. These are framework glue. A response carries the `i32` that would be printed, or the kind of error.
- Logging and tracing spans. They have no effect on the map.
- The WebAssembly engine: compilation, import signature checks, typed lookup of the `exec` export, and the one-million fuel budget. These are foreign code. A compile outcome is an input to `Server.ExecRequest`. A compiled module's start function and `exec` are each given as the host calls they make and how they end (a result, or a trap such as running out of fuel).
- Server.ExecRequest: models an instantiation failure only for an unrecognised import name or a trapping start function. The first follows from the engine rejecting an import list shorter than the module's imports. Signature mismatches and a missing `exec` export are not modelled.
- Server.ExecRequest: does not tie a guest's host calls to the imports it declares (a module can only call what it imports). The lemmas about the guest program require `host_get` among its imports.
- The mutex and `Arc` sharing. Each get or set is one atomic step, and requests run one after another. Interleavings between concurrent requests are not modelled.
- Rust's `str::from_utf8` and `str::parse::<i32>`. Only their three outcomes are modelled: not UTF-8, not a decimal `i32`, or a value.
- Guest.GetAndIncrement: requires the prior value to be below `i32::MAX`. It does not model the wrap-around (release build) or the panic (debug build) of `v + 1`.
- Guest.Collatz: requires `3v + 1` to fit in `i32` when `v` is odd. It does not model the overflow of that product.
- Guest.NextPrime: requires some prime above the prior value within `i32`. It does not model the overflow of `v += 1` past `i32::MAX`, which happens when no such prime exists. It uses the overflow-free primality test, so it is exact only while the next prime is at most 46339 * 46339; above that the source's `next_prime` panics, as `Guest.NextPrimeAsWritten` shows.
- Guest.NextPrimeAsWritten: requires the same prime as `Guest.NextPrime` and models the debug build's panic only.
- Primes.IsPrimeAsWritten and the lemmas about it: model the overflow-checked (debug) build, where `i * i` beyond `i32::MAX` panics. The release build's wrap-around is not modelled. There the guard can stay true on a wrapped negative product, so a large prime can be answered `false` (for `2^31 − 1` the loop reaches `i = n`) or the loop can stop on a wrapped product above `n` and answer early.
- The `get_and_increment`, `collatz` and `next_prime` helpers are unexported dead code in the guest. The model still gives their semantics as called functions.

## Findings

| source | as written | input that shows it | evidently intended | confidence | as-written member | corrected member |
|---|---|---|---|---|---|---|
| wasm/src/lib.rs:91 | the loop guard `i * i <= n` computes `i * i` in `i32` | `n = 2147483647` (2^31 − 1, a prime): every odd `i` up to 46339 passes, then `46341 * 46341 = 2147488281` exceeds `i32::MAX`. A debug build panics; a release build wraps to a negative product, the guard stays true, and the loop ends at `i = n` with `false` | `i * i <= n` as a mathematical comparison, e.g. written `i <= n / i` | not executed; the counterexample relies on 2^31 − 1 being prime | Primes.AsWrittenOverflowsOnLargePrimes | Primes.IsPrime |

`Guest.NextPrime` uses the corrected `Primes.IsPrime`. `Primes.AsWrittenExactBelow` shows that the two tests agree on every `n` up to 46339 * 46339 = 2147302921. `Guest.NextPrimeAsWritten` shows the finding's effect on `next_prime`: with the prior value at 2147483646 it panics while testing the prime 2147483647 (2^31 − 1) instead of storing it.
