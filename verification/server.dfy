/** The server's request handlers over the shared map (server/src/main.rs):
    the direct `get_by_key` / `set_by_key` pair and the `exec` pipeline
    that wires the guest's imports and runs its entry point. The HTTP
    framing and the decimal rendering of the body are not modelled: a
    successful response carries the `i32` the handler would print. */
module Server {
  import opened Int32
  import opened SharedStore
  import Bridge
  import Guest

  /** The failures the handlers turn into an internal-error response. */
  datatype AppError = Utf8Error | ParseIntError | CompileError | InstantiationError | GuestTrap

  datatype Response = Ok(body: I32) | Err(cause: AppError)

  /** What a handler leaves behind: the shared map and the response. */
  datatype Reply = Reply(store: Store, response: Response)

  /** The outcome of reading a `set_by_key` body as UTF-8 text holding a
      decimal `i32` (`std::str::from_utf8` then `str::parse`). */
  datatype Body = NotUtf8 | NotDecimalI32 | Decimal(value: I32)

  /** `get_by_key`: the stored value, `0` when absent, map unchanged. */
  function GetByKey(s: Store, key: I32): (r: Reply)
    ensures r.store == s
    ensures key in s ==> r.response == Ok(s[key])
    ensures key !in s ==> r.response == Ok(0)
  {
    Reply(s, Ok(Get(s, key)))
  }

  /** `set_by_key`: a body that is not UTF-8 or not a decimal `i32` fails
      before the lock is taken; otherwise the value is inserted and the
      previous one returned. */
  function SetByKey(s: Store, key: I32, body: Body): (r: Reply)
    ensures body.NotUtf8? ==> r == Reply(s, Err(Utf8Error))
    ensures body.NotDecimalI32? ==> r == Reply(s, Err(ParseIntError))
    ensures body.Decimal? ==>
              && r.response == Ok(Get(s, key))
              && Get(r.store, key) == body.value
              && r.store.Keys == s.Keys + {key}
              && forall k :: k != key ==> Get(r.store, k) == Get(s, k)
  {
    match body
    case NotUtf8 => Reply(s, Err(Utf8Error))
    case NotDecimalI32 => Reply(s, Err(ParseIntError))
    case Decimal(v) =>
      var step := Set(s, key, v);
      Reply(step.store, Ok(step.value))
  }

  /** A module's start function, which `Instance::new` runs once the
      imports are bound, given as how it runs on the map it starts from. */
  datatype StartFunction = NoStart | Start(run: Store -> Bridge.GuestRun)

  /** What compiling the request payload yields: a failure, or a module
      declaring the given import names, with its start function and its
      `exec` export. The start function is given as how it runs on the
      request's map. `exec` runs in the same instance, on the same fuel,
      after the start function, so it is given as how it runs from the
      request's map (which fixes every guest global, memory byte and unit
      of fuel the start function left) and the map it starts from. */
  datatype Compiled =
    | CompileFailed
    | GuestModule(imports: seq<string>, start: StartFunction, entry: (Store, Store) -> Bridge.GuestRun)

  /** Instantiation receives one binding per recognised import name, so
      every declared import is bound exactly when each is `host_get` or
      `host_set`. */
  predicate BindsAllImports(compiled: Compiled) {
    && compiled.GuestModule?
    && |Bridge.BindImports(compiled.imports)| == |compiled.imports|
  }

  /** The run of the start function during instantiation; a module without
      one makes no host calls and finishes (the result is unused). */
  function Startup(compiled: Compiled, s: Store): Bridge.GuestRun
    requires compiled.GuestModule?
  {
    match compiled.start
    case NoStart => Bridge.Finished([], 0)
    case Start(run) => run(s)
  }

  /** The map once instantiation has run the start function. */
  function Ready(compiled: Compiled, s: Store): Store
    requires compiled.GuestModule?
  {
    Bridge.RunHostCalls(s, Startup(compiled, s).calls)
  }

  /** The host calls `exec` makes: none when the start function trapped,
      since `exec` is then never called. */
  function EntryCalls(compiled: Compiled, s: Store): seq<Bridge.HostCall>
    requires compiled.GuestModule?
  {
    if Startup(compiled, s).Trapped? then [] else compiled.entry(s, Ready(compiled, s)).calls
  }

  /** `exec`: compile, bind the imports by name, instantiate (running the
      start function, if any), and call the guest's `exec` against the
      shared map. Host calls act on the map as they happen, so a start
      function or an `exec` that traps keeps the writes it made before
      the trap. */
  function ExecRequest(s: Store, compiled: Compiled): (r: Reply)
    ensures compiled.CompileFailed? ==> r == Reply(s, Err(CompileError))
    ensures compiled.GuestModule? && !BindsAllImports(compiled) ==> r == Reply(s, Err(InstantiationError))
    ensures BindsAllImports(compiled) ==>
              && r.store.Keys == s.Keys + Bridge.WrittenKeys(Startup(compiled, s).calls)
                                        + Bridge.WrittenKeys(EntryCalls(compiled, s))
              && (Startup(compiled, s).Trapped? ==> r.response == Err(InstantiationError))
              && (Startup(compiled, s).Finished? ==>
                    var run := compiled.entry(s, Ready(compiled, s));
                    && (run.Finished? ==> r.response == Ok(run.result))
                    && (run.Trapped? ==> r.response == Err(GuestTrap)))
    ensures r.response.Ok? <==>
              && compiled.GuestModule?
              && (forall i :: 0 <= i < |compiled.imports| ==> Bridge.Recognised(compiled.imports[i]))
              && Startup(compiled, s).Finished?
              && compiled.entry(s, Ready(compiled, s)).Finished?
  {
    match compiled
    case CompileFailed => Reply(s, Err(CompileError))
    case GuestModule(names, _, entry) =>
      if |Bridge.BindImports(names)| != |names| then Reply(s, Err(InstantiationError))
      else
        var ready := Ready(compiled, s);
        if Startup(compiled, s).Trapped? then Reply(ready, Err(InstantiationError))
        else
          var run := entry(s, ready);
          var after := Bridge.RunHostCalls(ready, run.calls);
          match run
          case Finished(_, v) => Reply(after, Ok(v))
          case Trapped(_) => Reply(after, Err(GuestTrap))
  }

  /** Direct set then direct get: read your own write. */
  lemma SetThenGetByKey(s: Store, key: I32, v: I32)
    ensures GetByKey(SetByKey(s, key, Decimal(v)).store, key).response == Ok(v)
  {
  }

  /** One map, two paths: whatever an instantiated module's host calls
      leave behind, from its start function and then its `exec`, whether
      either traps or not, is what a later `get_by_key` reports, key by key
      the last write. */
  lemma ExecWritesVisibleToGetByKey(s: Store, compiled: Compiled, key: I32)
    requires BindsAllImports(compiled)
    ensures GetByKey(ExecRequest(s, compiled).store, key).response
         == Ok(Bridge.LastWrite(EntryCalls(compiled, s), key,
                 Bridge.LastWrite(Startup(compiled, s).calls, key, Get(s, key))))
  {
    Bridge.RunHostCallsLastWriteWins(s, Startup(compiled, s).calls, key);
    Bridge.RunHostCallsLastWriteWins(Ready(compiled, s), EntryCalls(compiled, s), key);
  }

  /** The guest program of wasm/src/lib.rs, built with a `host_get` import
      and no start function: `exec` answers the value at key 42 (or `0`)
      and the map is unchanged. */
  lemma GuestProgramExec(s: Store, imports: seq<string>)
    requires "host_get" in imports
    requires forall i :: 0 <= i < |imports| ==> Bridge.Recognised(imports[i])
    ensures ExecRequest(s, GuestModule(imports, NoStart, (_, m) => Guest.ExecRun(m))) == Reply(s, Ok(Get(s, Guest.ExecKey)))
  {
  }

  /** The other direction: a value posted with `set_by_key` is what the
      guest program's `exec` then returns. */
  lemma DirectSetVisibleToExec(s: Store, v: I32, imports: seq<string>)
    requires "host_get" in imports
    requires forall i :: 0 <= i < |imports| ==> Bridge.Recognised(imports[i])
    ensures ExecRequest(SetByKey(s, Guest.ExecKey, Decimal(v)).store,
                        GuestModule(imports, NoStart, (_, m) => Guest.ExecRun(m))).response
         == Ok(v)
  {
  }

  /** A start function that reads key 1 and then clears it, and an `exec`
      that returns what the start function read (kept in a guest global). */
  function RememberAndClear(): Compiled {
    GuestModule(
      ["host_get", "host_set"],
      Start(_ => Bridge.Finished([Bridge.CallGet(1), Bridge.CallSet(1, 0)], 0)),
      (request, _) => Bridge.Finished([], Get(request, 1)))
  }

  /** `exec` sees what the start function left in the instance, not only
      the map: two requests that the start function brings to the same map
      still get the answers they started from. */
  lemma StartStateReachesExec()
    ensures ExecRequest(map[1 := 5], RememberAndClear()) == Reply(map[1 := 0], Ok(5))
    ensures ExecRequest(map[1 := 7], RememberAndClear()) == Reply(map[1 := 0], Ok(7))
  {
    var m := RememberAndClear();
    assert BindsAllImports(m) by {
      assert Bridge.BindImports(m.imports)
          == Bridge.BindOne("host_get") + Bridge.BindImports(["host_set"]);
    }
    assert Ready(m, map[1 := 5]) == map[1 := 0];
    assert Ready(m, map[1 := 7]) == map[1 := 0];
  }
}
