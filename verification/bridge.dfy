/** The host side of the guest ABI: the `host_get` / `host_set` closures
    handed to the guest, the loop that binds a module's import names to
    them, and the effect of a guest's host calls, in program order, on the
    one shared map. */
module Bridge {
  import opened Int32
  import opened SharedStore

  /** The `host_get` closure: reads the shared map, changes nothing. */
  function HostGet(s: Store, key: I32): (r: Step)
    ensures r.store == s
    ensures key in s ==> r.value == s[key]
    ensures key !in s ==> r.value == 0
  {
    Step(s, Get(s, key))
  }

  /** The `host_set` closure: inserts into the shared map and hands the
      previous value (or `0`) back to the guest. */
  function HostSet(s: Store, key: I32, value: I32): (r: Step)
    ensures r.store.Keys == s.Keys + {key}
    ensures r.store[key] == value
    ensures forall k :: k in s && k != key ==> r.store[k] == s[k]
    ensures key in s ==> r.value == s[key]
    ensures key !in s ==> r.value == 0
  {
    Set(s, key, value)
  }

  /* --- Import binding ---------------------------------------------------- */

  /** The closed set of capabilities the host offers. */
  datatype Capability = GetCapability | SetCapability

  /** What one declared import contributes: its capability, or nothing. */
  function BindOne(name: string): seq<Capability> {
    if name == "host_get" then [GetCapability]
    else if name == "host_set" then [SetCapability]
    else []
  }

  /** A name the host binds. */
  predicate Recognised(name: string) {
    BindOne(name) != []
  }

  /** The `for import in module.imports()` loop: one capability per
      recognised name, in declaration order; other names are skipped. */
  function BindImports(names: seq<string>): (caps: seq<Capability>)
    ensures |caps| <= |names|
    ensures |caps| == |names| <==> forall i :: 0 <= i < |names| ==> Recognised(names[i])
  {
    if |names| == 0 then []
    else BindOne(names[0]) + BindImports(names[1..])
  }

  /** One capability per declaration of `host_get` and one per declaration
      of `host_set`, and nothing else. */
  lemma {:induction false} BindImportsCounts(names: seq<string>)
    ensures multiset(BindImports(names))[GetCapability] == multiset(names)["host_get"]
    ensures multiset(BindImports(names))[SetCapability] == multiset(names)["host_set"]
    ensures |BindImports(names)| == multiset(names)["host_get"] + multiset(names)["host_set"]
    decreases |names|
  {
    if |names| > 0 {
      assert names == [names[0]] + names[1..];
      assert multiset(names) == multiset([names[0]]) + multiset(names[1..]);
      BindImportsCounts(names[1..]);
      var rest := BindImports(names[1..]);
      assert BindImports(names) == BindOne(names[0]) + rest;
      assert multiset(BindImports(names)) == multiset(BindOne(names[0])) + multiset(rest);
      assert multiset(BindOne(names[0]))[GetCapability] == multiset([names[0]])["host_get"];
      assert multiset(BindOne(names[0]))[SetCapability] == multiset([names[0]])["host_set"];
    }
  }

  /** Binding distributes over concatenation: each import is bound on its
      own and the results keep the module's order. */
  lemma {:induction false} BindImportsAppend(a: seq<string>, b: seq<string>)
    ensures BindImports(a + b) == BindImports(a) + BindImports(b)
    decreases |a|
  {
    if |a| == 0 {
      assert a + b == b;
    } else {
      assert (a + b)[1..] == a[1..] + b;
      BindImportsAppend(a[1..], b);
    }
  }

  /* --- Host calls against the shared map ------------------------------- */

  /** One call a running guest makes through a bound capability. */
  datatype HostCall = CallGet(key: I32) | CallSet(key: I32, value: I32)

  /** How a guest's entry point ends on a given map: the host calls it
      made, in program order, then either the `i32` it returned or a trap
      (an `unreachable`, a panic, running out of fuel). A trap does not
      undo the calls made before it. */
  datatype GuestRun = Finished(calls: seq<HostCall>, result: I32) | Trapped(calls: seq<HostCall>)

  function Invoke(s: Store, call: HostCall): Step {
    match call
    case CallGet(k) => HostGet(s, k)
    case CallSet(k, v) => HostSet(s, k, v)
  }

  /** The keys a trace writes. */
  function WrittenKeys(calls: seq<HostCall>): set<I32> {
    set i | 0 <= i < |calls| && calls[i].CallSet? :: calls[i].key
  }

  lemma WrittenKeysCons(calls: seq<HostCall>)
    requires |calls| > 0
    ensures WrittenKeys(calls)
         == (if calls[0].CallSet? then {calls[0].key} else {}) + WrittenKeys(calls[1..])
  {
    forall k | k in WrittenKeys(calls)
      ensures k in (if calls[0].CallSet? then {calls[0].key} else {}) + WrittenKeys(calls[1..])
    {
      var i :| 0 <= i < |calls| && calls[i].CallSet? && calls[i].key == k;
      if i > 0 {
        assert calls[1..][i - 1] == calls[i];
      }
    }
    forall k | k in WrittenKeys(calls[1..])
      ensures k in WrittenKeys(calls)
    {
      var i :| 0 <= i < |calls[1..]| && calls[1..][i].CallSet? && calls[1..][i].key == k;
      assert calls[i + 1] == calls[1..][i];
    }
  }

  /** The map after a guest's host calls, executed in program order, each
      one atomic: it gains exactly the keys the calls write. */
  function RunHostCalls(s: Store, calls: seq<HostCall>): (r: Store)
    ensures r.Keys == s.Keys + WrittenKeys(calls)
    decreases |calls|
  {
    if |calls| == 0 then s
    else
      WrittenKeysCons(calls);
      RunHostCalls(Invoke(s, calls[0]).store, calls[1..])
  }

  /** Reference reading of a trace: the value of the LAST set to `key`, or
      `initial` when the trace never sets it. */
  function LastWrite(calls: seq<HostCall>, key: I32, initial: I32): I32
    decreases |calls|
  {
    if |calls| == 0 then initial
    else
      var last := calls[|calls| - 1];
      if last.CallSet? && last.key == key then last.value
      else LastWrite(calls[..|calls| - 1], key, initial)
  }

  lemma {:induction false} RunHostCallsSnoc(s: Store, calls: seq<HostCall>, c: HostCall)
    ensures RunHostCalls(s, calls + [c]) == Invoke(RunHostCalls(s, calls), c).store
    decreases |calls|
  {
    if |calls| > 0 {
      assert (calls + [c])[1..] == calls[1..] + [c];
      RunHostCallsSnoc(Invoke(s, calls[0]).store, calls[1..], c);
    }
  }

  /** Last write wins across a whole guest run: after the calls, every key
      holds the value of its last set, or what it held before. */
  lemma {:induction false} RunHostCallsLastWriteWins(s: Store, calls: seq<HostCall>, key: I32)
    ensures Get(RunHostCalls(s, calls), key) == LastWrite(calls, key, Get(s, key))
    decreases |calls|
  {
    if |calls| > 0 {
      var init := calls[..|calls| - 1];
      var last := calls[|calls| - 1];
      assert calls == init + [last];
      RunHostCallsSnoc(s, init, last);
      RunHostCallsLastWriteWins(s, init, key);
    }
  }
}
