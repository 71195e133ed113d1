/** The process-wide store, a `BTreeMap<i32, i32>` behind one mutex.
    Every get and set is one atomic step, so the map is modelled as an
    immutable value and each operation returns the map after it. */
module SharedStore {
  import opened Int32

  type Store = map<I32, I32>

  /** What one store operation (or one guest function) leaves behind: the
      map after it and the `i32` it hands back to its caller. */
  datatype Step = Step(store: Store, value: I32)

  /** `map.get(&key).cloned().unwrap_or_default()`: the stored value, or the
      default `0` when the key is absent -- never an error. */
  function Get(s: Store, key: I32): (v: I32)
    ensures key in s ==> v == s[key]
    ensures key !in s ==> v == 0
  {
    if key in s then s[key] else 0
  }

  /** `map.insert(key, value).unwrap_or_default()`: last write wins, and the
      caller receives the value that was there before (or `0`). */
  function Set(s: Store, key: I32, value: I32): (r: Step)
    ensures r.store.Keys == s.Keys + {key}
    ensures Get(r.store, key) == value
    ensures r.value == Get(s, key)
    ensures forall k :: k != key ==> Get(r.store, k) == Get(s, k)
  {
    Step(s[key := value], Get(s, key))
  }

  /** Two writes to one key: the second one wins, and it reports the first. */
  lemma SetTwiceLastWins(s: Store, key: I32, v1: I32, v2: I32)
    ensures Set(Set(s, key, v1).store, key, v2).store == Set(s, key, v2).store
    ensures Set(Set(s, key, v1).store, key, v2).value == v1
  {
  }

  /** Writing back the value a set reported undoes that set, when the key
      was present before it. */
  lemma SetUndo(s: Store, key: I32, v: I32)
    requires key in s
    ensures Set(Set(s, key, v).store, key, Set(s, key, v).value).store == s
  {
  }

  /** Writes to different keys commute. */
  lemma SetCommutes(s: Store, k1: I32, v1: I32, k2: I32, v2: I32)
    requires k1 != k2
    ensures Set(Set(s, k1, v1).store, k2, v2).store == Set(Set(s, k2, v2).store, k1, v1).store
  {
  }
}
