/** Mutation records and their meaning as map transformations.
    `Apply` is what the reader does with one record; `ApplyAll` replays a
    queue of records in FIFO order. */
module Actions {
  import opened Results

  /** One mutation record, as the writer sends it. */
  datatype Action<K, V> = Add(key: K, value: V) | Remove(key: K) | Clear

  /** What `HashMap::get` answers for `k`. */
  function Lookup<K(==), V>(m: map<K, V>, k: K): Option<V>
  {
    if k in m then Some(m[k]) else None
  }

  /** The effect of one record on a map: `Add` overwrites, `Remove` deletes
      (a no-op on an absent key), `Clear` empties. */
  ghost function Apply<K, V>(m: map<K, V>, a: Action<K, V>): (r: map<K, V>)
    ensures a.Add? ==> r.Keys == m.Keys + {a.key} && r[a.key] == a.value
    ensures a.Remove? ==> r.Keys == m.Keys - {a.key}
    ensures !a.Clear? ==> forall j :: j in m && j != a.key ==> r[j] == m[j]
    ensures a.Remove? && a.key !in m ==> r == m
    ensures a.Clear? ==> r == map[]
  {
    match a
    case Add(k, v) => m[k := v]
    case Remove(k) => m - {k}
    case Clear => map[]
  }

  /** Replays the queue `q`, oldest record first, starting from `m`. */
  ghost function ApplyAll<K, V>(m: map<K, V>, q: seq<Action<K, V>>): map<K, V>
    decreases |q|
  {
    if q == [] then m else ApplyAll(Apply(m, q[0]), q[1..])
  }

  /** The map a fresh (empty) replica holds after applying `q`. */
  ghost function Replay<K, V>(q: seq<Action<K, V>>): map<K, V>
  {
    ApplyAll(map[], q)
  }

  /** Replaying two queues one after the other is replaying their concatenation. */
  lemma {:induction false} ApplyAllConcat<K, V>(m: map<K, V>, p: seq<Action<K, V>>, q: seq<Action<K, V>>)
    ensures ApplyAll(m, p + q) == ApplyAll(ApplyAll(m, p), q)
    decreases |p|
  {
    if p == [] {
      assert p + q == q;
    } else {
      assert (p + q)[0] == p[0];
      assert (p + q)[1..] == p[1..] + q;
      ApplyAllConcat(Apply(m, p[0]), p[1..], q);
    }
  }

  /** Appending one record to the queue applies it last. */
  lemma {:induction false} ApplyAllSnoc<K, V>(m: map<K, V>, q: seq<Action<K, V>>, a: Action<K, V>)
    ensures ApplyAll(m, q + [a]) == Apply(ApplyAll(m, q), a)
  {
    ApplyAllConcat(m, q, [a]);
    assert [a][1..] == [];
  }

  /** A `Clear` record makes everything queued before it irrelevant. */
  lemma {:induction false} ClearCutsHistory<K, V>(m: map<K, V>, p: seq<Action<K, V>>, q: seq<Action<K, V>>)
    ensures ApplyAll(m, p + [Clear] + q) == Replay(q)
  {
    ApplyAllConcat(m, p + [Clear], q);
    ApplyAllSnoc(m, p, Clear);
  }

  /** Reference definition of a replayed lookup: the newest record that
      mentions `k` (or clears everything) decides the answer; without one,
      the starting map does. */
  ghost function LatestValue<K, V>(m: map<K, V>, q: seq<Action<K, V>>, k: K): Option<V>
    decreases |q|
  {
    if q == [] then Lookup(m, k)
    else
      match q[|q| - 1]
      case Add(k', v) => if k' == k then Some(v) else LatestValue(m, q[..|q| - 1], k)
      case Remove(k') => if k' == k then None else LatestValue(m, q[..|q| - 1], k)
      case Clear => None
  }

  /** Looking a key up in the replayed map agrees with the newest relevant record. */
  lemma {:induction false} LookupAfterReplay<K, V>(m: map<K, V>, q: seq<Action<K, V>>, k: K)
    ensures Lookup(ApplyAll(m, q), k) == LatestValue(m, q, k)
    decreases |q|
  {
    if q != [] {
      var front, last := q[..|q| - 1], q[|q| - 1];
      assert q == front + [last];
      ApplyAllSnoc(m, front, last);
      LookupAfterReplay(m, front, k);
    }
  }
}
