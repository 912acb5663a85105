/**
 * Guava's `HashMultimap` as a map from keys to non-empty sets of values: a
 * key that was never given a value reads as the empty set, and `put` adds
 * one value under one key.
 */
module Multimaps {

  /** `Multimap.get`: the values under `k`, empty when there are none. */
  function Get<K, V>(m: map<K, set<V>>, k: K): set<V> {
    if k in m then m[k] else {}
  }

  /** `Multimap.put`: `v` joins the values under `k`; every other key keeps its values. */
  function Put<K, V>(m: map<K, set<V>>, k: K, v: V): (r: map<K, set<V>>)
    ensures r.Keys == m.Keys + {k}
  {
    m[k := Get(m, k) + {v}]
  }

  /** After `put(k, v)`, the values under any key are the old ones plus `v` under `k`. */
  lemma PutGet<K, V>(m: map<K, set<V>>, k: K, v: V, k': K, v': V)
    ensures v' in Get(Put(m, k, v), k') <==> v' in Get(m, k') || (k' == k && v' == v)
  {
  }

  /** A multimap never stores a key with no values. */
  predicate NoEmptyValues<K, V>(m: map<K, set<V>>) {
    forall k :: k in m ==> m[k] != {}
  }

  /** `put` keeps every stored value set non-empty. */
  lemma PutKeepsValuesNonEmpty<K, V>(m: map<K, set<V>>, k: K, v: V)
    requires NoEmptyValues(m)
    ensures NoEmptyValues(Put(m, k, v))
  {
  }

  /** Putting a value that is already stored changes nothing. */
  lemma PutExisting<K, V>(m: map<K, set<V>>, k: K, v: V)
    requires v in Get(m, k)
    ensures Put(m, k, v) == m
  {
    assert Get(m, k) + {v} == m[k];
  }
}
