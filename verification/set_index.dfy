/** Maps from a key to a set of values, as indexes use them: no key is kept for an emptied set. */
module SetIndex {

  function Lookup<K, V>(m: map<K, set<V>>, k: K): set<V> { if k in m then m[k] else {} }

  function Put<K, V>(m: map<K, set<V>>, k: K, v: V): map<K, set<V>> { m[k := Lookup(m, k) + {v}] }

  /** Take `v` out of the set of `k`; an emptied set is dropped. */
  function Take<K, V(==)>(m: map<K, set<V>>, k: K, v: V): map<K, set<V>> {
    if k !in m then m
    else if m[k] - {v} == {} then m - {k}
    else m[k := m[k] - {v}]
  }

  ghost predicate NoEmpty<K, V>(m: map<K, set<V>>) { forall k :: k in m ==> m[k] != {} }

  predicate Linked<K, V(==)>(m: map<K, set<V>>, k: K, v: V) { v in Lookup(m, k) }

  lemma SomeElement<V>(s: set<V>) returns (v: V)
    requires s != {}
    ensures v in s
  {
    v :| v in s;
  }

  lemma PutLinks<K, V>(m: map<K, set<V>>, k: K, v: V)
    requires NoEmpty(m)
    ensures NoEmpty(Put(m, k, v))
    ensures forall j, u :: Linked(Put(m, k, v), j, u) <==> Linked(m, j, u) || (j == k && u == v)
    ensures forall j :: j in Put(m, k, v) <==> j in m || j == k
  {}

  lemma TakeLinks<K, V>(m: map<K, set<V>>, k: K, v: V)
    requires NoEmpty(m)
    ensures NoEmpty(Take(m, k, v))
    ensures forall j, u :: Linked(Take(m, k, v), j, u) <==> Linked(m, j, u) && !(j == k && u == v)
    ensures forall j :: Lookup(Take(m, k, v), j) == if j == k then Lookup(m, j) - {v} else Lookup(m, j)
    ensures forall j :: j in Take(m, k, v) ==> j in m
  {}
}
