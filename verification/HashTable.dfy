/** Hash tables: a table may be iterated in any order, and emplacing a key a second time does nothing. */
module HashTable {
  import opened Wrappers

  /** `order` is an order in which a table with these keys may be iterated. */
  ghost predicate Enumerates<K(!new)>(order: seq<K>, keys: set<K>) {
    && (forall k :: k in order <==> k in keys)
    && (forall i, j :: 0 <= i < j < |order| ==> order[i] != order[j])
  }

  /** Some order; nothing more is known about it. */
  method Iterate<K(==, !new)>(keys: set<K>) returns (order: seq<K>)
    ensures Enumerates(order, keys)
  {
    order := [];
    var rest := keys;
    while rest != {}
      invariant rest <= keys && Enumerates(order, keys - rest)
      decreases rest
    {
      var k :| k in rest;
      order, rest := order + [k], rest - {k};
    }
  }

  lemma {:induction false} EnumeratesAll<K(!new)>(order: seq<K>, keys: set<K>)
    requires Enumerates(order, keys)
    ensures |order| == |keys|
  {
    if order == [] {
      assert keys == {};
    } else {
      var n := |order| - 1;
      var rest := keys - {order[n]};
      assert forall k :: k in order <==> k in order[..n] || k == order[n];
      assert Enumerates(order[..n], rest);
      EnumeratesAll(order[..n], rest);
      assert keys == rest + {order[n]};
    }
  }

  /** The value of the first pair with key `k`. */
  function First<K(==), V>(pairs: seq<(K, V)>, k: K): Option<V> {
    if pairs == [] then None
    else
      var n := |pairs| - 1;
      var earlier := First(pairs[..n], k);
      if earlier.Some? then earlier else if pairs[n].0 == k then Some(pairs[n].1) else None
  }

  /** `m` is what emplacing the pairs one by one yields: for every key its first value. */
  ghost predicate Emplaced<K(!new), V>(pairs: seq<(K, V)>, m: map<K, V>) {
    forall k :: First(pairs, k) == if k in m then Some(m[k]) else None
  }

  method EmplaceAll<K(==, !new), V>(pairs: seq<(K, V)>) returns (m: map<K, V>)
    ensures Emplaced(pairs, m)
  {
    m := map[];
    for i := 0 to |pairs|
      invariant Emplaced(pairs[..i], m)
    {
      assert pairs[..i + 1][..i] == pairs[..i];
      assert First(pairs[..i], pairs[i].0) == if pairs[i].0 in m then Some(m[pairs[i].0]) else None;
      if pairs[i].0 !in m {
        m := m[pairs[i].0 := pairs[i].1];
      }
    }
    assert pairs[..|pairs|] == pairs;
  }

  lemma {:induction false} FirstIsOne<K, V>(pairs: seq<(K, V)>, k: K)
    ensures First(pairs, k).Some? ==> (k, First(pairs, k).value) in pairs
    ensures First(pairs, k).None? ==> forall p :: p in pairs ==> p.0 != k
  {
    if pairs != [] {
      var n := |pairs| - 1;
      FirstIsOne(pairs[..n], k);
      assert forall p :: p in pairs <==> p in pairs[..n] || p == pairs[n];
    }
  }

  /** The pair that decides is the first one with that key. */
  lemma {:induction false} FirstIsFirst<K, V>(pairs: seq<(K, V)>, k: K, i: nat)
    requires i < |pairs| && pairs[i].0 == k && forall j :: 0 <= j < i ==> pairs[j].0 != k
    ensures First(pairs, k) == Some(pairs[i].1)
    decreases |pairs|
  {
    var n := |pairs| - 1;
    FirstIsOne(pairs[..n], k);
    if i < n {
      FirstIsFirst(pairs[..n], k, i);
    }
  }
}
