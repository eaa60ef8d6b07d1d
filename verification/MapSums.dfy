/** Sums over the values of a finite map, independent of the order of its keys. */
module MapSums {

  ghost function SumOver<K(!new)>(m: map<K, nat>, keys: set<K>): nat
    requires keys <= m.Keys
  {
    if keys == {} then 0 else
    var k :| k in keys;
    m[k] + SumOver(m, keys - {k})
  }

  ghost function Sum<K(!new)>(m: map<K, nat>): nat {
    SumOver(m, m.Keys)
  }

  lemma {:induction false} TakeOut<K(!new)>(m: map<K, nat>, keys: set<K>, k: K)
    requires keys <= m.Keys && k in keys
    ensures SumOver(m, keys) == m[k] + SumOver(m, keys - {k})
    decreases keys
  {
    var first :| first in keys && SumOver(m, keys) == m[first] + SumOver(m, keys - {first});
    if first != k {
      TakeOut(m, keys - {first}, k);
      TakeOut(m, keys - {k}, first);
      assert keys - {first} - {k} == keys - {k} - {first};
    }
  }

  lemma {:induction false} SameOver<K(!new)>(m: map<K, nat>, n: map<K, nat>, keys: set<K>)
    requires keys <= m.Keys && keys <= n.Keys
    requires forall k :: k in keys ==> m[k] == n[k]
    ensures SumOver(m, keys) == SumOver(n, keys)
    decreases keys
  {
    if keys != {} {
      var k :| k in keys && SumOver(m, keys) == m[k] + SumOver(m, keys - {k});
      SameOver(m, n, keys - {k});
      TakeOut(n, keys, k);
    }
  }

  /** The value a key contributes. */
  function At<K>(m: map<K, nat>, k: K): nat {
    if k in m then m[k] else 0
  }

  lemma SumWithout<K(!new)>(m: map<K, nat>, k: K)
    ensures Sum(m - {k}) + At(m, k) == Sum(m)
  {
    assert (m - {k}).Keys == m.Keys - {k};
    SameOver(m - {k}, m, m.Keys - {k});
    if k in m {
      TakeOut(m, m.Keys, k);
    } else {
      assert m.Keys - {k} == m.Keys;
    }
  }

  lemma SumWith<K(!new)>(m: map<K, nat>, k: K, v: nat)
    ensures Sum(m[k := v]) + At(m, k) == Sum(m) + v
  {
    SumWithout(m, k);
    SumWithout(m[k := v], k);
    assert m[k := v] - {k} == m - {k};
  }
}
