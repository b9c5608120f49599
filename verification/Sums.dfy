/** Sums of natural numbers over the keys of a map: the totals the source computes by iterating a hash map. */
module Sums {
  ghost function SumOf<K(!new)>(m: map<K, nat>, keys: set<K>): nat
    requires keys <= m.Keys
  {
    if keys == {} then 0 else
      var k :| k in keys;
      m[k] + SumOf(m, keys - {k})
  }

  ghost function Total<K(!new)>(m: map<K, nat>): nat {
    SumOf(m, m.Keys)
  }

  /** The sum does not depend on the order in which the keys are visited. */
  lemma {:induction false} SumRemove<K(!new)>(m: map<K, nat>, keys: set<K>, k: K)
    requires keys <= m.Keys && k in keys
    ensures SumOf(m, keys) == m[k] + SumOf(m, keys - {k})
  {
    var j :| j in keys && SumOf(m, keys) == m[j] + SumOf(m, keys - {j});
    if j != k {
      SumRemove(m, keys - {j}, k);
      SumRemove(m, keys - {k}, j);
      assert keys - {j} - {k} == keys - {k} - {j};
    }
  }

  lemma SumAdd<K(!new)>(m: map<K, nat>, keys: set<K>, k: K)
    requires keys <= m.Keys && k in m && k !in keys
    ensures SumOf(m, keys + {k}) == SumOf(m, keys) + m[k]
  {
    SumRemove(m, keys + {k}, k);
    assert keys + {k} - {k} == keys;
  }

  lemma {:induction false} SumCongruent<K(!new)>(m: map<K, nat>, n: map<K, nat>, keys: set<K>)
    requires keys <= m.Keys && keys <= n.Keys && forall k :: k in keys ==> m[k] == n[k]
    ensures SumOf(m, keys) == SumOf(n, keys)
  {
    if keys != {} {
      var k :| k in keys;
      SumRemove(m, keys, k);
      SumRemove(n, keys, k);
      SumCongruent(m, n, keys - {k});
    }
  }

  /** Replacing (or inserting) one value shifts the total by the difference. */
  lemma TotalUpdate<K(!new)>(m: map<K, nat>, k: K, v: nat)
    ensures Total(m[k := v]) + (if k in m then m[k] else 0) == Total(m) + v
  {
    var n, rest := m[k := v], m.Keys - {k};
    SumRemove(n, n.Keys, k);
    assert n.Keys - {k} == rest;
    SumCongruent(m, n, rest);
    if k in m {
      SumRemove(m, m.Keys, k);
    } else {
      assert rest == m.Keys;
    }
  }

  lemma {:induction false} SumIsPositive<K(!new)>(m: map<K, nat>, keys: set<K>, k: K)
    requires keys <= m.Keys && k in keys
    ensures SumOf(m, keys) >= m[k]
  {
    SumRemove(m, keys, k);
  }
}
