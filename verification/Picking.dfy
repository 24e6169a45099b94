/** Members of non-empty sets, and the values of maps that share none. */
module Picking {

  lemma Member<T>(s: set<T>) returns (x: T)
    requires s != {}
    ensures x in s
  {
    x :| x in s;
  }

  lemma KeyOf<K, V>(m: map<K, V>, v: V) returns (k: K)
    requires v in m.Values
    ensures k in m && m[k] == v
  {
    k :| k in m && m[k] == v;
  }

  /** No two keys share a value. */
  ghost predicate Unshared<K, V>(m: map<K, V>) {
    forall a, b :: a in m && b in m && a != b ==> m[a] != m[b]
  }

  lemma ValuesAfterAdd<K, V>(m: map<K, V>, k: K, v: V)
    requires k !in m
    ensures m[k := v].Values == m.Values + {v}
  {
    var n := m[k := v];
    assert n[k] == v;
    forall x | x in m.Values ensures x in n.Values {
      var j := KeyOf(m, x);
      assert n[j] == x;
    }
  }

  lemma ValuesAfterRemove<K, V>(m: map<K, V>, k: K)
    requires Unshared(m) && k in m
    ensures (m - {k}).Values == m.Values - {m[k]}
  {
    var n := m - {k};
    forall x | x in m.Values && x != m[k] ensures x in n.Values {
      var j := KeyOf(m, x);
      assert n[j] == x;
    }
  }

  lemma {:induction false} ValuesCount<K, V>(m: map<K, V>)
    requires Unshared(m)
    ensures |m.Values| == |m|
    decreases |m|
  {
    if m == map[] {
      assert m.Values == {};
    } else {
      var k := Member(m.Keys);
      ValuesAfterRemove(m, k);
      assert m.Keys == (m - {k}).Keys + {k};
      ValuesCount(m - {k});
    }
  }
}
