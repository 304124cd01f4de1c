/** Sums over the values of a finite map. */
module MapSums {

  ghost function Pick<K>(s: set<K>): K
    requires s != {}
  {
    var k :| k in s;
    k
  }

  /** The sum over some of the keys. */
  ghost function Over<K>(m: map<K, real>, s: set<K>): real
    requires s <= m.Keys
  {
    if s == {} then 0.0 else m[Pick(s)] + Over(m, s - {Pick(s)})
  }

  ghost function Sum<K>(m: map<K, real>): real {
    Over(m, m.Keys)
  }

  /** Any key can be taken out first. */
  lemma {:induction false} OverSplits<K>(m: map<K, real>, s: set<K>, k: K)
    requires s <= m.Keys && k in s
    ensures Over(m, s) == m[k] + Over(m, s - {k})
    decreases s
  {
    var c := Pick(s);
    if c != k {
      OverSplits(m, s - {c}, k);
      OverSplits(m, s - {k}, c);
      assert (s - {c}) - {k} == (s - {k}) - {c};
    }
  }

  lemma {:induction false} OverAgrees<K>(m: map<K, real>, m': map<K, real>, s: set<K>)
    requires s <= m.Keys && s <= m'.Keys && forall k :: k in s ==> m[k] == m'[k]
    ensures Over(m, s) == Over(m', s)
    decreases s
  {
    if s == {} {
    } else {
      OverAgrees(m, m', s - {Pick(s)});
    }
  }

  function At<K>(m: map<K, real>, k: K): real {
    if k in m then m[k] else 0.0
  }

  lemma SumRemove<K>(m: map<K, real>, k: K)
    ensures Sum(m - {k}) == Sum(m) - At(m, k)
  {
    assert (m - {k}).Keys == m.Keys - {k};
    OverAgrees(m, m - {k}, m.Keys - {k});
    if k in m {
      OverSplits(m, m.Keys, k);
    } else {
      assert m.Keys - {k} == m.Keys;
    }
  }

  lemma UpdateThenRemove<K>(m: map<K, real>, k: K, v: real)
    ensures m[k := v] - {k} == m - {k}
  {
  }

  /** Setting one entry changes the sum by the difference. */
  lemma SumUpdate<K>(m: map<K, real>, k: K, v: real)
    ensures Sum(m[k := v]) == Sum(m) - At(m, k) + v
  {
    SumRemove(m[k := v], k);
    UpdateThenRemove(m, k, v);
    SumRemove(m, k);
  }

  /** The entry with `delta` added; a missing entry counts as zero. */
  function AddTo<K>(m: map<K, real>, k: K, delta: real): map<K, real> {
    m[k := At(m, k) + delta]
  }

  lemma SumAddTo<K>(m: map<K, real>, k: K, delta: real)
    ensures Sum(AddTo(m, k, delta)) == Sum(m) + delta
  {
    SumUpdate(m, k, At(m, k) + delta);
  }
}
