/** Order-free sums over the values of a map, for Python's sum(... for ... in d.items()). */
module MapSums {

  ghost function Sum<K>(m: map<K, real>): real
    decreases |m|
  {
    if m == map[] then 0.0
    else
      var k :| k in m;
      m[k] + Sum(m - {k})
  }

  /** Any key may be taken out first. */
  lemma {:induction false} SumRemove<K>(m: map<K, real>, k: K)
    requires k in m
    ensures Sum(m) == m[k] + Sum(m - {k})
    decreases |m|
  {
    var first :| first in m && Sum(m) == m[first] + Sum(m - {first});
    if first != k {
      SumRemove(m - {first}, k);
      SumRemove(m - {k}, first);
      assert m - {first} - {k} == m - {k} - {first};
    }
  }

  lemma SumUpdate<K>(m: map<K, real>, k: K, v: real)
    ensures Sum(m[k := v]) == Sum(m) + v - if k in m then m[k] else 0.0
  {
    SumRemove(m[k := v], k);
    if k in m {
      SumRemove(m, k);
      assert m[k := v] - {k} == m - {k};
    } else {
      assert m[k := v] - {k} == m;
    }
  }

  /** The sum of one measure of the values. */
  ghost function Total<K, T>(m: map<K, T>, measure: T -> real): real {
    Sum(map k | k in m :: measure(m[k]))
  }

  lemma TotalUpdate<K, T>(m: map<K, T>, k: K, v: T, measure: T -> real)
    ensures Total(m[k := v], measure) == Total(m, measure) + measure(v) - if k in m then measure(m[k]) else 0.0
  {
    var measured, after := map s | s in m :: measure(m[s]), m[k := v];
    SumUpdate(measured, k, measure(v));
    assert measured[k := measure(v)] == map s | s in after :: measure(after[s]);
  }

  lemma TotalEmpty<K, T>(measure: T -> real)
    ensures Total<K, T>(map[], measure) == 0.0
  {
    var nothing: map<K, T> := map[];
    assert |map k | k in nothing :: measure(nothing[k])| == 0;
  }
}
