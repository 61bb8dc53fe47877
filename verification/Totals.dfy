/** Weighted sums over finite maps. */
module Totals {

  ghost function Total<V>(m: map<int, V>, w: V -> int): int
    decreases |m|
  {
    if exists k :: k in m then
      var k :| k in m;
      w(m[k]) + Total(m - {k}, w)
    else 0
  }

  /** Any key may be taken out first. */
  lemma {:induction false} TotalWithout<V>(m: map<int, V>, w: V -> int, k: int)
    requires k in m
    ensures Total(m, w) == w(m[k]) + Total(m - {k}, w)
    decreases |m|
  {
    var j :| j in m && Total(m, w) == w(m[j]) + Total(m - {j}, w);
    if j != k {
      TotalWithout(m - {j}, w, k);
      TotalWithout(m - {k}, w, j);
      assert m - {j} - {k} == m - {k} - {j};
    }
  }

  lemma TotalPut<V>(m: map<int, V>, w: V -> int, k: int, v: V)
    ensures Total(m[k := v], w) == w(v) + Total(m, w) - if k in m then w(m[k]) else 0
  {
    TotalWithout(m[k := v], w, k);
    if k in m {
      TotalWithout(m, w, k);
      assert m[k := v] - {k} == m - {k};
    } else {
      assert m[k := v] - {k} == m;
    }
  }
}
