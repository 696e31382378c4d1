/**
 * SQL `SUM` over a set of rows, as the sum of the values of a finite map
 * from row key to column value. The rows of a table have no order, so the
 * sum is defined by peeling an arbitrary key, and `SumOfRemove` shows that
 * the key peeled does not matter.
 */
module Sums {

  ghost function SumOf<K>(m: map<K, real>): real
    decreases |m|
  {
    if m == map[] then 0.0
    else
      var k :| k in m;
      assert (m - {k}).Keys == m.Keys - {k};
      m[k] + SumOf(m - {k})
  }

  /** Any row can be taken out of the sum first. */
  lemma {:induction false} SumOfRemove<K>(m: map<K, real>, k: K)
    requires k in m
    ensures SumOf(m) == m[k] + SumOf(m - {k})
    decreases |m|
  {
    var j :| j in m && SumOf(m) == m[j] + SumOf(m - {j});
    if j != k {
      assert (m - {j}).Keys == m.Keys - {j};
      assert (m - {k}).Keys == m.Keys - {k};
      SumOfRemove(m - {j}, k);
      SumOfRemove(m - {k}, j);
      assert m - {j} - {k} == m - {k} - {j};
    }
  }

  /** A sum of non-negative values is non-negative. */
  lemma {:induction false} SumOfNonNegative<K>(m: map<K, real>)
    requires forall k :: k in m ==> m[k] >= 0.0
    ensures SumOf(m) >= 0.0
    decreases |m|
  {
    if m != map[] {
      var k :| k in m;
      assert (m - {k}).Keys == m.Keys - {k};
      SumOfRemove(m, k);
      SumOfNonNegative(m - {k});
    }
  }

  /** The sum over two rows is their total. */
  lemma SumOfPair<K>(a: K, x: real, b: K, y: real)
    requires a != b
    ensures SumOf(map[a := x, b := y]) == x + y
  {
    var m := map[a := x, b := y];
    SumOfRemove(m, a);
    var rest := m - {a};
    assert rest == map[b := y];
    SumOfRemove(rest, b);
    assert rest - {b} == map[];
  }
}
