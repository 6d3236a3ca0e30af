/** The sum of the values of a finite map, and how it moves when values change. */
module Totals {

  ghost function Sum<K>(m: map<K, int>): int
    decreases |m|
  {
    if m == map[] then 0
    else
      var k :| k in m;
      m[k] + Sum(m - {k})
  }

  lemma {:induction false} SumSplits<K>(m: map<K, int>, k: K)
    requires k in m
    ensures Sum(m) == m[k] + Sum(m - {k})
    decreases |m|
  {
    var first :| first in m && Sum(m) == m[first] + Sum(m - {first});
    if first != k {
      SumSplits(m - {first}, k);
      SumSplits(m - {k}, first);
      assert m - {first} - {k} == m - {k} - {first};
    }
  }

  /** Moving exactly the values at `ks` by `d` moves the sum by d for each of them. */
  lemma {:induction false} SumShifts<K>(m: map<K, int>, m': map<K, int>, ks: set<K>, d: int)
    requires m.Keys == m'.Keys && ks <= m.Keys
    requires forall k | k in m :: m'[k] == m[k] + (if k in ks then d else 0)
    ensures Sum(m') == Sum(m) + d * |ks|
    decreases |m|
  {
    if m == map[] {
      assert m' == map[] && ks == {};
    } else {
      var k :| k in m;
      SumSplits(m, k);
      SumSplits(m', k);
      if k in ks {
        SumShifts(m - {k}, m' - {k}, ks - {k}, d);
        assert |ks - {k}| == |ks| - 1;
        assert d * |ks| == d * (|ks| - 1) + d;
      } else {
        SumShifts(m - {k}, m' - {k}, ks, d);
      }
    }
  }

  lemma Without<K>(m: map<K, int>, k: K)
    requires k in m
    ensures |m - {k}| == |m| - 1
  {
    assert (m - {k}).Keys == m.Keys - {k};
  }

  lemma UnionWithout<K>(m: map<K, int>, more: map<K, int>, k: K)
    requires m.Keys !! more.Keys && k in more
    ensures (m + more) - {k} == m + (more - {k})
  {
  }

  lemma {:induction false} SumOfUnion<K>(m: map<K, int>, more: map<K, int>)
    requires m.Keys !! more.Keys
    ensures Sum(m + more) == Sum(m) + Sum(more)
    decreases |more|
  {
    if more == map[] {
      assert m + more == m;
    } else {
      var k :| k in more;
      var less := more - {k};
      Without(more, k);
      UnionWithout(m, more, k);
      SumSplits(m + more, k);
      SumSplits(more, k);
      SumOfUnion(m, less);
    }
  }

  lemma {:induction false} SumOfConstant<K>(m: map<K, int>, value: int)
    requires forall k | k in m :: m[k] == value
    ensures Sum(m) == value * |m|
    decreases |m|
  {
    if m != map[] {
      var k :| k in m;
      Without(m, k);
      SumSplits(m, k);
      SumOfConstant(m - {k}, value);
      assert value * |m| == value * |m - {k}| + value;
    }
  }

  lemma {:induction false} SumNonNegative<K>(m: map<K, int>)
    requires forall k | k in m :: m[k] >= 0
    ensures Sum(m) >= 0
    decreases |m|
  {
    if m != map[] {
      var k :| k in m && Sum(m) == m[k] + Sum(m - {k});
      SumNonNegative(m - {k});
    }
  }

  lemma {:induction false} SumMonotone<K>(m: map<K, int>, m': map<K, int>)
    requires m.Keys == m'.Keys && forall k | k in m :: m'[k] <= m[k]
    ensures Sum(m') <= Sum(m)
    decreases |m|
  {
    if m != map[] {
      var k :| k in m;
      SumSplits(m, k);
      SumSplits(m', k);
      SumMonotone(m - {k}, m' - {k});
    }
  }
}
