/** Totals over dictionaries. */
module Totals {

  function Get<K>(m: map<K, int>, k: K): int {
    if k in m then m[k] else 0
  }

  /** Sum of all values of a dictionary. */
  ghost function Sum<K>(m: map<K, int>): int
    decreases |m|
  {
    if m == map[] then 0
    else
      var k :| k in m;
      m[k] + Sum(m - {k})
  }

  /** Any key can be split off first. */
  lemma {:induction false} SumRemove<K>(m: map<K, int>, k: K)
    requires k in m
    ensures Sum(m) == m[k] + Sum(m - {k})
    decreases |m|
  {
    var j :| j in m && Sum(m) == m[j] + Sum(m - {j});
    if j != k {
      SumRemove(m - {j}, k);
      SumRemove(m - {k}, j);
      assert m - {j} - {k} == m - {k} - {j};
    }
  }

  /** Writing one entry moves the total by exactly the change of that entry. */
  lemma SumUpdate<K>(m: map<K, int>, k: K, v: int)
    ensures Sum(m[k := v]) == Sum(m) - Get(m, k) + v
  {
    var u := m[k := v];
    SumRemove(u, k);
    if k in m {
      SumRemove(m, k);
      assert u - {k} == m - {k};
    } else {
      assert u - {k} == m;
    }
  }

  lemma {:induction false} SumNonNegative<K>(m: map<K, int>)
    requires forall k :: k in m ==> 0 <= m[k]
    ensures 0 <= Sum(m)
    ensures forall k :: k in m ==> m[k] <= Sum(m)
    decreases |m|
  {
    forall k | k in m
      ensures 0 <= m[k] <= Sum(m)
    {
      SumRemove(m, k);
      SumNonNegative(m - {k});
    }
    if m != map[] {
      var k :| k in m;
      assert m[k] <= Sum(m);
    }
  }

  /** Entries that are zero do not matter. */
  lemma {:induction false} SumDropZeros<K>(m: map<K, int>)
    ensures Sum(m) == Sum(map k | k in m && m[k] != 0 :: m[k])
    decreases |m|
  {
    var kept := map k | k in m && m[k] != 0 :: m[k];
    if m == map[] {
      assert kept == m;
    } else {
      var k :| k in m;
      var rest := m - {k};
      SumRemove(m, k);
      SumDropZeros(rest);
      var keptRest := map j | j in rest && rest[j] != 0 :: rest[j];
      if m[k] != 0 {
        SumRemove(kept, k);
        assert kept - {k} == keptRest;
      } else {
        assert kept == keptRest;
      }
    }
  }

  /** The dictionary with a step added to the values of some keys. */
  function Bump<K>(m: map<K, int>, raised: set<K>, step: int): map<K, int> {
    map k | k in m :: m[k] + (if k in raised then step else 0)
  }

  ghost function Times(n: int, value: int): int {
    n * value
  }

  lemma OneMore(n: int, value: int)
    ensures Times(n + 1, value) == value + Times(n, value)
  {
  }

  lemma {:induction false} SumBumpTimes<K>(m: map<K, int>, raised: set<K>, step: int)
    requires raised <= m.Keys
    ensures Sum(Bump(m, raised, step)) == Sum(m) + Times(|raised|, step)
    decreases |m|
  {
    hide Sum, Times;
    if m == map[] {
      assert Bump(m, raised, step) == m && raised == {};
      NoTimes(step);
    } else {
      hide Bump;
      var k :| k in m;
      var others, rest := m - {k}, raised - {k};
      WithoutKey(m, raised, k);
      SumBumpTimes(others, rest, step);
      SumBumpOne(m, raised, step, k);
      OneMore(|rest|, step);
    }
  }

  lemma NoTimes(value: int)
    ensures Times(0, value) == 0
  {
  }

  lemma WithoutKey<K>(m: map<K, int>, raised: set<K>, k: K)
    requires raised <= m.Keys && k in m
    ensures |m - {k}| < |m| && raised - {k} <= (m - {k}).Keys
    ensures |raised| == |raised - {k}| + (if k in raised then 1 else 0)
  {
    assert (m - {k}).Keys == m.Keys - {k};
    assert raised == if k in raised then raised - {k} + {k} else raised - {k};
  }

  /** Raising the members of a set of keys moves the total by the step, once for each of them. */
  lemma SumBump<K>(m: map<K, int>, raised: set<K>, step: int)
    requires raised <= m.Keys
    ensures Sum(Bump(m, raised, step)) == Sum(m) + |raised| * step
  {
    hide Sum, Bump;
    SumBumpTimes(m, raised, step);
  }

  lemma SumBumpOne<K>(m: map<K, int>, raised: set<K>, step: int, k: K)
    requires k in m
    ensures Sum(m) == m[k] + Sum(m - {k})
    ensures Sum(Bump(m, raised, step))
      == m[k] + (if k in raised then step else 0) + Sum(Bump(m - {k}, raised - {k}, step))
  {
    SumRemove(m, k);
    SumRemove(Bump(m, raised, step), k);
    assert Bump(m, raised, step) - {k} == Bump(m - {k}, raised - {k}, step);
  }

  /** A subset has no more members. */
  lemma {:induction false} SubsetSize<T>(a: set<T>, b: set<T>)
    requires a <= b
    ensures |a| <= |b|
  {
    assert b == a + (b - a);
  }

  /** The code's sum(values): one pass over the dictionary, in any order. */
  method Total<K(==)>(m: map<K, int>) returns (total: int)
    ensures total == Sum(m)
  {
    total := 0;
    var remaining := m;
    while remaining != map[]
      invariant total + Sum(remaining) == Sum(m)
      decreases |remaining|
    {
      var k :| k in remaining;
      SumRemove(remaining, k);
      total := total + remaining[k];
      remaining := remaining - {k};
    }
  }
}
