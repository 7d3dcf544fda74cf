/** Sums over finite maps, independent of the order in which keys are visited. */
module Sums {
  ghost function SumOver<K(!new), V(!new)>(m: map<K, V>, f: V -> int): int
    decreases |m|
  {
    if m == map[] then 0
    else
      var k :| k in m;
      f(m[k]) + SumOver(m - {k}, f)
  }

  lemma {:induction false} SumOverRemove<K(!new), V(!new)>(m: map<K, V>, k: K, f: V -> int)
    requires k in m
    ensures SumOver(m, f) == f(m[k]) + SumOver(m - {k}, f)
    decreases |m|
  {
    var c :| c in m && SumOver(m, f) == f(m[c]) + SumOver(m - {c}, f);
    if c != k {
      SumOverRemove(m - {c}, k, f);
      SumOverRemove(m - {k}, c, f);
      assert m - {c} - {k} == m - {k} - {c};
    }
  }

  lemma SumOverUpdate<K(!new), V(!new)>(m: map<K, V>, k: K, v: V, f: V -> int)
    ensures SumOver(m[k := v], f) == SumOver(m, f) - (if k in m then f(m[k]) else 0) + f(v)
  {
    SumOverRemove(m[k := v], k, f);
    assert m[k := v] - {k} == m - {k};
    if k in m {
      SumOverRemove(m, k, f);
    } else {
      assert m - {k} == m;
    }
  }

  /** Three maps over the same keys whose values add up pointwise add up as wholes. */
  lemma {:induction false} SumOverAdd<K(!new), U(!new), V(!new), W(!new)>(
      m: map<K, U>, f: U -> int, m1: map<K, V>, f1: V -> int, m2: map<K, W>, f2: W -> int)
    requires m.Keys == m1.Keys == m2.Keys
    requires forall k <- m :: f(m[k]) == f1(m1[k]) + f2(m2[k])
    ensures SumOver(m, f) == SumOver(m1, f1) + SumOver(m2, f2)
    decreases |m|
  {
    if m == map[] {
      assert m1 == map[] && m2 == map[];
    } else {
      var k :| k in m;
      SumOverRemove(m, k, f);
      SumOverRemove(m1, k, f1);
      SumOverRemove(m2, k, f2);
      SumOverAdd(m - {k}, f, m1 - {k}, f1, m2 - {k}, f2);
    }
  }

  lemma {:induction false} SumOverSame<K(!new), U(!new), V(!new)>(
      m: map<K, U>, f: U -> int, m1: map<K, V>, f1: V -> int)
    requires m.Keys == m1.Keys
    requires forall k <- m :: f(m[k]) == f1(m1[k])
    ensures SumOver(m, f) == SumOver(m1, f1)
  {
    SumOverAtMost(m, f, m1, f1);
    SumOverAtMost(m1, f1, m, f);
  }

  lemma {:induction false} SumOverAtMost<K(!new), U(!new), V(!new)>(
      m: map<K, U>, f: U -> int, m1: map<K, V>, f1: V -> int)
    requires m.Keys == m1.Keys
    requires forall k <- m :: f(m[k]) <= f1(m1[k])
    ensures SumOver(m, f) <= SumOver(m1, f1)
    decreases |m|
  {
    if m == map[] {
      assert m1 == map[];
    } else {
      var k :| k in m;
      SumOverRemove(m, k, f);
      SumOverRemove(m1, k, f1);
      SumOverAtMost(m - {k}, f, m1 - {k}, f1);
    }
  }

  /** A sum of non-negative parts is non-negative and at least each part. */
  lemma {:induction false} SumOverNonNegative<K(!new), V(!new)>(m: map<K, V>, f: V -> int)
    requires forall k <- m :: f(m[k]) >= 0
    ensures SumOver(m, f) >= 0
    ensures forall k <- m :: f(m[k]) <= SumOver(m, f)
    decreases |m|
  {
    forall k | k in m
      ensures 0 <= f(m[k]) <= SumOver(m, f)
    {
      SumOverRemove(m, k, f);
      SumOverNonNegative(m - {k}, f);
    }
    if m != map[] {
      var k :| k in m;
    }
  }

  /** The part of m whose keys are not still to be visited. */
  ghost function Done<K(!new), V(!new)>(m: map<K, V>, todo: set<K>): map<K, V> {
    m - todo
  }

  /** Visiting one more key adds its part; what is still to be visited cannot make a sum smaller. */
  lemma DoneStep<K(!new), V(!new)>(m: map<K, V>, todo: set<K>, k: K, f: V -> int)
    requires k in todo && k in m
    ensures SumOver(Done(m, todo - {k}), f) == SumOver(Done(m, todo), f) + f(m[k])
  {
    assert Done(m, todo - {k}) == Done(m, todo)[k := m[k]];
    SumOverUpdate(Done(m, todo), k, m[k], f);
  }

  lemma {:induction false} DoneAtMost<K(!new), V(!new)>(m: map<K, V>, todo: set<K>, f: V -> int)
    requires todo <= m.Keys
    requires forall k <- m :: f(m[k]) >= 0
    ensures SumOver(Done(m, todo), f) <= SumOver(m, f)
    decreases todo
  {
    if todo == {} {
      assert Done(m, todo) == m;
    } else {
      var k :| k in todo;
      DoneStep(m, todo, k, f);
      DoneAtMost(m, todo - {k}, f);
    }
  }

  /** The sum over the keys visited so far. */
  ghost function Sum<K(!new), V(!new)>(m: map<K, V>, todo: set<K>, f: V -> int): int { SumOver(Done(m, todo), f) }

  lemma NothingSummed<K(!new), V(!new)>(m: map<K, V>, f: V -> int)
    ensures Sum(m, m.Keys, f) == 0 && Sum(m, {}, f) == SumOver(m, f)
  {
    assert Done(m, m.Keys) == map[] && Done(m, {}) == m;
  }

  lemma OneEntry<K(!new), V(!new)>(k: K, v: V, f: V -> int)
    ensures SumOver(map[k := v], f) == f(v)
  {
    SumOverUpdate(map[], k, v, f);
    assert map[][k := v] == map[k := v];
  }
}
