/** Sums over the entries of a map, independent of the order in which it is ranged over. */
module MapSums {

  /**
   * Sums kept side by side: for storage reads, writes, KB read and KB written, latency
   * weighted by operations, and those operations; for a cluster operations, KB, MHz,
   * bytes of memory and network. The flags say what was reported at all.
   */
  datatype Vec = Vec(
    a: real, b: real, c: real, d: real, e: real := 0.0, f: real := 0.0, p: bool := false, q: bool := false, r: bool := false)
  {
    function Plus(v: Vec): Vec {
      Vec(a + v.a, b + v.b, c + v.c, d + v.d, e + v.e, f + v.f, p || v.p, q || v.q, r || v.r)
    }

    /** The first four with a weight, as the store keeps them; it keeps no sum of the others. */
    function Times(n: nat): Vec {
      Vec(a * n as real, b * n as real, c * n as real, d * n as real)
    }
  }

  const NONE := Vec(0.0, 0.0, 0.0, 0.0)

  lemma PlusLaws(x: Vec, y: Vec, z: Vec)
    ensures x.Plus(y).Plus(z) == x.Plus(y.Plus(z))
    ensures x.Plus(y) == y.Plus(x)
    ensures x.Plus(NONE) == x
  {
  }

  lemma TimesPlus(x: Vec, y: Vec, n: nat)
    ensures x.Times(n).Plus(y.Times(n)) == x.Plus(y).Times(n)
    ensures NONE.Times(n) == NONE
  {
  }

  ghost function SumOver<K(!new), V(!new)>(m: map<K, V>, f: (K, V) -> Vec): Vec
    decreases |m|
  {
    if m == map[] then NONE
    else
      var k :| k in m;
      f(k, m[k]).Plus(SumOver(m - {k}, f))
  }

  /** Any key can be taken out first. */
  lemma {:induction false} SumRemove<K(!new), V(!new)>(m: map<K, V>, f: (K, V) -> Vec, k: K)
    requires k in m
    ensures SumOver(m, f) == f(k, m[k]).Plus(SumOver(m - {k}, f))
    decreases |m|
  {
    var j :| j in m && SumOver(m, f) == f(j, m[j]).Plus(SumOver(m - {j}, f));
    if j != k {
      SumRemove(m - {j}, f, k);
      SumRemove(m - {k}, f, j);
      assert m - {j} - {k} == m - {k} - {j};
      var rest := SumOver(m - {j} - {k}, f);
      PlusLaws(f(j, m[j]), f(k, m[k]), rest);
      PlusLaws(f(k, m[k]), f(j, m[j]), rest);
    }
  }

  /** Raising one entry raises the sum; a missing entry counts as nothing. */
  lemma SumRaise<K(!new), V(!new)>(m: map<K, V>, f: (K, V) -> Vec, k: K, v: V, more: Vec)
    requires f(k, v) == (if k in m then f(k, m[k]) else NONE).Plus(more)
    ensures SumOver(m[k := v], f) == SumOver(m, f).Plus(more)
  {
    var n := m[k := v];
    SumRemove(n, f, k);
    var rest := SumOver(n - {k}, f);
    if k in m {
      SumRemove(m, f, k);
      assert n - {k} == m - {k};
      PlusLaws(f(k, m[k]), more, rest);
      PlusLaws(f(k, m[k]), rest, more);
      PlusLaws(more, rest, NONE);
    } else {
      assert n - {k} == m;
      PlusLaws(NONE, more, rest);
      PlusLaws(more, NONE, rest);
    }
  }

  lemma {:induction false} SumOfNothing<K(!new), V(!new)>(m: map<K, V>, f: (K, V) -> Vec)
    requires forall j :: j in m ==> f(j, m[j]) == NONE
    ensures SumOver(m, f) == NONE
    decreases |m|
  {
    if m != map[] {
      var j :| j in m;
      SumRemove(m, f, j);
      SumOfNothing(m - {j}, f);
    }
  }

  /** A sum in which at most one entry counts. */
  lemma SumOnly<K(!new), V(!new)>(m: map<K, V>, f: (K, V) -> Vec, k: K)
    requires forall j :: j in m && j != k ==> f(j, m[j]) == NONE
    ensures SumOver(m, f) == if k in m then f(k, m[k]) else NONE
  {
    hide Vec.Plus;
    if k in m {
      SumRemove(m, f, k);
      SumOfNothing(m - {k}, f);
      PlusLaws(f(k, m[k]), NONE, NONE);
    } else {
      SumOfNothing(m, f);
    }
  }

  lemma {:induction false} SumSame<K(!new), V(!new)>(m: map<K, V>, f: (K, V) -> Vec, g: (K, V) -> Vec)
    requires forall k :: k in m ==> f(k, m[k]) == g(k, m[k])
    ensures SumOver(m, f) == SumOver(m, g)
    decreases |m|
  {
    if m != map[] {
      var k :| k in m;
      SumRemove(m, f, k);
      SumRemove(m, g, k);
      SumSame(m - {k}, f, g);
    }
  }

  // ------------------------------------------------------------- a map of numbers

  ghost function Alone<K>(): (K, real) -> Vec {
    (k: K, x: real) => Vec(x, 0.0, 0.0, 0.0)
  }

  ghost function SumMap<K(!new)>(m: map<K, real>): real {
    SumOver(m, Alone()).a
  }

  lemma SumMapUpdate<K(!new)>(m: map<K, real>, k: K, v: real)
    ensures SumMap(m[k := v]) == SumMap(m) - (if k in m then m[k] else 0.0) + v
  {
    SumRaise(m, Alone(), k, v, Vec(v - if k in m then m[k] else 0.0, 0.0, 0.0, 0.0));
  }
}
