/**
 * Ranking the way the source's library calls do it: numpy's `argsort` (reversed), Counter's
 * `most_common(k)` and SQL `ORDER BY ... LIMIT k`. All three give the k best elements in
 * non-increasing order, and none of them promises an order among equal elements, so the
 * selection below picks among ties nondeterministically and its contract says only what holds
 * for every tie order.
 */
module Ranking {
  import opened Wrappers

  /** `geq(a, b)`: a ranks at least as high as b. A ranking must be total and transitive. */
  ghost predicate TotalPreorder<T(!new)>(geq: (T, T) -> bool)
  {
    && (forall a, b :: geq(a, b) || geq(b, a))
    && (forall a, b, c :: geq(a, b) && geq(b, c) ==> geq(a, c))
  }

  /** `top` is the best `min(k, |pool|)` elements of `pool`, listed in non-increasing rank. */
  ghost predicate IsTop<T>(top: seq<T>, pool: set<T>, geq: (T, T) -> bool, k: nat)
  {
    && |top| == Min(k, |pool|)
    && Distinct(top)
    && (forall i :: 0 <= i < |top| ==> top[i] in pool)
    && (forall i, j :: 0 <= i < j < |top| ==> geq(top[i], top[j]))
    && (forall i, x :: 0 <= i < |top| && x in pool && x !in top ==> geq(top[i], x))
  }

  /** Picks a best element of a non-empty set. */
  method PickBest<T(!new)>(pool: set<T>, geq: (T, T) -> bool) returns (best: T)
    requires TotalPreorder(geq)
    requires pool != {}
    ensures best in pool
    ensures forall x :: x in pool ==> geq(best, x)
  {
    best :| best in pool;
    var rest := pool - {best};
    while rest != {}
      invariant rest <= pool && best in pool && best !in rest
      invariant forall x :: x in pool && x !in rest ==> geq(best, x)
      decreases rest
    {
      var x :| x in rest;
      if !geq(best, x) {
        best := x;
      }
      rest := rest - {x};
    }
  }

  /** Repeatedly moves a best remaining element to the end of the result. */
  method SelectTop<T(!new)>(pool: set<T>, geq: (T, T) -> bool, k: nat) returns (top: seq<T>)
    requires TotalPreorder(geq)
    ensures IsTop(top, pool, geq, k)
  {
    top := [];
    var remaining := pool;
    while |top| < k && remaining != {}
      invariant remaining <= pool
      invariant |remaining| + |top| == |pool|
      invariant |top| <= k
      invariant Distinct(top)
      invariant forall i :: 0 <= i < |top| ==> top[i] in pool && top[i] !in remaining
      invariant forall x :: x in pool ==> x in remaining || x in top
      invariant forall i, j :: 0 <= i < j < |top| ==> geq(top[i], top[j])
      invariant forall i, x :: 0 <= i < |top| && x in remaining ==> geq(top[i], x)
      decreases remaining
    {
      var best := PickBest(remaining, geq);
      top := top + [best];
      remaining := remaining - {best};
    }
  }

  /** The first m of a top-k list (m <= k) are a top-m list: `LIMIT 2n` followed by `[:n]`. */
  lemma {:induction false} TopPrefix<T>(top: seq<T>, pool: set<T>, geq: (T, T) -> bool, k: nat, m: nat)
    requires IsTop(top, pool, geq, k)
    requires m <= k
    ensures IsTop(top[..Min(m, |top|)], pool, geq, m)
  {
    var p := top[..Min(m, |top|)];
    forall i, x | 0 <= i < |p| && x in pool && x !in p
      ensures geq(p[i], x)
    {
      if x in top {
        var j :| 0 <= j < |top| && top[j] == x;
        assert j >= |p|;
      }
    }
  }

  /** A duplicate-free list has as many distinct elements as entries. */
  lemma {:induction false} DistinctElements<T>(s: seq<T>)
    requires Distinct(s)
    ensures |set x | x in s| == |s|
  {
    if s != [] {
      var init := s[..|s| - 1];
      assert Distinct(init) by {
        forall i, j | 0 <= i < j < |init| ensures init[i] != init[j] {
          assert init[i] == s[i] && init[j] == s[j];
        }
      }
      DistinctElements(init);
      assert s == init + [s[|s| - 1]];
      assert (set x | x in s) == (set x | x in init) + {s[|s| - 1]};
      assert s[|s| - 1] !in init;
    }
  }

  /** When k is at least the pool size, a top-k list holds every element of the pool. */
  lemma TopCoversPool<T>(top: seq<T>, pool: set<T>, geq: (T, T) -> bool, k: nat)
    requires IsTop(top, pool, geq, k)
    requires |pool| <= k
    ensures forall x :: x in pool ==> x in top
  {
    DistinctElements(top);
    var elems := set x | x in top;
    assert elems <= pool;
    SameSizeSubset(elems, pool);
  }

  /** A subset as large as its superset is all of it. */
  lemma SameSizeSubset<T>(a: set<T>, b: set<T>)
    requires a <= b && |a| == |b|
    ensures b <= a
  {
    assert b == a + (b - a);
    assert |b - a| == 0;
  }
}
