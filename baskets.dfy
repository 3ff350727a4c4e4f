/**
 * Operations on score baskets shared by every engine: trimming a basket to
 * its best entries (keepTop), the L1 distance used as convergence test
 * (norm1) and the Jaccard index of two key sets (jaccard).
 */
module Baskets {
  import opened Common

  // ---------------------------------------------------------------------
  // keepTop
  // ---------------------------------------------------------------------

  /** r is m restricted to some of its keys, with the same weights. */
  ghost predicate SubBasket<K>(r: Basket<K>, m: Basket<K>)
  {
    r.Keys <= m.Keys && forall k :: k in r ==> r[k] == m[k]
  }

  /** Every kept weight is at least every dropped weight. */
  ghost predicate KeptDominate<K>(r: Basket<K>, m: Basket<K>)
  {
    forall k, j :: k in r && j in m && j !in r ==> r[k] >= m[j]
  }

  /**
   * r holds the n best-scoring entries of m: min(n, |m|) entries of m with
   * their weights, none of them worse than any entry left out. Ties at the
   * border may be broken either way.
   */
  ghost predicate IsTopOf<K>(n: nat, m: Basket<K>, r: Basket<K>)
  {
    && SubBasket(r, m)
    && |r| == (if |m| < n then |m| else n)
    && KeptDominate(r, m)
  }

  /** No two distinct keys carry the same weight. */
  ghost predicate TieFree<K>(m: Basket<K>)
  {
    forall a, b :: a in m && b in m && a != b ==> m[a] != m[b]
  }

  /** A non-empty basket has an entry of least weight. */
  lemma {:induction false} MinKeyExists<K>(m: Basket<K>)
    requires |m| > 0
    ensures exists k :: k in m && forall j :: j in m ==> m[k] <= m[j]
    decreases |m|
  {
    var x :| x in m;
    var rest := m - {x};
    if |rest| == 0 {
      assert rest.Keys == {};
      assert m.Keys == rest.Keys + {x};
    } else {
      MinKeyExists(rest);
      var k :| k in rest && forall j :: j in rest ==> rest[k] <= rest[j];
      if m[x] < m[k] {
        assert forall j :: j in m ==> m[x] <= m[j] by {
          forall j | j in m ensures m[x] <= m[j] {
            if j != x { assert j in rest; }
          }
        }
      } else {
        assert forall j :: j in m ==> m[k] <= m[j] by {
          forall j | j in m ensures m[k] <= m[j] {
            if j != x { assert j in rest; }
          }
        }
      }
    }
  }

  /**
   * Keeps the top-n entries of m. When m has no more than n entries it is
   * returned unchanged; otherwise entries of least weight are dropped one
   * at a time until n remain.
   */
  method KeepTop<K>(n: nat, m: Basket<K>) returns (r: Basket<K>)
    ensures IsTopOf(n, m, r)
    ensures |m| <= n ==> r == m
  {
    r := m;
    while |r| > n
      invariant SubBasket(r, m)
      invariant |r| >= n || r == m
      invariant |m| <= n ==> r == m
      invariant KeptDominate(r, m)
      decreases |r|
    {
      MinKeyExists(r);
      var k :| k in r && forall j :: j in r ==> r[k] <= r[j];
      r := r - {k};
    }
  }

  /** Sets of the same size, one inside the other, are equal. */
  lemma SubsetSameSize<K>(a: set<K>, b: set<K>)
    requires a <= b && |a| == |b|
    ensures a == b
  {
    assert |b - a| == |b| - |a|;
    assert b == a + (b - a);
  }

  lemma SubsetSize<K>(a: set<K>, b: set<K>)
    requires a <= b
    ensures |a| <= |b|
  {
    assert b == a + (b - a);
  }

  /** Without ties at the border the top-n entries are unique. */
  lemma TopOfUnique<K>(n: nat, m: Basket<K>, r1: Basket<K>, r2: Basket<K>)
    requires TieFree(m)
    requires IsTopOf(n, m, r1) && IsTopOf(n, m, r2)
    ensures r1 == r2
  {
    if r1.Keys != r2.Keys {
      if r1.Keys <= r2.Keys {
        SubsetSameSize(r1.Keys, r2.Keys);
      } else if r2.Keys <= r1.Keys {
        SubsetSameSize(r2.Keys, r1.Keys);
      } else {
      }
    }
    assert r1.Keys == r2.Keys;
  }

  /** A basket with at most n entries is its own top n. */
  lemma TopOfSmall<K>(n: nat, m: Basket<K>, r: Basket<K>)
    requires |m| <= n && IsTopOf(n, m, r)
    ensures r == m
  {
    SubsetSameSize(r.Keys, m.Keys);
  }

  /** Trimming twice with the same bound changes nothing the second time. */
  lemma TopOfIdempotent<K>(n: nat, m: Basket<K>, r: Basket<K>)
    requires IsTopOf(n, m, r)
    ensures IsTopOf(n, r, r)
  {
  }

  /** Trimming to a smaller bound after a larger one is trimming once. */
  lemma TopOfCompose<K>(n1: nat, n2: nat, m: Basket<K>, r1: Basket<K>, r2: Basket<K>)
    requires n2 <= n1
    requires IsTopOf(n1, m, r1) && IsTopOf(n2, r1, r2)
    ensures IsTopOf(n2, m, r2)
  {
    forall k, j | k in r2 && j in m && j !in r2
      ensures r2[k] >= m[j]
    {
      if j in r1 {
        assert r2[k] >= r1[j];
      } else {
        assert r1[k] >= m[j];
      }
    }
  }

  // ---------------------------------------------------------------------
  // norm1
  // ---------------------------------------------------------------------

  /** |m1[k] - m2[k]|, absent entries reading 0. */
  function AbsDiff<K>(m1: Basket<K>, m2: Basket<K>, k: K): real
  {
    Abs(Get(m1, k) - Get(m2, k))
  }

  /** AbsDiff as a function of the key, for sums over sets. */
  function AbsDiffAt<K>(m1: Basket<K>, m2: Basket<K>): K -> real
  {
    k => AbsDiff(m1, m2, k)
  }

  /** The weight of k in m2 when m1 lacks k, 0 otherwise. */
  function MissingWeightAt<K>(m1: Basket<K>, m2: Basket<K>): K -> real
  {
    k => if k in m1 then 0.0 else Get(m2, k)
  }

  /**
   * The value the library computes as norm1(m1, m2): the absolute
   * differences over the keys of m1, plus, over the keys of m2, the raw
   * weight of each key m1 lacks.
   */
  ghost function Norm1Spec<K>(m1: Basket<K>, m2: Basket<K>): real
  {
    SumAbsDiff(m1, m2, m1.Keys) + SumMissingWeight(m1, m2, m2.Keys)
  }

  /** The sum of |m1[k] - m2[k]| over ks. */
  ghost function SumAbsDiff<K>(m1: Basket<K>, m2: Basket<K>, ks: set<K>): real
    decreases |ks|
  {
    if ks == {} then 0.0
    else
      var k :| k in ks;
      AbsDiff(m1, m2, k) + SumAbsDiff(m1, m2, ks - {k})
  }

  /** The sum over ks of the weight in m2 of each key m1 lacks. */
  ghost function SumMissingWeight<K>(m1: Basket<K>, m2: Basket<K>, ks: set<K>): real
    decreases |ks|
  {
    if ks == {} then 0.0
    else
      var k :| k in ks;
      (if k in m1 then 0.0 else Get(m2, k)) + SumMissingWeight(m1, m2, ks - {k})
  }

  lemma {:induction false} SumAbsDiffIsSum<K>(m1: Basket<K>, m2: Basket<K>, ks: set<K>)
    ensures SumAbsDiff(m1, m2, ks) == SumSet(ks, AbsDiffAt(m1, m2))
    decreases |ks|
  {
    if ks != {} {
      var k :| k in ks && SumAbsDiff(m1, m2, ks)
                          == AbsDiff(m1, m2, k) + SumAbsDiff(m1, m2, ks - {k});
      SumAbsDiffIsSum(m1, m2, ks - {k});
      SumSetRemove(ks, k, AbsDiffAt(m1, m2));
    }
  }

  lemma {:induction false} SumMissingWeightIsSum<K>(m1: Basket<K>, m2: Basket<K>, ks: set<K>)
    ensures SumMissingWeight(m1, m2, ks) == SumSet(ks, MissingWeightAt(m1, m2))
    decreases |ks|
  {
    if ks != {} {
      var k :| k in ks && SumMissingWeight(m1, m2, ks)
                          == (if k in m1 then 0.0 else Get(m2, k)) + SumMissingWeight(m1, m2, ks - {k});
      SumMissingWeightIsSum(m1, m2, ks - {k});
      SumSetRemove(ks, k, MissingWeightAt(m1, m2));
    }
  }

  /** norm1 as the two sums over sets its passes compute. */
  lemma Norm1AsSums<K>(m1: Basket<K>, m2: Basket<K>)
    ensures Norm1Spec(m1, m2)
            == SumSet(m1.Keys, AbsDiffAt(m1, m2)) + SumSet(m2.Keys, MissingWeightAt(m1, m2))
  {
    SumAbsDiffIsSum(m1, m2, m1.Keys);
    SumMissingWeightIsSum(m1, m2, m2.Keys);
  }

  /** The L1 distance of two baskets seen as vectors with 0 for absent keys. */
  ghost function L1Distance<K>(m1: Basket<K>, m2: Basket<K>): real
  {
    SumSet(m1.Keys + m2.Keys, AbsDiffAt(m1, m2))
  }

  /** norm1: the pass over m1 plus the pass over m2. */
  method Norm1<K>(m1: Basket<K>, m2: Basket<K>) returns (res: real)
    ensures res == Norm1Spec(m1, m2)
  {
    var shared := SumDifferences(m1, m2);
    var missing := SumMissing(m1, m2);
    res := shared + missing;
    Norm1AsSums(m1, m2);
  }

  /** First pass of norm1: |m1[k] - m2[k]| summed over the keys of m1. */
  method SumDifferences<K>(m1: Basket<K>, m2: Basket<K>) returns (res: real)
    ensures res == SumSet(m1.Keys, AbsDiffAt(m1, m2))
  {
    ghost var f := AbsDiffAt(m1, m2);
    res := 0.0;
    var rest := m1.Keys;
    while rest != {}
      invariant rest <= m1.Keys
      invariant res + SumSet(rest, f) == SumSet(m1.Keys, f)
      decreases |rest|
    {
      var k :| k in rest;
      var other := if k in m2 then m2[k] else 0.0;
      assert f(k) == Abs(m1[k] - other);
      SumSetRemove(rest, k, f);
      res := res + Abs(m1[k] - other);
      rest := rest - {k};
    }
  }

  /** Second pass of norm1: the weights of the keys of m2 absent from m1. */
  method SumMissing<K>(m1: Basket<K>, m2: Basket<K>) returns (res: real)
    ensures res == SumSet(m2.Keys, MissingWeightAt(m1, m2))
  {
    ghost var w := MissingWeightAt(m1, m2);
    res := 0.0;
    var rest := m2.Keys;
    while rest != {}
      invariant rest <= m2.Keys
      invariant res + SumSet(rest, w) == SumSet(m2.Keys, w)
      decreases |rest|
    {
      var k :| k in rest;
      var add := if k !in m1 then m2[k] else 0.0;
      assert w(k) == add;
      SumSetRemove(rest, k, w);
      res := res + add;
      rest := rest - {k};
    }
  }

  /** A basket is at distance 0 from itself. */
  lemma Norm1Self<K>(m: Basket<K>)
    ensures Norm1Spec(m, m) == 0.0
  {
    Norm1AsSums(m, m);
    SumSetZero(m.Keys, AbsDiffAt(m, m));
    SumSetZero(m.Keys, MissingWeightAt(m, m));
  }

  /** With non-negative weights the second sum of norm1 is the distance outside m1's keys. */
  lemma MissingWeightOutside<K>(m1: Basket<K>, m2: Basket<K>)
    requires NonNegative(m2)
    ensures SumSet(m2.Keys, MissingWeightAt(m1, m2)) == SumSet(m2.Keys - m1.Keys, AbsDiffAt(m1, m2))
  {
    var only2 := m2.Keys - m1.Keys;
    var both := m2.Keys * m1.Keys;
    var miss := MissingWeightAt(m1, m2);
    assert m2.Keys == only2 + both;
    SumSetUnion(only2, both, miss);
    SumSetZero(both, miss);
    SumSetCongruence(only2, miss, AbsDiffAt(m1, m2));
  }

  lemma Norm1IsL1<K>(m1: Basket<K>, m2: Basket<K>)
    requires NonNegative(m2)
    ensures Norm1Spec(m1, m2) == L1Distance(m1, m2)
    ensures Norm1Spec(m1, m2) >= 0.0
  {
    Norm1AsSums(m1, m2);
    var only2 := m2.Keys - m1.Keys;
    MissingWeightOutside(m1, m2);
    assert m1.Keys + m2.Keys == m1.Keys + only2;
    SumSetUnion(m1.Keys, only2, AbsDiffAt(m1, m2));
    SumSetNonNegative(m1.Keys + m2.Keys, AbsDiffAt(m1, m2));
  }

  lemma Norm1Symmetric<K>(m1: Basket<K>, m2: Basket<K>)
    requires NonNegative(m1) && NonNegative(m2)
    ensures Norm1Spec(m1, m2) == Norm1Spec(m2, m1)
  {
    Norm1IsL1(m1, m2);
    Norm1IsL1(m2, m1);
    assert m1.Keys + m2.Keys == m2.Keys + m1.Keys;
    SumSetCongruence(m1.Keys + m2.Keys, AbsDiffAt(m1, m2), AbsDiffAt(m2, m1));
  }

  /** A sum of non-negative terms one of which is positive is positive. */
  lemma SumSetPositive<K>(s: set<K>, x: K, f: K -> real)
    requires x in s && f(x) > 0.0
    requires forall y :: y in s ==> f(y) >= 0.0
    ensures SumSet(s, f) > 0.0
  {
    SumSetRemove(s, x, f);
    SumSetNonNegative(s - {x}, f);
  }

  /**
   * norm1 vanishes exactly on baskets that agree on every key (reading
   * absent keys as 0), for non-negative weights.
   */
  lemma Norm1ZeroIff<K>(m1: Basket<K>, m2: Basket<K>)
    requires NonNegative(m2)
    ensures Norm1Spec(m1, m2) == 0.0 <==> forall k :: Get(m1, k) == Get(m2, k)
  {
    Norm1IsL1(m1, m2);
    var f := AbsDiffAt(m1, m2);
    if forall k :: Get(m1, k) == Get(m2, k) {
      SumSetZero(m1.Keys + m2.Keys, f);
    } else {
      var k :| Get(m1, k) != Get(m2, k);
      assert k in m1.Keys + m2.Keys;
      assert f(k) > 0.0;
      forall y | y in m1.Keys + m2.Keys ensures f(y) >= 0.0 { }
      SumSetPositive(m1.Keys + m2.Keys, k, f);
    }
  }

  /**
   * With a negative weight the two passes are not symmetric: the second
   * pass adds raw weights, not their absolute values.
   */
  lemma Norm1NegativeWeight<K>(x: K)
    ensures Norm1Spec(map[], map[x := -1.0]) == -1.0
    ensures Norm1Spec(map[x := -1.0], map[]) == 1.0
  {
    var e: Basket<K> := map[];
    var m := map[x := -1.0];
    Norm1AsSums(e, m);
    Norm1AsSums(m, e);
    assert e.Keys == {};
    assert m.Keys == {x};
    SumSetSingleton(x, MissingWeightAt(e, m));
    SumSetSingleton(x, AbsDiffAt(m, e));
  }

  // ---------------------------------------------------------------------
  // jaccard
  // ---------------------------------------------------------------------

  /** The Jaccard index |A ∩ B| / |A ∪ B|, 1 for two empty sets. */
  ghost function JaccardSpec<K>(a: set<K>, b: set<K>): real
  {
    if a + b == {} then 1.0 else (|a * b| as real) / (|a + b| as real)
  }

  /**
   * jaccard: counts the elements of the first set found in the second and
   * divides by |A| + |B| - |A ∩ B|.
   */
  method Jaccard<K>(a: set<K>, b: set<K>) returns (r: real)
    ensures r == JaccardSpec(a, b)
  {
    if a == {} && b == {} {
      return 1.0;
    }
    var inter: nat := 0;
    var rest := a;
    while rest != {}
      invariant rest <= a
      invariant inter == |(a - rest) * b|
      decreases |rest|
    {
      var k :| k in rest;
      if k in b {
        assert (a - (rest - {k})) * b == ((a - rest) * b) + {k};
        inter := inter + 1;
      } else {
        assert (a - (rest - {k})) * b == (a - rest) * b;
      }
      rest := rest - {k};
    }
    assert a - rest == a;
    assert a + b != {} by {
      if a != {} { var x :| x in a; assert x in a + b; }
      else { var x :| x in b; assert x in a + b; }
    }
    r := (inter as real) / ((|a| + |b| - inter) as real);
  }

  /** A ratio of a non-negative number to a larger positive one. */
  lemma RatioBounds(i: real, u: real)
    requires 0.0 <= i <= u && u > 0.0
    ensures 0.0 <= i / u <= 1.0
    ensures i / u == 1.0 <==> i == u
  {
    assert (i / u) * u == i;
  }

  /** The index lies in [0, 1] and equals 1 exactly for equal sets. */
  lemma JaccardRange<K>(a: set<K>, b: set<K>)
    ensures 0.0 <= JaccardSpec(a, b) <= 1.0
    ensures JaccardSpec(a, b) == 1.0 <==> a == b
  {
    if a + b != {} {
      SubsetSize(a * b, a + b);
      RatioBounds(|a * b| as real, |a + b| as real);
      if a * b == a + b {
        assert a == b by {
          forall x | x in a + b ensures x in a && x in b {
            assert x in a * b;
          }
        }
      }
      if |a * b| == |a + b| {
        SubsetSameSize(a * b, a + b);
      }
    }
  }

  lemma JaccardSymmetric<K>(a: set<K>, b: set<K>)
    ensures JaccardSpec(a, b) == JaccardSpec(b, a)
  {
    assert a + b == b + a;
    assert a * b == b * a;
  }

  /** Disjoint sets, not both empty, have index 0. */
  lemma JaccardDisjoint<K>(a: set<K>, b: set<K>)
    requires a !! b && a + b != {}
    ensures JaccardSpec(a, b) == 0.0
  {
    assert a * b == {};
  }
}
