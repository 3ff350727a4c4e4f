/**
 * Kendall's tau-b between two score vectors (kendallCorrelation): the
 * pairs (x[i], y[i]) are sorted by x then y, ties in x and in (x, y) are
 * counted by run length, a bottom-up merge sort by y counts the discordant
 * pairs, ties in y are counted by run length over the y-sorted pairs, and
 * the correlation is returned as numerator and squared denominator.
 */
module Kendall {

  datatype Pair = Pair(x: real, y: real)

  // ---------------------------------------------------------------------
  // Sums over sequences
  // ---------------------------------------------------------------------

  /** The sum of f over the elements of s, taken from the right. */
  ghost function SumOver<T>(s: seq<T>, f: T -> int): int
    decreases |s|
  {
    if s == [] then 0 else SumOver(s[..|s| - 1], f) + f(s[|s| - 1])
  }

  lemma {:induction false} SumOverAppend<T>(a: seq<T>, b: seq<T>, f: T -> int)
    ensures SumOver(a + b, f) == SumOver(a, f) + SumOver(b, f)
    decreases |b|
  {
    if b == [] {
      assert a + b == a;
    } else {
      var b' := b[..|b| - 1];
      assert (a + b)[..|a + b| - 1] == a + b';
      assert (a + b)[|a + b| - 1] == b[|b| - 1];
      SumOverAppend(a, b', f);
    }
  }

  /** The sum does not depend on the order of the elements. */
  lemma {:induction false} SumOverPermutation<T>(a: seq<T>, b: seq<T>, f: T -> int)
    requires multiset(a) == multiset(b)
    ensures SumOver(a, f) == SumOver(b, f)
    decreases |a|
  {
    if a != [] {
      var a', v := a[..|a| - 1], a[|a| - 1];
      assert a == a' + [v];
      assert v in multiset(b);
      var k :| 0 <= k < |b| && b[k] == v;
      var b' := b[..k] + b[k + 1..];
      assert b == b[..k] + [v] + b[k + 1..];
      assert multiset(b) == multiset(b[..k]) + multiset{v} + multiset(b[k + 1..]);
      assert multiset(a) == multiset(a') + multiset{v};
      assert multiset(b') == multiset(b[..k]) + multiset(b[k + 1..]);
      assert multiset(a') == multiset(a) - multiset{v};
      assert multiset(b') == multiset(b) - multiset{v};
      SumOverPermutation(a', b', f);
      SumOverAppend(b[..k] + [v], b[k + 1..], f);
      SumOverAppend(b[..k], [v], f);
      SumOverAppend(b[..k], b[k + 1..], f);
      assert SumOver([v], f) == f(v) by {
        assert [v][..0] == [];
      }
    }
  }

  /** Sums of two functions that agree on the elements are equal. */
  lemma {:induction false} SumOverCongruence<T>(s: seq<T>, f: T -> int, h: T -> int)
    requires forall i :: 0 <= i < |s| ==> f(s[i]) == h(s[i])
    ensures SumOver(s, f) == SumOver(s, h)
    decreases |s|
  {
    if s != [] {
      SumOverCongruence(s[..|s| - 1], f, h);
    }
  }

  /** Sums of a function bounded by another on the elements are bounded. */
  lemma {:induction false} SumOverMonotone<T>(s: seq<T>, f: T -> int, h: T -> int)
    requires forall i :: 0 <= i < |s| ==> f(s[i]) <= h(s[i])
    ensures SumOver(s, f) <= SumOver(s, h)
    decreases |s|
  {
    if s != [] {
      SumOverMonotone(s[..|s| - 1], f, h);
    }
  }

  /** A sum of zeros. */
  lemma {:induction false} SumOverZero<T>(s: seq<T>, f: T -> int)
    requires forall i :: 0 <= i < |s| ==> f(s[i]) == 0
    ensures SumOver(s, f) == 0
    decreases |s|
  {
    if s != [] {
      SumOverZero(s[..|s| - 1], f);
    }
  }

  /** A sum of ones is the length. */
  lemma {:induction false} SumOverOnes<T>(s: seq<T>, f: T -> int)
    requires forall i :: 0 <= i < |s| ==> f(s[i]) == 1
    ensures SumOver(s, f) == |s|
    decreases |s|
  {
    if s != [] {
      SumOverOnes(s[..|s| - 1], f);
    }
  }

  // ---------------------------------------------------------------------
  // Orders and the sort by (x, y)
  // ---------------------------------------------------------------------

  /** The order of the first sort: by x, then by y. */
  predicate LexLe(p: Pair, q: Pair)
  {
    p.x < q.x || (p.x == q.x && p.y <= q.y)
  }

  ghost predicate SortedXY(s: seq<Pair>)
  {
    forall i, j :: 0 <= i < j < |s| ==> LexLe(s[i], s[j])
  }

  ghost predicate SortedY(s: seq<Pair>)
  {
    forall i, j :: 0 <= i < j < |s| ==> s[i].y <= s[j].y
  }

  /** Inserts p into a sequence sorted by (x, y). */
  function InsertXY(p: Pair, s: seq<Pair>): (r: seq<Pair>)
    ensures multiset(r) == multiset(s) + multiset{p}
    ensures |r| == |s| + 1
  {
    if s == [] then [p]
    else if LexLe(p, s[0]) then [p] + s
    else
      assert s == [s[0]] + s[1..];
      [s[0]] + InsertXY(p, s[1..])
  }

  lemma {:induction false} InsertXYSorted(p: Pair, s: seq<Pair>)
    requires SortedXY(s)
    ensures SortedXY(InsertXY(p, s))
    decreases |s|
  {
    if s != [] && !LexLe(p, s[0]) {
      var rest := InsertXY(p, s[1..]);
      InsertXYSorted(p, s[1..]);
      forall e | e in rest ensures LexLe(s[0], e) {
        assert e in multiset(rest);
        if e != p {
          assert e in multiset(s[1..]);
          var k :| 0 <= k < |s[1..]| && s[1..][k] == e;
          assert s[k + 1] == e;
        }
      }
      var r := [s[0]] + rest;
      forall i, j | 0 <= i < j < |r| ensures LexLe(r[i], r[j]) {
        if i == 0 {
          assert r[j] in rest;
        } else {
          assert r[i] == rest[i - 1] && r[j] == rest[j - 1];
        }
      }
    }
  }

  /**
   * The pairs sorted by x, then y. The order is total and only equal pairs
   * are tied, so every sorting algorithm gives this sequence.
   */
  function SortXY(s: seq<Pair>): (r: seq<Pair>)
    ensures multiset(r) == multiset(s)
    ensures |r| == |s|
    ensures SortedXY(r)
  {
    if s == [] then []
    else
      assert s == [s[0]] + s[1..];
      InsertXYSorted(s[0], SortXY(s[1..]));
      InsertXY(s[0], SortXY(s[1..]))
  }

  /** Builds the pairs (x[i], y[i]) for every index of x. */
  method ZipPairs(x: seq<real>, y: seq<real>) returns (pairs: seq<Pair>)
    requires |x| <= |y|
    ensures pairs == Zip(x, y)
  {
    pairs := [];
    for i := 0 to |x|
      invariant |pairs| == i
      invariant forall k :: 0 <= k < i ==> pairs[k] == Pair(x[k], y[k])
    {
      pairs := pairs + [Pair(x[i], y[i])];
    }
  }

  // ---------------------------------------------------------------------
  // Counting index pairs
  // ---------------------------------------------------------------------

  datatype Tie = ByX | ByY | ByXY

  /** Two pairs are tied in x, in y, or in both. */
  predicate Tied(t: Tie, p: Pair, q: Pair)
  {
    match t
    case ByX => p.x == q.x
    case ByY => p.y == q.y
    case ByXY => p.x == q.x && p.y == q.y
  }

  /**
   * Relations between an earlier pair p and a later pair q: a tie, the two
   * orders agreeing or disagreeing strictly, and p lying above q in y (an
   * inversion of the order by y).
   */
  datatype Rel = Same(kind: Tie) | Concordant | Discordant | YAbove

  predicate Holds(rel: Rel, p: Pair, q: Pair)
  {
    match rel
    case Same(t) => Tied(t, p, q)
    case Concordant => (p.x < q.x && p.y < q.y) || (p.x > q.x && p.y > q.y)
    case Discordant => (p.x < q.x && p.y > q.y) || (p.x > q.x && p.y < q.y)
    case YAbove => p.y > q.y
  }

  /** 1 for an element standing in rel to the later element v, 0 otherwise. */
  function HoldsWith(rel: Rel, v: Pair): Pair -> int
  {
    u => if Holds(rel, u, v) then 1 else 0
  }

  /** The number of index pairs i < j with Holds(rel, s[i], s[j]). */
  ghost function Count(s: seq<Pair>, rel: Rel): int
    decreases |s|
  {
    if s == [] then 0
    else Count(s[..|s| - 1], rel) + SumOver(s[..|s| - 1], HoldsWith(rel, s[|s| - 1]))
  }

  /** The number of pairs (u, v) with u in a, v in b and Holds(rel, u, v). */
  ghost function Cross(a: seq<Pair>, b: seq<Pair>, rel: Rel): int
  {
    SumOver(b, CrossAt(a, rel))
  }

  ghost function CrossAt(a: seq<Pair>, rel: Rel): Pair -> int
  {
    v => SumOver(a, HoldsWith(rel, v))
  }

  /** Pairs within a concatenation: within each part, and across. */
  lemma {:induction false} CountAppend(a: seq<Pair>, b: seq<Pair>, rel: Rel)
    ensures Count(a + b, rel) == Count(a, rel) + Count(b, rel) + Cross(a, b, rel)
    decreases |b|
  {
    if b == [] {
      assert a + b == a;
    } else {
      var b', v := b[..|b| - 1], b[|b| - 1];
      CountAppend(a, b', rel);
      assert (a + b)[..|a + b| - 1] == a + b';
      assert (a + b)[|a + b| - 1] == v;
      SumOverAppend(a, b', HoldsWith(rel, v));
    }
  }

  lemma {:induction false} SumOverNonNegative<T>(s: seq<T>, f: T -> int)
    requires forall i :: 0 <= i < |s| ==> f(s[i]) >= 0
    ensures SumOver(s, f) >= 0
    decreases |s|
  {
    if s != [] {
      SumOverNonNegative(s[..|s| - 1], f);
    }
  }

  lemma {:induction false} CountNonNegative(s: seq<Pair>, rel: Rel)
    ensures Count(s, rel) >= 0
    decreases |s|
  {
    if s != [] {
      CountNonNegative(s[..|s| - 1], rel);
      SumOverNonNegative(s[..|s| - 1], HoldsWith(rel, s[|s| - 1]));
    }
  }

  /** Two relations that agree on every ordered index pair count the same. */
  lemma {:induction false} CountAgree(s: seq<Pair>, r1: Rel, r2: Rel)
    requires forall i, j :: 0 <= i < j < |s| ==> (Holds(r1, s[i], s[j]) <==> Holds(r2, s[i], s[j]))
    ensures Count(s, r1) == Count(s, r2)
    decreases |s|
  {
    if s != [] {
      var s', v := s[..|s| - 1], s[|s| - 1];
      CountAgree(s', r1, r2);
      SumOverCongruence(s', HoldsWith(r1, v), HoldsWith(r2, v));
    }
  }

  /** A relation implied by another on every ordered index pair counts at least as many. */
  lemma {:induction false} CountWeaker(s: seq<Pair>, r1: Rel, r2: Rel)
    requires forall i, j :: 0 <= i < j < |s| ==> Holds(r1, s[i], s[j]) ==> Holds(r2, s[i], s[j])
    ensures Count(s, r1) <= Count(s, r2)
    decreases |s|
  {
    if s != [] {
      var s', v := s[..|s| - 1], s[|s| - 1];
      CountWeaker(s', r1, r2);
      SumOverMonotone(s', HoldsWith(r1, v), HoldsWith(r2, v));
    }
  }

  /** A relation that holds for no ordered index pair counts 0. */
  lemma {:induction false} CountNone(s: seq<Pair>, rel: Rel)
    requires forall i, j :: 0 <= i < j < |s| ==> !Holds(rel, s[i], s[j])
    ensures Count(s, rel) == 0
    decreases |s|
  {
    if s != [] {
      var s', v := s[..|s| - 1], s[|s| - 1];
      CountNone(s', rel);
      SumOverZero(s', HoldsWith(rel, v));
    }
  }

  // ---------------------------------------------------------------------
  // Ties and their run-length count
  // ---------------------------------------------------------------------

  /** The order under which each kind of tie forms contiguous runs. */
  predicate KeyLe(t: Tie, p: Pair, q: Pair)
  {
    match t
    case ByX => p.x <= q.x
    case ByY => p.y <= q.y
    case ByXY => LexLe(p, q)
  }

  ghost predicate SortedBy(s: seq<Pair>, t: Tie)
  {
    forall i, j :: 0 <= i < j < |s| ==> KeyLe(t, s[i], s[j])
  }

  /** The number of positions i < k with s[i] tied to v. */
  function TiedCount(s: seq<Pair>, t: Tie, v: Pair, k: nat): nat
    requires k <= |s|
  {
    if k == 0 then 0 else TiedCount(s, t, v, k - 1) + (if Tied(t, s[k - 1], v) then 1 else 0)
  }

  /** The number of index pairs i < j < n with s[i] and s[j] tied. */
  function TiesIn(s: seq<Pair>, t: Tie, n: nat): nat
    requires n <= |s|
  {
    if n == 0 then 0 else TiesIn(s, t, n - 1) + TiedCount(s, t, s[n - 1], n - 1)
  }

  lemma {:induction false} TiedCountSum(s: seq<Pair>, t: Tie, v: Pair, k: nat)
    requires k <= |s|
    ensures TiedCount(s, t, v, k) == SumOver(s[..k], HoldsWith(Same(t), v))
    decreases k
  {
    if k > 0 {
      TiedCountSum(s, t, v, k - 1);
      assert s[..k][..k - 1] == s[..k - 1];
    }
  }

  /** The index-based tie count agrees with the pair count. */
  lemma {:induction false} TiesCount(s: seq<Pair>, t: Tie, n: nat)
    requires n <= |s|
    ensures TiesIn(s, t, n) == Count(s[..n], Same(t))
    decreases n
  {
    if n > 0 {
      TiesCount(s, t, n - 1);
      TiedCountSum(s, t, s[n - 1], n - 1);
      assert s[..n][..n - 1] == s[..n - 1];
    }
  }

  lemma TiesAll(s: seq<Pair>, t: Tie)
    ensures TiesIn(s, t, |s|) == Count(s, Same(t))
  {
    TiesCount(s, t, |s|);
    assert s[..|s|] == s;
  }

  /**
   * The r positions before i are tied with s[i - 1], and (when there is
   * one) the position before them is not: the run ending at i - 1 has
   * length r.
   */
  ghost predicate RunEndsAt(s: seq<Pair>, t: Tie, i: nat, r: nat)
  {
    && 1 <= r <= i <= |s|
    && (forall k :: i - r <= k < i ==> Tied(t, s[k], s[i - 1]))
    && (r < i ==> !Tied(t, s[i - r - 1], s[i - 1]))
  }

  lemma SortedXYSortedBy(s: seq<Pair>)
    requires SortedXY(s)
    ensures SortedBy(s, ByX) && SortedBy(s, ByXY)
  {
  }

  /**
   * In a sorted sequence, s[i] is tied with the whole run ending at i - 1
   * when it is tied with s[i - 1], and with nothing before i otherwise.
   */
  lemma {:induction false} RunTiedCount(s: seq<Pair>, t: Tie, i: nat, r: nat, k: nat)
    requires SortedBy(s, t) && i < |s| && RunEndsAt(s, t, i, r) && k <= i
    ensures TiedCount(s, t, s[i], k)
            == (if Tied(t, s[i - 1], s[i]) && k > i - r then k - (i - r) else 0)
    decreases k
  {
    if k > 0 {
      RunTiedCount(s, t, i, r, k - 1);
      assert KeyLe(t, s[i - 1], s[i]);
      if k - 1 < i - r {
        assert KeyLe(t, s[k - 1], s[i - r - 1]) || k - 1 == i - r - 1;
        assert KeyLe(t, s[i - r - 1], s[i - 1]);
      } else {
        assert Tied(t, s[k - 1], s[i - 1]);
      }
    }
  }

  /** r choose 2: the number of pairs within a run of length r. */
  function Choose2(r: nat): nat
  {
    r * (r - 1) / 2
  }

  lemma Choose2Step(r: nat)
    ensures Choose2(r + 1) == Choose2(r) + r
  {
    assert (r + 1) * r == r * (r - 1) + 2 * r;
  }

  /** Moving the scan one position on: the tie count grows by the run length or by 0. */
  lemma Advance(s: seq<Pair>, t: Tie, i: nat, r: nat)
    requires SortedBy(s, t) && 1 <= i < |s| && RunEndsAt(s, t, i, r)
    ensures TiesIn(s, t, i + 1) == TiesIn(s, t, i) + (if Tied(t, s[i - 1], s[i]) then r else 0)
    ensures Tied(t, s[i - 1], s[i]) ==> RunEndsAt(s, t, i + 1, r + 1)
    ensures !Tied(t, s[i - 1], s[i]) ==> RunEndsAt(s, t, i + 1, 1)
  {
    RunTiedCount(s, t, i, r, i);
    if Tied(t, s[i - 1], s[i]) {
      forall k | i - r <= k < i + 1 ensures Tied(t, s[k], s[i]) {
        if k < i {
          assert Tied(t, s[k], s[i - 1]);
        }
      }
      if r < i {
        assert !Tied(t, s[i - r - 1], s[i - 1]);
      }
    }
  }

  /** The scan state after position i: the open run has length `run`, `same` counts the closed runs. */
  ghost predicate ScanState(s: seq<Pair>, t: Tie, i: nat, run: nat, same: nat)
  {
    RunEndsAt(s, t, i, run) && same + Choose2(run) == TiesIn(s, t, i)
  }

  /** One scan step: a tie extends the run, anything else closes it and opens a new one. */
  lemma ScanStep(s: seq<Pair>, t: Tie, i: nat, run: nat, same: nat)
    requires SortedBy(s, t) && 1 <= i < |s| && ScanState(s, t, i, run, same)
    ensures Tied(t, s[i - 1], s[i]) ==> ScanState(s, t, i + 1, run + 1, same)
    ensures !Tied(t, s[i - 1], s[i]) ==> ScanState(s, t, i + 1, 1, same + run * (run - 1) / 2)
  {
    Advance(s, t, i, run);
    Choose2Step(run);
  }

  /**
   * The first counting pass over the pairs sorted by (x, y): the number of
   * index pairs with equal x and with equal (x, y), accumulated as r choose
   * 2 per run of length r.
   */
  method CountTiesXY(s: seq<Pair>) returns (sameX: nat, sameXY: nat)
    requires SortedXY(s)
    ensures sameX == Count(s, Same(ByX)) && sameXY == Count(s, Same(ByXY))
  {
    SortedXYSortedBy(s);
    sameX, sameXY := 0, 0;
    var runX: nat, runXY: nat := 1, 1;
    var i := 1;
    while i < |s|
      invariant |s| > 0 ==> 1 <= i <= |s|
      invariant |s| > 0 ==> ScanState(s, ByX, i, runX, sameX) && ScanState(s, ByXY, i, runXY, sameXY)
      invariant |s| == 0 ==> runX == 1 && runXY == 1 && sameX == 0 && sameXY == 0
    {
      ScanStep(s, ByX, i, runX, sameX);
      ScanStep(s, ByXY, i, runXY, sameXY);
      if s[i].x == s[i - 1].x {
        runX := runX + 1;
        if s[i].y == s[i - 1].y {
          runXY := runXY + 1;
        } else {
          sameXY := sameXY + runXY * (runXY - 1) / 2;
          runXY := 1;
        }
      } else {
        sameX := sameX + runX * (runX - 1) / 2;
        runX := 1;
        sameXY := sameXY + runXY * (runXY - 1) / 2;
        runXY := 1;
      }
      i := i + 1;
    }
    sameX := sameX + runX * (runX - 1) / 2;
    sameXY := sameXY + runXY * (runXY - 1) / 2;
    TiesAll(s, ByX);
    TiesAll(s, ByXY);
  }

  /**
   * The counting pass over the pairs sorted by y: the number of index
   * pairs with equal y.
   */
  method CountTiesY(s: seq<Pair>) returns (sameY: nat)
    requires SortedY(s)
    ensures sameY == Count(s, Same(ByY))
  {
    assert SortedBy(s, ByY);
    sameY := 0;
    var runY: nat := 1;
    var i := 1;
    while i < |s|
      invariant |s| > 0 ==> 1 <= i <= |s|
      invariant |s| > 0 ==> ScanState(s, ByY, i, runY, sameY)
      invariant |s| == 0 ==> runY == 1 && sameY == 0
    {
      ScanStep(s, ByY, i, runY, sameY);
      if s[i].y == s[i - 1].y {
        runY := runY + 1;
      } else {
        sameY := sameY + runY * (runY - 1) / 2;
        runY := 1;
      }
      i := i + 1;
    }
    sameY := sameY + runY * (runY - 1) / 2;
    TiesAll(s, ByY);
  }

  // ---------------------------------------------------------------------
  // The merge sort by y and its inversion count
  // ---------------------------------------------------------------------

  function Min(a: nat, b: nat): nat
  {
    if a < b then a else b
  }

  /** A sequence sorted by y has no inversions. */
  lemma {:induction false} SortedNoInversions(s: seq<Pair>)
    requires SortedY(s)
    ensures Count(s, YAbove) == 0
    decreases |s|
  {
    if s != [] {
      var s', v := s[..|s| - 1], s[|s| - 1];
      SortedNoInversions(s');
      SumOverZero(s', HoldsWith(YAbove, v));
    }
  }

  lemma CrossPermutationRight(a: seq<Pair>, b: seq<Pair>, b': seq<Pair>, rel: Rel)
    requires multiset(b) == multiset(b')
    ensures Cross(a, b, rel) == Cross(a, b', rel)
  {
    SumOverPermutation(b, b', CrossAt(a, rel));
  }

  lemma CrossPermutationLeft(a: seq<Pair>, a': seq<Pair>, b: seq<Pair>, rel: Rel)
    requires multiset(a) == multiset(a')
    ensures Cross(a, b, rel) == Cross(a', b, rel)
  {
    forall i | 0 <= i < |b| ensures CrossAt(a, rel)(b[i]) == CrossAt(a', rel)(b[i]) {
      SumOverPermutation(a, a', HoldsWith(rel, b[i]));
    }
    SumOverCongruence(b, CrossAt(a, rel), CrossAt(a', rel));
  }

  /**
   * Replacing two adjacent sorted runs a, b by their sorted merge m removes
   * exactly the inversions between a and b.
   */
  lemma MergeReplace(h: seq<Pair>, a: seq<Pair>, b: seq<Pair>, m: seq<Pair>, r: seq<Pair>)
    requires SortedY(a) && SortedY(b) && SortedY(m)
    requires multiset(m) == multiset(a + b)
    ensures Count(h + m + r, YAbove) + Cross(a, b, YAbove) == Count(h + (a + b + r), YAbove)
  {
    assert h + m + r == h + (m + r);
    CountAppend(h, m + r, YAbove);
    CountAppend(h, a + b + r, YAbove);
    CountAppend(m, r, YAbove);
    CountAppend(a + b, r, YAbove);
    CountAppend(a, b, YAbove);
    SortedNoInversions(a);
    SortedNoInversions(b);
    SortedNoInversions(m);
    CrossPermutationRight(h, m + r, a + b + r, YAbove);
    CrossPermutationLeft(m, a + b, r, YAbove);
  }

  /**
   * The number of elements of a sorted run lying above v in y is the
   * length of the run from the first element above v.
   */
  lemma AboveCount(a: seq<Pair>, i: nat, v: Pair)
    requires SortedY(a) && i <= |a|
    requires i > 0 ==> a[i - 1].y <= v.y
    requires i < |a| ==> a[i].y > v.y
    ensures SumOver(a, HoldsWith(YAbove, v)) == |a| - i
  {
    SortedSplit(a, i);
    SumOverSplit(a, i, HoldsWith(YAbove, v));
    if i > 0 {
      assert a[..i][i - 1] == a[i - 1];
    }
    NoneAbove(a[..i], v);
    if i < |a| {
      assert a[i..][0] == a[i];
    }
    AllAbove(a[i..], v);
  }

  lemma SortedSplit(a: seq<Pair>, i: nat)
    requires SortedY(a) && i <= |a|
    ensures SortedY(a[..i]) && SortedY(a[i..])
  {
    forall k, l | 0 <= k < l < |a[i..]| ensures a[i..][k].y <= a[i..][l].y {
      assert a[i..][k] == a[i + k] && a[i..][l] == a[i + l];
    }
  }

  lemma SumOverSplit<T>(a: seq<T>, i: nat, f: T -> int)
    requires i <= |a|
    ensures SumOver(a, f) == SumOver(a[..i], f) + SumOver(a[i..], f)
  {
    assert a == a[..i] + a[i..];
    SumOverAppend(a[..i], a[i..], f);
  }

  lemma PrefixSnoc<T>(s: seq<T>, k: nat)
    requires k < |s|
    ensures s[..k + 1] == s[..k] + [s[k]]
  {
  }

  /** One more element of b adds the elements of a above it. */
  lemma CrossStep(a: seq<Pair>, b: seq<Pair>, j: nat, rel: Rel)
    requires j < |b|
    ensures Cross(a, b[..j + 1], rel) == Cross(a, b[..j], rel) + SumOver(a, HoldsWith(rel, b[j]))
  {
    assert b[..j + 1][..j] == b[..j];
  }

  lemma SliceSplit(s: seq<Pair>, lo: nat, mid: nat, hi: nat)
    requires lo <= mid <= hi <= |s|
    ensures s[lo..hi] == s[lo..mid] + s[mid..hi]
  {
  }

  lemma NoneAbove(a: seq<Pair>, v: Pair)
    requires SortedY(a) && (a != [] ==> a[|a| - 1].y <= v.y)
    ensures SumOver(a, HoldsWith(YAbove, v)) == 0
  {
    forall k | 0 <= k < |a| ensures HoldsWith(YAbove, v)(a[k]) == 0 {
      assert a[k].y <= a[|a| - 1].y;
    }
    SumOverZero(a, HoldsWith(YAbove, v));
  }

  lemma AllAbove(a: seq<Pair>, v: Pair)
    requires SortedY(a) && (a != [] ==> a[0].y > v.y)
    ensures SumOver(a, HoldsWith(YAbove, v)) == |a|
  {
    forall k | 0 <= k < |a| ensures HoldsWith(YAbove, v)(a[k]) == 1 {
      assert a[0].y <= a[k].y;
    }
    SumOverOnes(a, HoldsWith(YAbove, v));
  }

  lemma SortedSnoc(m: seq<Pair>, e: Pair)
    requires SortedY(m) && (m != [] ==> m[|m| - 1].y <= e.y)
    ensures SortedY(m + [e])
  {
    var r := m + [e];
    forall k, l | 0 <= k < l < |r| ensures r[k].y <= r[l].y {
      if l == |m| && k < |m| - 1 {
        assert m[k].y <= m[|m| - 1].y;
      }
    }
  }

  /**
   * The state of the merge of two runs a and b sorted by y: `merged` holds
   * a[..i] and b[..j] in y order, nothing remaining lies below its last
   * element, the last element taken from a lies at or below the head of b,
   * and `count` counts the inversions between a and b[..j].
   */
  ghost predicate MergeInv(a: seq<Pair>, b: seq<Pair>, i: nat, j: nat, merged: seq<Pair>, count: int)
  {
    && i <= |a| && j <= |b|
    && SortedY(a) && SortedY(b)
    && multiset(merged) == multiset(a[..i]) + multiset(b[..j])
    && |merged| == i + j
    && SortedY(merged)
    && (merged != [] && i < |a| ==> merged[|merged| - 1].y <= a[i].y)
    && (merged != [] && j < |b| ==> merged[|merged| - 1].y <= b[j].y)
    && (0 < i && j < |b| ==> a[i - 1].y <= b[j].y)
    && count == Cross(a, b[..j], YAbove)
  }

  /** Taking the head of a, which is not above the head of b. */
  lemma TakeLeft(a: seq<Pair>, b: seq<Pair>, i: nat, j: nat, merged: seq<Pair>, count: int)
    requires MergeInv(a, b, i, j, merged, count)
    requires i < |a| && (j < |b| ==> a[i].y <= b[j].y)
    ensures MergeInv(a, b, i + 1, j, merged + [a[i]], count)
  {
    PrefixSnoc(a, i);
    SortedSnoc(merged, a[i]);
  }

  /**
   * Taking the head of b, which lies below the head of a: it is inverted
   * with every element remaining in a.
   */
  lemma TakeRight(a: seq<Pair>, b: seq<Pair>, i: nat, j: nat, merged: seq<Pair>, count: int)
    requires MergeInv(a, b, i, j, merged, count)
    requires j < |b| && (i < |a| ==> a[i].y > b[j].y)
    ensures MergeInv(a, b, i, j + 1, merged + [b[j]], count + (|a| - i))
  {
    PrefixSnoc(b, j);
    CrossStep(a, b, j, YAbove);
    SortedSnoc(merged, b[j]);
    AboveCount(a, i, b[j]);
  }

  /**
   * The merge of pairs[lo..mid] and pairs[mid..hi], both sorted by y: the
   * heads are compared while both runs last, then what remains of the right
   * run and then what remains of the left run is copied.
   */
  method MergeRuns(pairs: seq<Pair>, lo: nat, mid: nat, hi: nat) returns (merged: seq<Pair>, count: nat)
    requires lo <= mid <= hi <= |pairs|
    requires SortedY(pairs[lo..mid]) && SortedY(pairs[mid..hi])
    ensures SortedY(merged)
    ensures multiset(merged) == multiset(pairs[lo..hi]) && |merged| == hi - lo
    ensures count == Cross(pairs[lo..mid], pairs[mid..hi], YAbove)
  {
    var a, b := pairs[lo..mid], pairs[mid..hi];
    var i, j;
    merged, count, i, j := MergeHeads(a, b);
    merged, count, j := CopyRight(a, b, i, j, merged, count);
    merged, i := CopyLeft(a, b, i, j, merged, count);
    assert a[..i] == a && b[..j] == b;
    SliceSplit(pairs, lo, mid, hi);
  }

  /**
   * The comparing loop: the right head is taken only when it lies strictly
   * below the left head, and then every element remaining in the left run
   * is inverted with it.
   */
  method MergeHeads(a: seq<Pair>, b: seq<Pair>) returns (merged: seq<Pair>, count: nat, i: nat, j: nat)
    requires SortedY(a) && SortedY(b)
    ensures MergeInv(a, b, i, j, merged, count) && (i == |a| || j == |b|)
  {
    merged, count, i, j := [], 0, 0, 0;
    while i < |a| && j < |b|
      invariant MergeInv(a, b, i, j, merged, count)
      decreases (|a| - i) + (|b| - j)
    {
      if a[i].y > b[j].y {
        TakeRight(a, b, i, j, merged, count);
        merged := merged + [b[j]];
        count := count + (|a| - i);
        j := j + 1;
      } else {
        TakeLeft(a, b, i, j, merged, count);
        merged := merged + [a[i]];
        i := i + 1;
      }
    }
  }

  /** Copies the rest of the right run: once the left run is used up, no inversion is left. */
  method CopyRight(a: seq<Pair>, b: seq<Pair>, i: nat, j: nat, merged: seq<Pair>, count: nat)
    returns (merged': seq<Pair>, count': nat, j': nat)
    requires MergeInv(a, b, i, j, merged, count) && (i == |a| || j == |b|)
    ensures MergeInv(a, b, i, j', merged', count') && j' == |b|
  {
    merged', count', j' := merged, count, j;
    while j' < |b|
      invariant MergeInv(a, b, i, j', merged', count') && (i == |a| || j' == |b|)
      decreases |b| - j'
    {
      TakeRight(a, b, i, j', merged', count');
      merged' := merged' + [b[j']];
      j' := j' + 1;
    }
  }

  /** Copies the rest of the left run: every inversion has been counted. */
  method CopyLeft(a: seq<Pair>, b: seq<Pair>, i: nat, j: nat, merged: seq<Pair>, count: nat)
    returns (merged': seq<Pair>, i': nat)
    requires MergeInv(a, b, i, j, merged, count) && j == |b|
    ensures MergeInv(a, b, i', j, merged', count) && i' == |a|
  {
    merged', i' := merged, i;
    while i' < |a|
      invariant MergeInv(a, b, i', j, merged', count)
      decreases |a| - i'
    {
      TakeLeft(a, b, i', j, merged', count);
      merged' := merged' + [a[i']];
      i' := i' + 1;
    }
  }

  /**
   * Consecutive blocks of c elements (the last one possibly shorter) are
   * each sorted by y.
   */
  ghost predicate BlocksSorted(s: seq<Pair>, c: nat)
    requires c > 0
    decreases |s|
  {
    if |s| <= c then SortedY(s) else SortedY(s[..c]) && BlocksSorted(s[c..], c)
  }

  /** n is a multiple of d. */
  ghost predicate Aligned(n: nat, d: nat)
    requires d > 0
    decreases n
  {
    n == 0 || (n >= d && Aligned(n - d, d))
  }

  /** Every sequence is made of sorted blocks of one. */
  lemma {:induction false} BlocksOfOne(s: seq<Pair>)
    ensures BlocksSorted(s, 1)
    decreases |s|
  {
    if |s| > 1 {
      BlocksOfOne(s[1..]);
    }
  }

  /** A sorted block appended after whole blocks extends the block structure. */
  lemma {:induction false} BlocksSnoc(h: seq<Pair>, m: seq<Pair>, d: nat)
    requires d > 0 && Aligned(|h|, d) && BlocksSorted(h, d)
    requires SortedY(m) && 0 < |m| <= d
    ensures BlocksSorted(h + m, d)
    decreases |h|
  {
    if h == [] {
      assert h + m == m;
    } else {
      assert (h + m)[..d] == h[..d];
      assert (h + m)[d..] == h[d..] + m;
      if |h| == d {
        assert h[..d] == h;
      }
      BlocksSnoc(h[d..], m, d);
    }
  }

  /**
   * At the start of a block pair: the left run pairs[start..endLeft] and
   * the right run pairs[endLeft..endRight] are sorted, and so are the
   * blocks after them.
   */
  lemma RunsOfBlocks(s: seq<Pair>, start: nat, mid: nat, hi: nat, c: nat)
    requires c > 0 && start < |s| && BlocksSorted(s[start..], c)
    requires mid == Min(start + c, |s|) && hi == Min(mid + c, |s|)
    ensures SortedY(s[start..mid]) && SortedY(s[mid..hi]) && BlocksSorted(s[hi..], c)
    ensures start < hi <= start + 2 * c
  {
    var r := s[start..];
    if |r| <= c {
      assert s[start..|s|] == r;
      assert s[|s|..] == [];
    } else {
      assert s[start..start + c] == r[..c];
      var r2 := s[start + c..];
      assert r[c..] == r2;
      if |r2| <= c {
        assert s[start + c..|s|] == r2;
        assert s[|s|..] == [];
      } else {
        assert s[start + c..start + 2 * c] == r2[..c];
        assert s[start + 2 * c..] == r2[c..];
      }
    }
  }

  lemma TailSplit(s: seq<Pair>, lo: nat, mid: nat, hi: nat)
    requires lo <= mid <= hi <= |s|
    ensures s[lo..] == s[lo..mid] + s[mid..hi] + s[hi..]
    ensures s[..hi] == s[..lo] + s[lo..hi]
    ensures s[lo..hi] == s[lo..mid] + s[mid..hi]
  {
  }

  /**
   * The state of a merge pass before the block pair at `start`, in four
   * parts: the merged prefix `holder` has the length of the consumed input;
   * it is a permutation of that input prefix; it is made of sorted blocks of
   * 2 * chunk while the rest of the input is still made of sorted blocks of
   * chunk; and `count` plus the inversions left equals the inversions of
   * the input.
   */
  ghost predicate PassInv(pairs: seq<Pair>, chunk: nat, start: nat, holder: seq<Pair>, count: int)
    requires chunk > 0
  {
    && PassShape(pairs, chunk, start, holder) && PassPerm(pairs, holder)
    && PassBlocks(pairs, chunk, holder) && PassCount(pairs, holder, count)
  }

  ghost predicate PassShape(pairs: seq<Pair>, chunk: nat, start: nat, holder: seq<Pair>)
    requires chunk > 0
  {
    Aligned(start, 2 * chunk) && |holder| == Min(start, |pairs|)
  }

  ghost predicate PassPerm(pairs: seq<Pair>, holder: seq<Pair>)
  {
    |holder| <= |pairs| && multiset(holder) == multiset(pairs[..|holder|])
  }

  ghost predicate PassBlocks(pairs: seq<Pair>, chunk: nat, holder: seq<Pair>)
    requires chunk > 0
  {
    |holder| <= |pairs| && BlocksSorted(holder, 2 * chunk) && BlocksSorted(pairs[|holder|..], chunk)
  }

  ghost predicate PassCount(pairs: seq<Pair>, holder: seq<Pair>, count: int)
  {
    |holder| <= |pairs| && count + Count(holder + pairs[|holder|..], YAbove) == Count(pairs, YAbove)
  }

  lemma ShapeStep(pairs: seq<Pair>, chunk: nat, start: nat, holder: seq<Pair>, merged: seq<Pair>)
    requires chunk > 0 && start < |pairs| && PassShape(pairs, chunk, start, holder)
    requires |merged| == Min(start + 2 * chunk, |pairs|) - start
    ensures |holder| == start && Aligned(|holder|, 2 * chunk)
    ensures PassShape(pairs, chunk, start + 2 * chunk, holder + merged)
  {
  }

  lemma PermStep(pairs: seq<Pair>, holder: seq<Pair>, merged: seq<Pair>, hi: nat)
    requires PassPerm(pairs, holder) && |holder| <= hi <= |pairs|
    requires multiset(merged) == multiset(pairs[|holder|..hi]) && |merged| == hi - |holder|
    ensures PassPerm(pairs, holder + merged)
  {
    assert pairs[..hi] == pairs[..|holder|] + pairs[|holder|..hi];
  }

  lemma BlocksStep(pairs: seq<Pair>, chunk: nat, holder: seq<Pair>, merged: seq<Pair>, hi: nat)
    requires chunk > 0 && Aligned(|holder|, 2 * chunk) && BlocksSorted(holder, 2 * chunk)
    requires SortedY(merged) && 0 < |merged| <= 2 * chunk && |holder| + |merged| == hi <= |pairs|
    requires BlocksSorted(pairs[hi..], chunk)
    ensures PassBlocks(pairs, chunk, holder + merged)
  {
    BlocksSnoc(holder, merged, 2 * chunk);
  }

  lemma CountStep(pairs: seq<Pair>, holder: seq<Pair>, count: int, merged: seq<Pair>,
                  mid: nat, hi: nat, c: int)
    requires PassCount(pairs, holder, count) && |holder| <= mid <= hi <= |pairs|
    requires SortedY(pairs[|holder|..mid]) && SortedY(pairs[mid..hi]) && SortedY(merged)
    requires multiset(merged) == multiset(pairs[|holder|..hi]) && |merged| == hi - |holder|
    requires c == Cross(pairs[|holder|..mid], pairs[mid..hi], YAbove)
    ensures PassCount(pairs, holder + merged, count + c)
  {
    var a, b, r := pairs[|holder|..mid], pairs[mid..hi], pairs[hi..];
    TailSplit(pairs, |holder|, mid, hi);
    assert count + Count(holder + (a + b + r), YAbove) == Count(pairs, YAbove);
    MergeReplace(holder, a, b, merged, r);
    assert pairs[|holder + merged|..] == r;
  }

  /** Appending the merge of the block pair at `start` moves the pass on. */
  lemma PassStep(pairs: seq<Pair>, chunk: nat, start: nat, holder: seq<Pair>, count: int,
                 merged: seq<Pair>, mid: nat, hi: nat, c: int)
    requires chunk > 0 && start < |pairs| && PassInv(pairs, chunk, start, holder, count)
    requires mid == Min(start + chunk, |pairs|) && hi == Min(mid + chunk, |pairs|)
    requires SortedY(pairs[start..mid]) && SortedY(pairs[mid..hi]) && BlocksSorted(pairs[hi..], chunk)
    requires SortedY(merged) && multiset(merged) == multiset(pairs[start..hi]) && |merged| == hi - start
    requires c == Cross(pairs[start..mid], pairs[mid..hi], YAbove)
    ensures PassInv(pairs, chunk, start + 2 * chunk, holder + merged, count + c)
  {
    ShapeStep(pairs, chunk, start, holder, merged);
    PermStep(pairs, holder, merged, hi);
    BlocksStep(pairs, chunk, holder, merged, hi);
    CountStep(pairs, holder, count, merged, mid, hi, c);
  }

  /**
   * One pass of the bottom-up merge sort: each pair of adjacent blocks of
   * `chunk` elements is merged into `holder`, and `count` adds up the
   * inversions removed by the merges.
   */
  method MergePass(pairs: seq<Pair>, chunk: nat) returns (holder: seq<Pair>, count: nat)
    requires chunk > 0 && BlocksSorted(pairs, chunk)
    ensures |holder| == |pairs| && multiset(holder) == multiset(pairs)
    ensures BlocksSorted(holder, 2 * chunk)
    ensures count + Count(holder, YAbove) == Count(pairs, YAbove)
  {
    holder, count := [], 0;
    var start: nat := 0;
    PassStart(pairs, chunk);
    while start < |pairs|
      invariant PassInv(pairs, chunk, start, holder, count)
      decreases |pairs| - start
    {
      holder, count := MergeBlockPair(pairs, chunk, start, holder, count);
      start := start + 2 * chunk;
    }
    PassDone(pairs, chunk, start, holder, count);
  }

  /**
   * The merge of the block pair at `start`: the left run ends after `chunk`
   * elements or at the end of the input, the right run `chunk` elements
   * later or at the end, and their merge is appended to `holder`.
   */
  method MergeBlockPair(pairs: seq<Pair>, chunk: nat, start: nat, holder: seq<Pair>, count: nat)
    returns (holder': seq<Pair>, count': nat)
    requires chunk > 0 && start < |pairs| && PassInv(pairs, chunk, start, holder, count)
    ensures PassInv(pairs, chunk, start + 2 * chunk, holder', count')
  {
    var endLeft := Min(start + chunk, |pairs|);
    var endRight := Min(endLeft + chunk, |pairs|);
    assert |holder| == start;
    RunsOfBlocks(pairs, start, endLeft, endRight, chunk);
    var merged, c := MergeRuns(pairs, start, endLeft, endRight);
    PassStep(pairs, chunk, start, holder, count, merged, endLeft, endRight, c);
    holder' := holder + merged;
    count' := count + c;
  }

  lemma PassStart(pairs: seq<Pair>, chunk: nat)
    requires chunk > 0 && BlocksSorted(pairs, chunk)
    ensures PassInv(pairs, chunk, 0, [], 0)
  {
    assert [] + pairs[0..] == pairs;
  }

  lemma PassDone(pairs: seq<Pair>, chunk: nat, start: nat, holder: seq<Pair>, count: int)
    requires chunk > 0 && start >= |pairs| && PassInv(pairs, chunk, start, holder, count)
    ensures |holder| == |pairs| && BlocksSorted(holder, 2 * chunk)
    ensures multiset(holder) == multiset(pairs)
    ensures count + Count(holder, YAbove) == Count(pairs, YAbove)
  {
    assert pairs[..|pairs|] == pairs;
    assert holder + pairs[|pairs|..] == holder;
  }

  /**
   * The bottom-up merge sort by y: blocks of 1, 2, 4, ... are merged until
   * one block holds everything. The merges together count every inversion
   * of the input order by y.
   */
  method SortByY(pairs: seq<Pair>) returns (sorted: seq<Pair>, discording: nat)
    ensures |sorted| == |pairs| && multiset(sorted) == multiset(pairs) && SortedY(sorted)
    ensures discording == Count(pairs, YAbove)
  {
    sorted, discording := pairs, 0;
    BlocksOfOne(sorted);
    var chunk: nat := 1;
    while chunk < |sorted|
      invariant chunk > 0 && |sorted| == |pairs| && multiset(sorted) == multiset(pairs)
      invariant BlocksSorted(sorted, chunk)
      invariant discording + Count(sorted, YAbove) == Count(pairs, YAbove)
      decreases |sorted| - chunk
    {
      var holder, c := MergePass(sorted, chunk);
      discording := discording + c;
      sorted := holder;
      chunk := 2 * chunk;
    }
    SortedNoInversions(sorted);
  }

  // ---------------------------------------------------------------------
  // Counts that do not depend on the order
  // ---------------------------------------------------------------------

  /** In (x, y) order, an inversion by y is exactly a discordant pair. */
  lemma InversionsAreDiscordant(s: seq<Pair>)
    requires SortedXY(s)
    ensures Count(s, YAbove) == Count(s, Discordant)
  {
    CountAgree(s, YAbove, Discordant);
  }

  /** The relations that do not depend on which of the two pairs comes first. */
  predicate Symmetric(rel: Rel)
  {
    !rel.YAbove?
  }

  lemma HoldsSymmetric(rel: Rel, p: Pair, q: Pair)
    requires Symmetric(rel)
    ensures Holds(rel, p, q) == Holds(rel, q, p)
  {
  }

  /** For an element q, the number of elements of s standing in rel to q. */
  ghost function RowOf(s: seq<Pair>, rel: Rel): Pair -> int
  {
    q => SumOver(s, HoldsWith(rel, q))
  }

  function SelfOf(rel: Rel): Pair -> int
  {
    q => if Holds(rel, q, q) then 1 else 0
  }

  lemma {:induction false} SumOverAdd<T>(s: seq<T>, f: T -> int, g: T -> int, h: T -> int)
    requires forall i :: 0 <= i < |s| ==> h(s[i]) == f(s[i]) + g(s[i])
    ensures SumOver(s, h) == SumOver(s, f) + SumOver(s, g)
    decreases |s|
  {
    if s != [] {
      SumOverAdd(s[..|s| - 1], f, g, h);
    }
  }

  /**
   * For a symmetric relation, the ordered pairs of all elements (each
   * element with itself included) count every index pair twice.
   */
  lemma {:induction false} CountFull(s: seq<Pair>, rel: Rel)
    requires Symmetric(rel)
    ensures 2 * Count(s, rel) + SumOver(s, SelfOf(rel)) == SumOver(s, RowOf(s, rel))
    decreases |s|
  {
    if s != [] {
      var s', v := s[..|s| - 1], s[|s| - 1];
      CountFull(s', rel);
      forall i | 0 <= i < |s'|
        ensures RowOf(s, rel)(s'[i]) == RowOf(s', rel)(s'[i]) + HoldsWith(rel, v)(s'[i])
      {
        HoldsSymmetric(rel, s'[i], v);
      }
      SumOverAdd(s', RowOf(s', rel), HoldsWith(rel, v), RowOf(s, rel));
    }
  }

  /** The number of index pairs related by a symmetric relation is invariant under permutation. */
  lemma CountPermutation(s: seq<Pair>, t: seq<Pair>, rel: Rel)
    requires Symmetric(rel) && multiset(s) == multiset(t)
    ensures Count(s, rel) == Count(t, rel)
  {
    CountFull(s, rel);
    CountFull(t, rel);
    SumOverPermutation(s, t, SelfOf(rel));
    SumOverPermutation(s, t, RowOf(s, rel));
    forall i | 0 <= i < |t| ensures RowOf(s, rel)(t[i]) == RowOf(t, rel)(t[i]) {
      SumOverPermutation(s, t, HoldsWith(rel, t[i]));
    }
    SumOverCongruence(t, RowOf(s, rel), RowOf(t, rel));
  }

  lemma {:induction false} RowPartition(a: seq<Pair>, v: Pair)
    ensures SumOver(a, HoldsWith(Concordant, v)) + SumOver(a, HoldsWith(Discordant, v))
            + SumOver(a, HoldsWith(Same(ByX), v)) + SumOver(a, HoldsWith(Same(ByY), v))
            - SumOver(a, HoldsWith(Same(ByXY), v)) == |a|
    decreases |a|
  {
    if a != [] {
      RowPartition(a[..|a| - 1], v);
    }
  }

  /**
   * Every index pair is concordant, discordant, or tied in x or in y, and
   * a pair tied in both is counted once: the identity behind the
   * numerator totalPairs - sameX - sameY + sameXY - 2 * discording.
   */
  lemma {:induction false} CountPartition(s: seq<Pair>)
    ensures Count(s, Concordant) + Count(s, Discordant) + Count(s, Same(ByX))
            + Count(s, Same(ByY)) - Count(s, Same(ByXY)) == Choose2(|s|)
    decreases |s|
  {
    if s != [] {
      var s' := s[..|s| - 1];
      CountPartition(s');
      RowPartition(s', s[|s| - 1]);
      Choose2Step(|s'|);
    }
  }

  // ---------------------------------------------------------------------
  // The correlation
  // ---------------------------------------------------------------------

  /** The pairs (x[i], y[i]) for the indices of x. */
  function Zip(x: seq<real>, y: seq<real>): seq<Pair>
    requires |x| <= |y|
  {
    seq(|x|, i requires 0 <= i < |x| => Pair(x[i], y[i]))
  }

  /**
   * The value kendallCorrelation returns, kept exact: num / sqrt(den2)
   * when den2 is positive, and the constant `value` when it is 0.
   */
  datatype Correlation = Ratio(num: int, den2: int) | Degenerate(value: real)

  /**
   * Kendall's tau-b over the index pairs of z: concordant minus discordant
   * pairs, over the square root of the product of the numbers of pairs not
   * tied in x and not tied in y; 1 or 0 when that product is 0, depending
   * on whether the tie counts in x and y agree.
   */
  ghost function TauB(z: seq<Pair>): Correlation
  {
    var total := Choose2(|z|);
    var tiesX, tiesY := Count(z, Same(ByX)), Count(z, Same(ByY));
    var den2 := (total - tiesX) * (total - tiesY);
    if den2 == 0 then Degenerate(if tiesX == tiesY then 1.0 else 0.0)
    else Ratio(Count(z, Concordant) - Count(z, Discordant), den2)
  }

  /** What the three counting passes compute, in terms of the original pairs. */
  lemma PassCounts(z: seq<Pair>, sorted: seq<Pair>, byY: seq<Pair>)
    requires multiset(sorted) == multiset(z) && SortedXY(sorted)
    requires multiset(byY) == multiset(z)
    ensures Count(sorted, Same(ByX)) == Count(z, Same(ByX))
    ensures Count(sorted, Same(ByXY)) == Count(z, Same(ByXY))
    ensures Count(byY, Same(ByY)) == Count(z, Same(ByY))
    ensures Count(sorted, YAbove) == Count(z, Discordant)
  {
    CountPermutation(sorted, z, Same(ByX));
    CountPermutation(sorted, z, Same(ByXY));
    CountPermutation(byY, z, Same(ByY));
    InversionsAreDiscordant(sorted);
    CountPermutation(sorted, z, Discordant);
  }

  /**
   * Tau-b from the tie and discordance counts: concordant minus discordant
   * is totalPairs - sameX - sameY + sameXY - 2 * discording.
   */
  lemma TauBOfCounts(z: seq<Pair>, n: nat, sameX: int, sameY: int, sameXY: int, discording: int,
                     totalPairs: int, num: int, den2: int)
    requires n == |z|
    requires sameX == Count(z, Same(ByX)) && sameY == Count(z, Same(ByY))
    requires sameXY == Count(z, Same(ByXY)) && discording == Count(z, Discordant)
    requires totalPairs == n * (n - 1) / 2
    requires num == totalPairs - sameX - sameY + sameXY - 2 * discording
    requires den2 == (totalPairs - sameX) * (totalPairs - sameY)
    ensures TauB(z) == if den2 == 0 then Degenerate(if sameX == sameY then 1.0 else 0.0)
                       else Ratio(num, den2)
  {
    CountPartition(z);
  }

  /**
   * kendallCorrelation: zip, sort by (x, y), count the ties in x and in
   * (x, y), merge sort by y counting the discordant pairs, count the ties
   * in y, and combine.
   */
  method KendallCorrelation(x: seq<real>, y: seq<real>) returns (c: Correlation)
    requires |x| <= |y|
    ensures c == TauB(Zip(x, y))
  {
    var pairs := ZipPairs(x, y);
    var sorted := SortXY(pairs);
    var sameX, sameXY := CountTiesXY(sorted);
    var byY, discording := SortByY(sorted);
    var sameY := CountTiesY(byY);
    var n := |byY|;
    var totalPairs := n * (n - 1) / 2;
    var num := totalPairs - sameX - sameY + sameXY - 2 * discording;
    var den2 := (totalPairs - sameX) * (totalPairs - sameY);
    PassCounts(pairs, sorted, byY);
    TauBOfCounts(pairs, n, sameX, sameY, sameXY, discording, totalPairs, num, den2);
    if den2 == 0 {
      c := Degenerate(if sameX == sameY then 1.0 else 0.0);
    } else {
      c := Ratio(num, den2);
    }
  }

  /** Identical vectors: the correlation is 1, or the constant 1 when every pair is tied. */
  lemma TauBIdentical(x: seq<real>)
    ensures var c := TauB(Zip(x, x));
            c == Degenerate(1.0) || (c.Ratio? && c.num > 0 && c.num * c.num == c.den2)
  {
    var z := Zip(x, x);
    CountNone(z, Discordant);
    CountAgree(z, Same(ByY), Same(ByX));
    CountAgree(z, Same(ByXY), Same(ByX));
    CountPartition(z);
    CountNonNegative(z, Concordant);
  }

  function Negated(x: seq<real>): seq<real>
  {
    seq(|x|, i requires 0 <= i < |x| => -x[i])
  }

  /** Reversed order: the correlation is -1, or the constant 1 when every pair is tied. */
  lemma TauBReversed(x: seq<real>)
    ensures var c := TauB(Zip(x, Negated(x)));
            c == Degenerate(1.0) || (c.Ratio? && c.num < 0 && c.num * c.num == c.den2)
  {
    var z := Zip(x, Negated(x));
    CountNone(z, Concordant);
    CountAgree(z, Same(ByY), Same(ByX));
    CountAgree(z, Same(ByXY), Same(ByX));
    CountPartition(z);
    CountNonNegative(z, Discordant);
  }

  /** Fewer than two pairs: no pair at all, and the constant 1. */
  lemma TauBShort(x: seq<real>, y: seq<real>)
    requires |x| <= |y| && |x| <= 1
    ensures TauB(Zip(x, y)) == Degenerate(1.0)
  {
    var z := Zip(x, y);
    if |z| == 1 {
      assert z[..0] == [];
      assert Count(z, Same(ByX)) == 0 && Count(z, Same(ByY)) == 0;
    }
  }

  /** When tau-b is a ratio its squared denominator is positive, so the square root is too. */
  lemma TauBRatioPositive(z: seq<Pair>)
    ensures TauB(z).Ratio? ==> TauB(z).den2 > 0
  {
    CountPartition(z);
    CountWeaker(z, Same(ByXY), Same(ByX));
    CountWeaker(z, Same(ByXY), Same(ByY));
    CountNonNegative(z, Concordant);
    CountNonNegative(z, Discordant);
    var total := Choose2(|z|);
    var a, b := total - Count(z, Same(ByX)), total - Count(z, Same(ByY));
    assert a >= 0 && b >= 0;
    if a * b != 0 {
      assert a > 0 && b > 0;
      assert a * b > 0;
    }
  }
}
