/**
 * The chunked engine grankMulti, in its two copies: include/grankMulti.h
 * (the maintained one) and header-only/grankMulti.h. The rounds are those
 * of grank; only the rebuild of the active set is split into index
 * ranges over a vector holding the set, one range per worker thread. The
 * workers run here one after another: each range is rebuilt from the
 * read-only snapshot and writes only the baskets of its own nodes, so the
 * order does not matter, and the engine returns what grank returns.
 */
module GrankMulti {
  import opened Common
  import Baskets
  import Oracle
  import Partitions
  import Grank

  // ---------------------------------------------------------------------
  // Parameters
  // ---------------------------------------------------------------------

  /** The checks of grank, then a positive thread count. */
  function CheckMultiParams<K>(topK: nat, topL: nat, iterations: nat, d: real, nThreads: nat)
    : (r: Option<Error<K>>)
    ensures r == None <==> 0 < topK <= topL && iterations > 0 && 0.0 <= d <= 1.0 && nThreads > 0
    ensures Grank.CheckParams<K>(topK, topL, iterations, d).Some? ==>
              r == Grank.CheckParams<K>(topK, topL, iterations, d)
    ensures 0 < topK <= topL && iterations > 0 && 0.0 <= d <= 1.0 && nThreads == 0 ==>
              r == Some(InvalidArgument("nThreads must be positive"))
  {
    var check := Grank.CheckParams<K>(topK, topL, iterations, d);
    if check.Some? then check
    else if nThreads == 0 then Some(InvalidArgument("nThreads must be positive"))
    else None
  }

  // ---------------------------------------------------------------------
  // Chunk ranges
  // ---------------------------------------------------------------------

  /** The half-open index range [beg, end) of one worker. */
  datatype Range = Range(beg: nat, end: nat)

  /**
   * Where worker t starts when `size` indices are shared among n workers:
   * t whole chunks of size / n in, and the end for t == n.
   */
  function Cut(size: nat, n: nat, t: nat): nat
    requires 0 < n && t <= n
  {
    if t < n then (size / n) * t else size
  }

  /** Worker t's range: from its cut to the next one, the last running to the end. */
  function ChunkRange(size: nat, n: nat, t: nat): Range
    requires 0 < t + 1 <= n
  {
    Range(Cut(size, n, t), Cut(size, n, t + 1))
  }

  /** The index i lies in range r. */
  predicate InRange(r: Range, i: nat)
  {
    r.beg <= i < r.end
  }

  /** The cuts grow from 0 to size. */
  lemma CutMonotone(size: nat, n: nat, s: nat, t: nat)
    requires 0 < n && s <= t <= n
    ensures Cut(size, n, s) <= Cut(size, n, t) <= size
    ensures Cut(size, n, 0) == 0 && Cut(size, n, n) == size
  {
    var chunk := size / n;
    assert chunk * n <= size;
    MulMonotone(chunk, s, t);
    MulMonotone(chunk, t, n);
  }

  /** The ranges lie end to end, in order, from 0 to size. */
  ghost predicate EndToEnd(ranges: seq<Range>, size: nat)
  {
    && |ranges| > 0 && ranges[0].beg == 0 && ranges[|ranges| - 1].end == size
    && (forall t :: 0 <= t < |ranges| ==> ranges[t].beg <= ranges[t].end <= size)
    && (forall t :: 0 <= t < |ranges| - 1 ==> ranges[t].end == ranges[t + 1].beg)
  }

  /** The chunk ranges of n workers lie end to end. */
  lemma ChunksEndToEnd(ranges: seq<Range>, size: nat)
    requires |ranges| > 0 && forall t :: 0 <= t < |ranges| ==> ranges[t] == ChunkRange(size, |ranges|, t)
    ensures EndToEnd(ranges, size)
  {
    var n := |ranges|;
    CutMonotone(size, n, 0, n);
    forall t | 0 <= t < n ensures ranges[t].beg <= ranges[t].end <= size {
      CutMonotone(size, n, t, t + 1);
    }
  }

  lemma MulMonotone(c: nat, s: nat, t: nat)
    requires s <= t
    ensures c * s <= c * t
  {
    assert c * t == c * s + c * (t - s);
  }

  /**
   * The n ranges lie end to end over [0, size): each index of the vector
   * belongs to exactly one worker.
   */
  lemma ChunksPartition(size: nat, n: nat, i: nat)
    requires 0 < n && i < size
    ensures exists t :: 0 <= t < n && InRange(ChunkRange(size, n, t), i)
    ensures forall s, t ::
              (0 <= s < n && 0 <= t < n && InRange(ChunkRange(size, n, s), i) &&
               InRange(ChunkRange(size, n, t), i)) ==> s == t
  {
    var t := LastCutBelow(size, n, i, n);
    assert InRange(ChunkRange(size, n, t), i);
    forall s, u | 0 <= s < n && 0 <= u < n && InRange(ChunkRange(size, n, s), i) &&
                  InRange(ChunkRange(size, n, u), i)
      ensures s == u
    {
      if s < u {
        CutMonotone(size, n, s + 1, u);
      } else if u < s {
        CutMonotone(size, n, u + 1, s);
      }
    }
  }

  /** The last worker among the first m + 1 whose cut is at most i. */
  lemma {:induction false} LastCutBelow(size: nat, n: nat, i: nat, m: nat) returns (t: nat)
    requires 0 < n && i < size && m <= n && (m == n || i < Cut(size, n, m + 1))
    ensures t < n && t <= m && InRange(ChunkRange(size, n, t), i)
  {
    if m == n {
      t := LastCutBelow(size, n, i, n - 1);
    } else if Cut(size, n, m) <= i {
      t := m;
    } else {
      CutMonotone(size, n, 0, m);
      t := LastCutBelow(size, n, i, m - 1);
    }
  }

  /**
   * The range loop of include/grankMulti.h: beg and end move on by one
   * chunk per worker, and after the worker nThreads - 2 (computed on
   * size_t, so never reached for a single worker) end is set to the size.
   */
  method MaintainedRanges(size: nat, nThreads: nat) returns (ranges: seq<Range>)
    requires 0 < nThreads < SizeModulus
    ensures |ranges| == nThreads
    ensures forall t :: 0 <= t < nThreads ==> ranges[t] == ChunkRange(size, nThreads, t)
  {
    var chunk := size / nThreads;
    var beg, end := 0, chunk;
    ranges := [];
    var t := 0;
    while t < nThreads
      invariant t <= nThreads && |ranges| == t
      invariant forall s :: 0 <= s < t ==> ranges[s] == ChunkRange(size, nThreads, s)
      invariant t < nThreads ==> beg == Cut(size, nThreads, t) && end == Cut(size, nThreads, t + 1)
      decreases nThreads - t
    {
      ranges := ranges + [Range(beg, end)];
      beg := beg + chunk;
      end := end + chunk;
      if t == SizeSub(nThreads, 2) {
        end := size;
      }
      t := t + 1;
    }
  }

  /**
   * The range computation of header-only/grankMulti.h: chunk * t to
   * chunk * (t + 1), the last worker running to the end.
   */
  method HeaderOnlyRanges(size: nat, nThreads: nat) returns (ranges: seq<Range>)
    requires 0 < nThreads
    ensures |ranges| == nThreads
    ensures forall t :: 0 <= t < nThreads ==> ranges[t] == ChunkRange(size, nThreads, t)
  {
    var chunk := size / nThreads;
    ranges := [];
    for t := 0 to nThreads
      invariant |ranges| == t
      invariant forall s :: 0 <= s < t ==> ranges[s] == ChunkRange(size, nThreads, s)
    {
      var beg := chunk * t;
      var end := chunk * (t + 1);
      if t == nThreads - 1 {
        end := size;
      }
      ranges := ranges + [Range(beg, end)];
    }
  }

  // ---------------------------------------------------------------------
  // Vectors and the reduction of the per-thread maxima
  // ---------------------------------------------------------------------

  /** std::copy of a set into an empty vector: each element once, in some order. */
  method ToVector<K>(s: set<K>) returns (v: seq<K>)
    ensures Lists(v, s)
  {
    v := [];
    var rest := s;
    while rest != {}
      invariant rest <= s && Lists(v, s - rest)
      decreases |rest|
    {
      var x :| x in rest;
      assert (v + [x])[..|v|] == v;
      assert s - (rest - {x}) - {x} == s - rest;
      v := v + [x];
      rest := rest - {x};
    }
    assert s - rest == s;
  }

  /** The largest of 0 and the elements of ms. */
  function MaxOf(ms: seq<real>): real
  {
    if ms == [] then 0.0 else Max(MaxOf(ms[..|ms| - 1]), ms[|ms| - 1])
  }

  lemma {:induction false} MaxOfMeaning(ms: seq<real>)
    ensures MaxOf(ms) >= 0.0
    ensures forall t :: 0 <= t < |ms| ==> ms[t] <= MaxOf(ms)
    ensures MaxOf(ms) == 0.0 || exists t :: 0 <= t < |ms| && MaxOf(ms) == ms[t]
  {
    if ms != [] {
      var p := ms[..|ms| - 1];
      MaxOfMeaning(p);
      assert forall t :: 0 <= t < |p| ==> ms[t] == p[t];
      if MaxOf(ms) != 0.0 && MaxOf(ms) != ms[|ms| - 1] {
        var t :| 0 <= t < |p| && MaxOf(p) == p[t];
        assert MaxOf(ms) == ms[t];
      }
    }
  }

  /** The round's distance: 0, raised to each thread's maximum in turn. */
  method ReduceMax(ms: seq<real>) returns (m: real)
    ensures m == MaxOf(ms)
  {
    m := 0.0;
    for k := 0 to |ms|
      invariant m == MaxOf(ms[..k])
    {
      assert ms[..k + 1][..k] == ms[..k];
      m := Max(m, ms[k]);
    }
    assert ms[..|ms|] == ms;
  }

  // ---------------------------------------------------------------------
  // One worker: combineMaps
  // ---------------------------------------------------------------------

  /**
   * after differs from before only on the baskets of `nodes`: those may be
   * written (and inserted), every other basket is untouched.
   */
  ghost predicate WritesOnly<K(!new)>(before: Table<K>, after: Table<K>, nodes: set<K>)
  {
    && (forall v :: v in after <==> v in before || v in nodes)
    && (forall v :: v in before && v !in nodes ==> after[v] == before[v])
  }

  /**
   * The running maximum m0 was raised to m over the distances of the
   * baskets of `nodes`: m is at least m0 and every such distance, and it
   * is m0 or one of them.
   */
  ghost predicate RaisedTo<K>(m0: real, m: real, nodes: set<K>, scores: Table<K>, next: Table<K>)
  {
    && m >= m0
    && (forall v :: v in nodes ==> Grank.DiffAt(scores, next, v) <= m)
    && (m == m0 || exists v :: v in nodes && m == Grank.DiffAt(scores, next, v))
  }

  /**
   * combineMaps over part[r.beg..r.end]: every node of the range gets its
   * rebuilt basket, read from the snapshot `scores` only and trimmed to L;
   * no other basket of nextScores is written; maxDiff is raised over the
   * distances of the new baskets from the old ones.
   */
  method CombineMaps<K(!new)>(part: seq<K>, r: Range, g: Graph<K>, scores: Table<K>,
                              nextScores: Table<K>, maxDiff: real, topL: nat, d: real)
    returns (next: Table<K>, maxDiff': real)
    requires r.beg <= r.end <= |part| && Distinct(part) && Nodes(part, r.beg, r.end) <= g.Keys
    ensures WritesOnly(nextScores, next, Nodes(part, r.beg, r.end))
    ensures Grank.RebuiltAll(g, d, topL, scores, Nodes(part, r.beg, r.end), next)
    ensures RaisedTo(maxDiff, maxDiff', Nodes(part, r.beg, r.end), scores, next)
  {
    ghost var nodes := Nodes(part, r.beg, r.end);
    next, maxDiff' := nextScores, maxDiff;
    ghost var done: set<K> := {};
    var i := r.beg;
    while i < r.end
      invariant r.beg <= i <= r.end && DoneBefore(part, r, i, nodes, done)
      invariant WritesOnly(nextScores, next, done)
      invariant Grank.RebuiltAll(g, d, topL, scores, done, next)
      invariant RaisedTo(maxDiff, maxDiff', done, scores, next)
      decreases r.end - i
    {
      var v := part[i];
      DoneStep(part, r, i, nodes, done);
      var basket, diff := Grank.UpdateOne(g, d, topL, scores, v);
      Grank.RebuiltStep(g, d, topL, scores, done, next, v, basket);
      RaiseStep(maxDiff, maxDiff', done, scores, next, v, basket, diff);
      WriteStep(nextScores, next, done, v, basket);
      maxDiff' := Max(maxDiff', diff);
      next := next[v := basket];
      done := done + {v};
      i := i + 1;
    }
    NodesCovered(part, r, done);
  }

  /** Of the nodes of part[r.beg..r.end], exactly those before index i are in `done`. */
  ghost predicate DoneBefore<K>(part: seq<K>, r: Range, i: nat, nodes: set<K>, done: set<K>)
    requires r.beg <= i <= r.end <= |part|
  {
    && done <= nodes
    && (forall j :: r.beg <= j < i ==> part[j] in done)
    && (forall j :: i <= j < r.end ==> part[j] !in done)
  }

  lemma DoneStep<K>(part: seq<K>, r: Range, i: nat, nodes: set<K>, done: set<K>)
    requires r.beg <= i < r.end <= |part| && Distinct(part) && nodes == Nodes(part, r.beg, r.end)
    requires DoneBefore(part, r, i, nodes, done)
    ensures DoneBefore(part, r, i + 1, nodes, done + {part[i]})
    ensures part[i] !in done && part[i] in nodes
  {
    NodesAt(part, r.beg, r.end, part[i]);
  }

  /** At the end of the range, `done` holds all its nodes. */
  lemma NodesCovered<K>(part: seq<K>, r: Range, done: set<K>)
    requires r.beg <= r.end <= |part| && DoneBefore(part, r, r.end, Nodes(part, r.beg, r.end), done)
    ensures done == Nodes(part, r.beg, r.end)
  {
    forall x | x in Nodes(part, r.beg, r.end) ensures x in done {
      NodesAt(part, r.beg, r.end, x);
    }
  }

  lemma WriteStep<K(!new)>(nextScores: Table<K>, next: Table<K>, done: set<K>, v: K, basket: Basket<K>)
    requires WritesOnly(nextScores, next, done)
    ensures WritesOnly(nextScores, next[v := basket], done + {v})
  {
  }

  /** One more node taken into the running maximum. */
  lemma RaiseStep<K>(m0: real, m: real, done: set<K>, scores: Table<K>, next: Table<K>,
                     v: K, basket: Basket<K>, diff: real)
    requires RaisedTo(m0, m, done, scores, next) && v !in done
    requires diff == Baskets.Norm1Spec(basket, Grank.Lookup(scores, v))
    ensures RaisedTo(m0, Max(m, diff), done + {v}, scores, next[v := basket])
  {
    var next' := next[v := basket];
    assert Grank.Lookup(next', v) == basket;
    forall u | u in done ensures Grank.DiffAt(scores, next', u) == Grank.DiffAt(scores, next, u) {
      assert Grank.Lookup(next', u) == Grank.Lookup(next, u);
    }
  }

  // ---------------------------------------------------------------------
  // The threads of a round
  // ---------------------------------------------------------------------

  /**
   * The threads before thread t (whose chunks end at index hi) are done:
   * the nodes of part[..hi] hold their rebuilt baskets, nothing else of
   * nextScores was written, and the maximum of the first t thread slots is
   * the largest distance over part[..hi].
   */
  ghost predicate ThreadsDone<K(!new)>(g: Graph<K>, d: real, topL: nat, scores: Table<K>,
                                       nextScores: Table<K>, part: seq<K>, hi: nat,
                                       maxDiffs: seq<real>, t: nat, next: Table<K>)
    requires hi <= |part| && t <= |maxDiffs|
  {
    && WritesOnly(nextScores, next, Nodes(part, 0, hi))
    && Grank.RebuiltAll(g, d, topL, scores, Nodes(part, 0, hi), next)
    && Grank.IsMaxDiff(MaxOf(maxDiffs[..t]), Nodes(part, 0, hi), scores, next)
  }

  /**
   * One round's threads: thread t runs combineMaps over ranges[t] with its
   * own maxDiff slot starting at 0. The chunks are disjoint, so running
   * the threads one after the other gives the same tables.
   */
  method RunThreads<K(!new)>(g: Graph<K>, d: real, topL: nat, part: seq<K>, ranges: seq<Range>,
                             scores: Table<K>, nextScores: Table<K>)
    returns (next: Table<K>, maxDiffs: seq<real>)
    requires Distinct(part) && Contents(part) <= g.Keys && EndToEnd(ranges, |part|)
    ensures |maxDiffs| == |ranges|
    ensures WritesOnly(nextScores, next, Contents(part))
    ensures Grank.RebuiltAll(g, d, topL, scores, Contents(part), next)
    ensures Grank.IsMaxDiff(MaxOf(maxDiffs), Contents(part), scores, next)
  {
    var n := |ranges|;
    next := nextScores;
    maxDiffs := seq(n, _ => 0.0);
    ghost var lo := 0;
    for t := 0 to n
      invariant |maxDiffs| == n
      invariant forall u :: t <= u < n ==> maxDiffs[u] == 0.0
      invariant lo <= |part| && (t < n ==> lo == ranges[t].beg) && (t == n ==> lo == |part|)
      invariant ThreadsDone(g, d, topL, scores, nextScores, part, lo, maxDiffs, t, next)
    {
      var r := ranges[t];
      next, maxDiffs := RunThread(g, d, topL, part, r, scores, nextScores, next, maxDiffs, t);
      lo := r.end;
    }
    ThreadsFinished(g, d, topL, scores, nextScores, part, maxDiffs, next);
  }

  /** Once every thread is done, all of part is rebuilt and the slots' maximum is the round's. */
  lemma ThreadsFinished<K(!new)>(g: Graph<K>, d: real, topL: nat, scores: Table<K>, nextScores: Table<K>,
                                 part: seq<K>, maxDiffs: seq<real>, next: Table<K>)
    requires ThreadsDone(g, d, topL, scores, nextScores, part, |part|, maxDiffs, |maxDiffs|, next)
    ensures WritesOnly(nextScores, next, Contents(part))
    ensures Grank.RebuiltAll(g, d, topL, scores, Contents(part), next)
    ensures Grank.IsMaxDiff(MaxOf(maxDiffs), Contents(part), scores, next)
  {
    assert maxDiffs[..|maxDiffs|] == maxDiffs;
  }

  /** Thread t runs combineMaps over its chunk r, which follows the chunks of the threads before it. */
  method RunThread<K(!new)>(g: Graph<K>, d: real, topL: nat, part: seq<K>, r: Range, scores: Table<K>,
                            nextScores: Table<K>, next: Table<K>, maxDiffs: seq<real>, t: nat)
    returns (next': Table<K>, maxDiffs': seq<real>)
    requires Distinct(part) && Contents(part) <= g.Keys && r.beg <= r.end <= |part|
    requires t < |maxDiffs| && maxDiffs[t] == 0.0
    requires ThreadsDone(g, d, topL, scores, nextScores, part, r.beg, maxDiffs, t, next)
    ensures |maxDiffs'| == |maxDiffs| && maxDiffs' == maxDiffs[t := maxDiffs'[t]]
    ensures ThreadsDone(g, d, topL, scores, nextScores, part, r.end, maxDiffs', t + 1, next')
  {
    NodesSplit(part, 0, r.beg, r.end);
    NodesSplit(part, 0, r.end, |part|);
    var m;
    next', m := CombineMaps(part, r, g, scores, next, maxDiffs[t], topL, d);
    ThreadStep(g, d, topL, scores, nextScores, part, r, maxDiffs, t, next, next', m);
    maxDiffs' := maxDiffs[t := m];
  }

  /** Thread t's chunk joins the chunks before it. */
  lemma ThreadStep<K(!new)>(g: Graph<K>, d: real, topL: nat, scores: Table<K>, nextScores: Table<K>,
                            part: seq<K>, r: Range, maxDiffs: seq<real>, t: nat,
                            next: Table<K>, next': Table<K>, m: real)
    requires r.beg <= r.end <= |part| && Distinct(part) && t < |maxDiffs| && maxDiffs[t] == 0.0
    requires ThreadsDone(g, d, topL, scores, nextScores, part, r.beg, maxDiffs, t, next)
    requires WritesOnly(next, next', Nodes(part, r.beg, r.end))
    requires Grank.RebuiltAll(g, d, topL, scores, Nodes(part, r.beg, r.end), next')
    requires RaisedTo(0.0, m, Nodes(part, r.beg, r.end), scores, next')
    ensures ThreadsDone(g, d, topL, scores, nextScores, part, r.end, maxDiffs[t := m], t + 1, next')
  {
    var done, chunk := Nodes(part, 0, r.beg), Nodes(part, r.beg, r.end);
    NodesSplit(part, 0, r.beg, r.end);
    var maxDiffs' := maxDiffs[t := m];
    assert maxDiffs'[..t + 1][..t] == maxDiffs[..t];
    WritesJoin(nextScores, next, next', done, chunk);
    RebuiltJoin(g, d, topL, scores, done, chunk, next, next');
    MaxJoin(MaxOf(maxDiffs[..t]), m, done, chunk, scores, next, next');
  }

  lemma WritesJoin<K(!new)>(before: Table<K>, mid: Table<K>, after: Table<K>, a: set<K>, b: set<K>)
    requires WritesOnly(before, mid, a) && WritesOnly(mid, after, b)
    ensures WritesOnly(before, after, a + b)
  {
  }

  lemma RebuiltJoin<K(!new)>(g: Graph<K>, d: real, topL: nat, scores: Table<K>, a: set<K>, b: set<K>,
                             next: Table<K>, next': Table<K>)
    requires a !! b && WritesOnly(next, next', b)
    requires Grank.RebuiltAll(g, d, topL, scores, a, next)
    requires Grank.RebuiltAll(g, d, topL, scores, b, next')
    ensures Grank.RebuiltAll(g, d, topL, scores, a + b, next')
  {
  }

  /** The maximum over a, raised by the distances over b (written after a), is the maximum over both. */
  lemma MaxJoin<K(!new)>(m0: real, m: real, a: set<K>, b: set<K>, scores: Table<K>,
                         next: Table<K>, next': Table<K>)
    requires a !! b && WritesOnly(next, next', b)
    requires Grank.IsMaxDiff(m0, a, scores, next)
    requires RaisedTo(0.0, m, b, scores, next')
    ensures Grank.IsMaxDiff(Max(m0, m), a + b, scores, next')
  {
    forall v | v in a ensures Grank.DiffAt(scores, next', v) == Grank.DiffAt(scores, next, v) {
      assert Grank.Lookup(next', v) == Grank.Lookup(next, v);
    }
  }

  // ---------------------------------------------------------------------
  // The rounds
  // ---------------------------------------------------------------------

  /** The two copies of the engine: the maintained one and the header-only one. */
  datatype Variant = Maintained | HeaderOnly

  /** The chunk bounds of a round, each copy computing them its own way. */
  method Ranges(variant: Variant, size: nat, nThreads: nat) returns (ranges: seq<Range>)
    requires 0 < nThreads < SizeModulus
    ensures |ranges| == nThreads
    ensures forall t :: 0 <= t < nThreads ==> ranges[t] == ChunkRange(size, nThreads, t)
  {
    match variant
    case Maintained => ranges := MaintainedRanges(size, nThreads);
    case HeaderOnly => ranges := HeaderOnlyRanges(size, nThreads);
  }

  /**
   * One round: the threads rebuild the nodes of `active` from scores into
   * nextScores, the baskets of `idle` are carried over, the threads'
   * maxima are reduced into the round's distance, and the tables swap.
   */
  method MultiRound<K(!new)>(variant: Variant, g: Graph<K>, d: real, topL: nat, nThreads: nat,
                             active: seq<K>, idle: seq<K>, ghost A: set<K>, ghost I: set<K>,
                             scores: Table<K>, nextScores: Table<K>)
    returns (scores': Table<K>, nextScores': Table<K>, diff: real)
    requires 0 < nThreads < SizeModulus
    requires Lists(active, A) && Lists(idle, I)
    requires A + I == g.Keys && A !! I
    requires scores.Keys == g.Keys && nextScores.Keys <= g.Keys
    ensures Grank.IsRound(g, d, topL, A, scores, scores', diff)
    ensures scores'.Keys == g.Keys && nextScores'.Keys == g.Keys
  {
    ListsMeaning(active, A);
    ListsMeaning(idle, I);
    var ranges := Ranges(variant, |active|, nThreads);
    ChunksEndToEnd(ranges, |active|);
    var updated, maxDiffs := RunThreads(g, d, topL, active, ranges, scores, nextScores);
    var stale, carried := CarryVector(idle, scores, updated);
    diff := ReduceMax(maxDiffs);
    scores', nextScores' := carried, stale;
    assert Contents(active) <= updated.Keys <= g.Keys;
    Grank.RoundAssembled(g, d, topL, Contents(active), Contents(idle), scores, updated, carried, diff);
  }

  /**
   * The carry-over loop over the vector of the set that was not rebuilt:
   * each of its baskets is swapped from scores into nextScores (what
   * scores receives in exchange is never read again).
   */
  method CarryVector<K(!new)>(idle: seq<K>, scores: Table<K>, nextScores: Table<K>)
    returns (scores': Table<K>, next: Table<K>)
    requires Distinct(idle)
    ensures next.Keys == nextScores.Keys + Contents(idle)
    ensures forall v :: v in Contents(idle) ==> next[v] == Grank.Lookup(scores, v)
    ensures forall v :: v in nextScores && v !in Contents(idle) ==> next[v] == nextScores[v]
    ensures scores'.Keys == scores.Keys + Contents(idle)
  {
    ghost var nodes := Contents(idle);
    ghost var done: set<K> := {};
    scores', next := scores, nextScores;
    for i := 0 to |idle|
      invariant DoneBefore(idle, Range(0, |idle|), i, nodes, done)
      invariant Grank.CarryInv(nodes, nodes - done, scores, nextScores, scores', next)
    {
      var v := idle[i];
      DoneStep(idle, Range(0, |idle|), i, nodes, done);
      var mine := Grank.Lookup(next, v);
      Grank.CarryStep(nodes, nodes - done, scores, nextScores, scores', next, v);
      assert nodes - done - {v} == nodes - (done + {v});
      next := next[v := Grank.Lookup(scores, v)];
      scores' := scores'[v := mine];
      done := done + {v};
    }
    NodesCovered(idle, Range(0, |idle|), done);
    assert nodes - done == {};
    Grank.CarryDone(nodes, scores, nextScores, scores', next);
  }

  /**
   * The body of the round loop: a round on the vector part0 (listing the
   * set s0), then the vectors, tables and slots swap.
   */
  method MultiOneRound<K(!new)>(variant: Variant, g: Graph<K>, d: real, topL: nat, tol: real,
                                nThreads: nat, ghost first: set<K>, ghost second: set<K>, ghost init: Table<K>,
                                ghost tables: seq<Table<K>>, ghost diffs: seq<real>,
                                scores: Table<K>, nextScores: Table<K>, part0: seq<K>, part1: seq<K>,
                                ghost s0: set<K>, ghost s1: set<K>, maxDiff0: real, maxDiff1: real)
    returns (ghost tables': seq<Table<K>>, ghost diffs': seq<real>, scores': Table<K>,
             nextScores': Table<K>, part0': seq<K>, part1': seq<K>, ghost s0': set<K>, ghost s1': set<K>,
             maxDiff0': real, maxDiff1': real)
    requires 0 < nThreads < SizeModulus
    requires Lists(part0, s0) && Lists(part1, s1)
    requires Grank.LoopState(g, d, topL, tol, first, second, init, tables, diffs,
                             scores, nextScores, s0, s1, maxDiff0, maxDiff1)
    requires Max(maxDiff0, maxDiff1) >= tol
    ensures Lists(part0', s0') && Lists(part1', s1')
    ensures Grank.LoopState(g, d, topL, tol, first, second, init, tables', diffs',
                            scores', nextScores', s0', s1', maxDiff0', maxDiff1')
    ensures |diffs'| == |diffs| + 1
  {
    Grank.ActivePair(g, first, second, |diffs|);
    var diff;
    scores', nextScores', diff := MultiRound(variant, g, d, topL, nThreads, part0, part1, s0, s1,
                                             scores, nextScores);
    Grank.SlotsTest(tol, diffs, maxDiff0, maxDiff1);
    Grank.RunExtend(g, d, topL, tol, first, second, tables, diffs, s0, scores, scores', diff);
    Grank.SlotsShift(tol, diffs, maxDiff0, maxDiff1, diff);
    Grank.ActiveAlternates(first, second, |diffs|);
    tables', diffs' := tables + [scores'], diffs + [diff];
    part0', part1' := part1, part0;
    s0', s1' := s1, s0;
    maxDiff0', maxDiff1' := diff, maxDiff1;
    maxDiff0', maxDiff1' := maxDiff1', maxDiff0';
  }

  /**
   * The round loop, from the initial table and the prefilled nextScores:
   * the same stop rule as the single-threaded engine.
   */
  method RunMultiRounds<K(!new)>(variant: Variant, g: Graph<K>, d: real, topL: nat, iterations: nat,
                                 tol: real, nThreads: nat, first: seq<K>, second: seq<K>,
                                 ghost F: set<K>, ghost S: set<K>, init: Table<K>, nextInit: Table<K>)
    returns (scores: Table<K>, ghost tables: seq<Table<K>>, ghost diffs: seq<real>)
    requires iterations > 0 && 0 < nThreads < SizeModulus
    requires Lists(first, F) && Lists(second, S)
    requires F + S == g.Keys && F !! S
    requires Grank.IsInit(g, d, topL, init) && nextInit.Keys <= g.Keys
    ensures |tables| == |diffs| + 1 && scores == tables[|diffs|] && scores.Keys == g.Keys
    ensures Grank.IsRun(g, d, topL, iterations, tol, F, S, tables, diffs)
  {
    scores := init;
    var nextScores := nextInit;
    var maxDiff0, maxDiff1 := tol, tol;
    var part0, part1 := first, second;
    ghost var s0, s1 := F, S;
    tables, diffs := [init], [];
    var i := 0;
    while i < iterations && Max(maxDiff0, maxDiff1) >= tol
      invariant i == |diffs| <= iterations
      invariant Lists(part0, s0) && Lists(part1, s1)
      invariant Grank.LoopState(g, d, topL, tol, F, S, init, tables, diffs,
                                scores, nextScores, s0, s1, maxDiff0, maxDiff1)
      decreases iterations - i
    {
      tables, diffs, scores, nextScores, part0, part1, s0, s1, maxDiff0, maxDiff1 :=
        MultiOneRound(variant, g, d, topL, tol, nThreads, F, S, init,
                      tables, diffs, scores, nextScores, part0, part1, s0, s1, maxDiff0, maxDiff1);
      i := i + 1;
    }
    Grank.SlotsTest(tol, diffs, maxDiff0, maxDiff1);
  }

  // ---------------------------------------------------------------------
  // The engine of include/grankMulti.h
  // ---------------------------------------------------------------------

  /**
   * The initialisation loop of include/grankMulti.h: each node's initial
   * basket trimmed to L in scores, and an empty basket in nextScores so
   * that the workers only overwrite existing entries.
   */
  method MultiInit<K>(g: Graph<K>, d: real, topL: nat) returns (scores: Table<K>, nextScores: Table<K>)
    ensures Grank.IsInit(g, d, topL, scores)
    ensures nextScores.Keys == g.Keys && Blank(nextScores)
  {
    scores, nextScores := map[], map[];
    var rest := g.Keys;
    while rest != {}
      invariant InitOutside(g, d, topL, rest, scores)
      invariant nextScores.Keys == scores.Keys && Blank(nextScores)
      decreases |rest|
    {
      var v :| v in rest;
      var successors := g[v];
      var basket := Oracle.AddShare(map[v := 1.0 - d], successors, Oracle.Factor(d, |successors|));
      basket := Baskets.KeepTop(topL, basket);
      InitStep(g, d, topL, rest, scores, v, basket);
      scores := scores[v := basket];
      nextScores := nextScores[v := map[]];
      rest := rest - {v};
    }
    assert g.Keys - rest == g.Keys;
  }

  /** Every basket of t is empty. */
  ghost predicate Blank<K>(t: Table<K>)
  {
    forall v :: v in t ==> t[v] == map[]
  }

  /** The nodes of the graph outside rest hold their initial baskets trimmed to L. */
  ghost predicate InitOutside<K>(g: Graph<K>, d: real, topL: nat, rest: set<K>, scores: Table<K>)
  {
    && rest <= g.Keys
    && scores.Keys == g.Keys - rest
    && (forall v :: v in scores ==> Baskets.IsTopOf(topL, Grank.InitBasket(g, d, v), scores[v]))
  }

  lemma InitStep<K>(g: Graph<K>, d: real, topL: nat, rest: set<K>, scores: Table<K>, v: K, basket: Basket<K>)
    requires InitOutside(g, d, topL, rest, scores) && v in rest
    requires Baskets.IsTopOf(topL, Grank.InitBasket(g, d, v), basket)
    ensures InitOutside(g, d, topL, rest - {v}, scores[v := basket])
  {
    assert scores[v := basket].Keys == g.Keys - (rest - {v});
  }

  /**
   * grankMulti of include/grankMulti.h: the checks, the initial tables,
   * the bipartition copied into two vectors, the rounds split among
   * nThreads workers, and the final trim to K. It returns what grank
   * returns on the same graph and parameters.
   */
  method MaintainedGrankMulti<K(!new)>(g: Graph<K>, topK: nat, topL: nat, iterations: nat, d: real,
                                       tol: real, nThreads: nat)
    returns (r: Result<Table<K>, K>)
    requires Closed(g) && nThreads < SizeModulus
    ensures CheckMultiParams<K>(topK, topL, iterations, d, nThreads).Some? ==>
              r == Err(CheckMultiParams<K>(topK, topL, iterations, d, nThreads).value)
    ensures CheckMultiParams<K>(topK, topL, iterations, d, nThreads).None? ==>
              r.Ok? && Grank.IsGrankResult(g, topK, topL, iterations, d, tol, r.value)
  {
    var check := CheckMultiParams<K>(topK, topL, iterations, d, nThreads);
    if check.Some? {
      return Err(check.value);
    }
    var init, nextInit := MultiInit(g, d, topL);
    var scores, first, second, tables, diffs := PartitionedRounds(Maintained, g, d, topL, iterations, tol,
                                                                  nThreads, init, nextInit);
    var result := Grank.FinalTrim(topK, scores);
    assert Grank.IsGrankRun(g, topK, topL, iterations, d, tol, first, second, tables, diffs, result);
    r := Ok(result);
  }

  /**
   * The bipartition copied into two vectors, then the rounds over them
   * split among nThreads workers.
   */
  method PartitionedRounds<K(!new)>(variant: Variant, g: Graph<K>, d: real, topL: nat, iterations: nat,
                                    tol: real, nThreads: nat, init: Table<K>, nextInit: Table<K>)
    returns (scores: Table<K>, ghost first: set<K>, ghost second: set<K>,
             ghost tables: seq<Table<K>>, ghost diffs: seq<real>)
    requires Closed(g) && iterations > 0 && 0 < nThreads < SizeModulus
    requires Grank.IsInit(g, d, topL, init) && nextInit.Keys <= g.Keys
    ensures Grank.IsPartition(g, first, second)
    ensures Grank.IsRun(g, d, topL, iterations, tol, first, second, tables, diffs)
    ensures |tables| == |diffs| + 1 && scores == tables[|diffs|] && scores.Keys == g.Keys
  {
    var firstSet, secondSet, seeds, parent, depth, root := Partitions.FindPartitions(g);
    first, second := firstSet, secondSet;
    var firstV := ToVector(firstSet);
    var secondV := ToVector(secondSet);
    scores, tables, diffs := RunMultiRounds(variant, g, d, topL, iterations, tol, nThreads,
                                            firstV, secondV, first, second, init, nextInit);
  }
}
