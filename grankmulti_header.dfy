/**
 * What header-only/grankMulti.h does beyond the maintained engine: the
 * key vector and the prefilled tables, and the two extra loops it splits
 * among the workers, the initialisation and the final trim to K, over the
 * same chunks of the key vector.
 */
module GrankMultiHeader {
  import opened Common
  import Baskets
  import Oracle
  import Partitions
  import Grank
  import opened GrankMulti

  // ---------------------------------------------------------------------
  // The key vector and the prefilled tables
  // ---------------------------------------------------------------------

  /**
   * The first loop: each key of the graph pushed onto allKeys, and an
   * empty basket inserted for it in both tables.
   */
  method Prefill<K>(g: Graph<K>) returns (allKeys: seq<K>, scores: Table<K>, nextScores: Table<K>)
    ensures Lists(allKeys, g.Keys)
    ensures scores.Keys == g.Keys && Blank(scores) && nextScores == scores
  {
    allKeys, scores, nextScores := [], map[], map[];
    var rest := g.Keys;
    while rest != {}
      invariant rest <= g.Keys && Lists(allKeys, g.Keys - rest)
      invariant scores.Keys == g.Keys - rest && Blank(scores) && nextScores == scores
      decreases |rest|
    {
      var k :| k in rest;
      assert (allKeys + [k])[..|allKeys|] == allKeys;
      assert g.Keys - (rest - {k}) - {k} == g.Keys - rest;
      allKeys := allKeys + [k];
      scores := scores[k := map[]];
      nextScores := nextScores[k := map[]];
      rest := rest - {k};
    }
    assert g.Keys - rest == g.Keys;
  }

  // ---------------------------------------------------------------------
  // The per-node work of the two extra loops
  // ---------------------------------------------------------------------

  /** The two loops the workers share besides the rounds. */
  datatype Job = InitJob(d: real, topL: nat) | TrimJob(topK: nat)

  /**
   * The job's result for node v whose basket held prior: the initialisation
   * sets v's own entry to 1 - d, adds d / outdeg once per edge and keeps
   * the L best; the trim keeps the K best.
   */
  ghost predicate JobDone<K>(job: Job, g: Graph<K>, v: K, prior: Basket<K>, basket: Basket<K>)
  {
    match job
    case InitJob(d, topL) =>
      v in g && Baskets.IsTopOf(topL, Oracle.Spread(prior[v := 1.0 - d], g[v], Oracle.Factor(d, |g[v]|)), basket)
    case TrimJob(topK) => Baskets.IsTopOf(topK, prior, basket)
  }

  /** Every node of `nodes` holds in `after` the job's result on its basket in `before`. */
  ghost predicate JobAll<K>(job: Job, g: Graph<K>, before: Table<K>, nodes: set<K>, after: Table<K>)
  {
    forall v :: v in nodes ==> v in after && JobDone(job, g, v, Grank.Lookup(before, v), after[v])
  }

  /** The body of a worker's loop for one node. */
  method DoJob<K>(job: Job, g: Graph<K>, v: K, prior: Basket<K>) returns (basket: Basket<K>)
    requires v in g
    ensures JobDone(job, g, v, prior, basket)
  {
    match job
    case InitJob(d, topL) =>
      var successors := g[v];
      basket := Oracle.AddShare(prior[v := 1.0 - d], successors, Oracle.Factor(d, |successors|));
      basket := Baskets.KeepTop(topL, basket);
    case TrimJob(topK) =>
      basket := Baskets.KeepTop(topK, prior);
  }

  /** One worker: the job on each node of part[r.beg..r.end], in place in t. */
  method ChunkJob<K(!new)>(job: Job, g: Graph<K>, part: seq<K>, r: Range, t: Table<K>)
    returns (t': Table<K>)
    requires r.beg <= r.end <= |part| && Distinct(part) && Nodes(part, r.beg, r.end) <= g.Keys
    ensures WritesOnly(t, t', Nodes(part, r.beg, r.end))
    ensures JobAll(job, g, t, Nodes(part, r.beg, r.end), t')
  {
    ghost var nodes := Nodes(part, r.beg, r.end);
    t' := t;
    ghost var done: set<K> := {};
    var i := r.beg;
    while i < r.end
      invariant r.beg <= i <= r.end && DoneBefore(part, r, i, nodes, done)
      invariant WritesOnly(t, t', done)
      invariant JobAll(job, g, t, done, t')
      decreases r.end - i
    {
      var v := part[i];
      DoneStep(part, r, i, nodes, done);
      var basket := DoJob(job, g, v, Grank.Lookup(t', v));
      JobStep(job, g, t, t', done, v, basket);
      WriteStep(t, t', done, v, basket);
      t' := t'[v := basket];
      done := done + {v};
      i := i + 1;
    }
    NodesCovered(part, r, done);
  }

  /** A node not written yet still holds its basket from before. */
  lemma JobStep<K(!new)>(job: Job, g: Graph<K>, t: Table<K>, cur: Table<K>, done: set<K>,
                         v: K, basket: Basket<K>)
    requires WritesOnly(t, cur, done) && JobAll(job, g, t, done, cur) && v !in done
    requires JobDone(job, g, v, Grank.Lookup(cur, v), basket)
    ensures JobAll(job, g, t, done + {v}, cur[v := basket])
  {
    assert Grank.Lookup(cur, v) == Grank.Lookup(t, v);
  }

  /**
   * The workers of one loop, one after another over the chunks of part:
   * every node of part gets the job's result on its basket in t, and
   * nothing else changes.
   */
  method RunJob<K(!new)>(job: Job, g: Graph<K>, part: seq<K>, ranges: seq<Range>, t: Table<K>)
    returns (t': Table<K>)
    requires Distinct(part) && Contents(part) <= g.Keys && |ranges| > 0
    requires forall i :: 0 <= i < |ranges| ==> ranges[i] == ChunkRange(|part|, |ranges|, i)
    ensures WritesOnly(t, t', Contents(part))
    ensures JobAll(job, g, t, Contents(part), t')
  {
    var n := |ranges|;
    t' := t;
    for i := 0 to n
      invariant Cut(|part|, n, i) <= |part|
      invariant WritesOnly(t, t', Nodes(part, 0, Cut(|part|, n, i)))
      invariant JobAll(job, g, t, Nodes(part, 0, Cut(|part|, n, i)), t')
    {
      var r := ranges[i];
      CutMonotone(|part|, n, i, i + 1);
      NodesSplit(part, 0, r.beg, r.end);
      NodesSplit(part, 0, r.end, |part|);
      var next := ChunkJob(job, g, part, r, t');
      WritesJoin(t, t', next, Nodes(part, 0, r.beg), Nodes(part, r.beg, r.end));
      JobJoin(job, g, t, t', next, Nodes(part, 0, r.beg), Nodes(part, r.beg, r.end));
      t' := next;
    }
    CutMonotone(|part|, n, n, n);
  }

  /** The chunk written after the chunks before it: both hold the job's results. */
  lemma JobJoin<K(!new)>(job: Job, g: Graph<K>, t: Table<K>, mid: Table<K>, after: Table<K>,
                         a: set<K>, b: set<K>)
    requires a !! b && WritesOnly(t, mid, a) && WritesOnly(mid, after, b)
    requires JobAll(job, g, t, a, mid) && JobAll(job, g, mid, b, after)
    ensures JobAll(job, g, t, a + b, after)
  {
    forall v | v in b ensures Grank.Lookup(mid, v) == Grank.Lookup(t, v) {
    }
  }

  /** The initialisation over blank baskets gives the initial table. */
  lemma InitFromBlank<K(!new)>(g: Graph<K>, d: real, topL: nat, t: Table<K>, t': Table<K>)
    requires t.Keys == g.Keys && Blank(t)
    requires WritesOnly(t, t', g.Keys) && JobAll(InitJob(d, topL), g, t, g.Keys, t')
    ensures Grank.IsInit(g, d, topL, t')
  {
    assert t'.Keys == g.Keys;
    forall v | v in g ensures Baskets.IsTopOf(topL, Grank.InitBasket(g, d, v), t'[v]) {
      assert Grank.Lookup(t, v) == map[];
      InitJobBlank(g, d, topL, v, t'[v]);
    }
  }

  /** On a blank basket the initialisation job builds the initial basket. */
  lemma InitJobBlank<K>(g: Graph<K>, d: real, topL: nat, v: K, basket: Basket<K>)
    requires JobDone(InitJob(d, topL), g, v, map[], basket)
    ensures Baskets.IsTopOf(topL, Grank.InitBasket(g, d, v), basket)
  {
    assert map[][v := 1.0 - d] == map[v := 1.0 - d];
  }

  /** The trim over every key gives each basket's K best. */
  lemma TrimmedFrom<K(!new)>(g: Graph<K>, topK: nat, t: Table<K>, t': Table<K>)
    requires t.Keys == g.Keys
    requires WritesOnly(t, t', g.Keys) && JobAll(TrimJob(topK), g, t, g.Keys, t')
    ensures Grank.IsTrimmed(topK, t, t')
  {
    assert t'.Keys == t.Keys;
  }

  /** The initialisation loop, split among the workers over the chunks of allKeys. */
  method ChunkedInit<K(!new)>(g: Graph<K>, d: real, topL: nat, allKeys: seq<K>, ranges: seq<Range>,
                              blank: Table<K>)
    returns (init: Table<K>)
    requires Lists(allKeys, g.Keys) && blank.Keys == g.Keys && Blank(blank) && |ranges| > 0
    requires forall i :: 0 <= i < |ranges| ==> ranges[i] == ChunkRange(|allKeys|, |ranges|, i)
    ensures Grank.IsInit(g, d, topL, init)
  {
    ListsMeaning(allKeys, g.Keys);
    init := RunJob(InitJob(d, topL), g, allKeys, ranges, blank);
    InitFromBlank(g, d, topL, blank, init);
  }

  /** The final loop, split among the workers over the same chunks of allKeys. */
  method ChunkedTrim<K(!new)>(g: Graph<K>, topK: nat, allKeys: seq<K>, ranges: seq<Range>,
                              scores: Table<K>)
    returns (result: Table<K>)
    requires Lists(allKeys, g.Keys) && scores.Keys == g.Keys && |ranges| > 0
    requires forall i :: 0 <= i < |ranges| ==> ranges[i] == ChunkRange(|allKeys|, |ranges|, i)
    ensures Grank.IsTrimmed(topK, scores, result)
  {
    ListsMeaning(allKeys, g.Keys);
    result := RunJob(TrimJob(topK), g, allKeys, ranges, scores);
    TrimmedFrom(g, topK, scores, result);
  }

  // ---------------------------------------------------------------------
  // The engine
  // ---------------------------------------------------------------------

  /**
   * grankMulti of header-only/grankMulti.h: the checks, the key vector and
   * prefilled tables, the initialisation split among the workers, the
   * bipartition copied into two vectors, the rounds, and the trim to K
   * split among the workers over the same chunks as the initialisation.
   * It returns what grank returns on the same graph and parameters.
   */
  method HeaderOnlyGrankMulti<K(!new)>(g: Graph<K>, topK: nat, topL: nat, iterations: nat, d: real,
                                       tol: real, nThreads: nat)
    returns (r: Result<Table<K>, K>)
    requires Closed(g) && nThreads < SizeModulus
    ensures CheckMultiParams<K>(topK, topL, iterations, d, nThreads).Some? ==>
              r == Err(CheckMultiParams<K>(topK, topL, iterations, d, nThreads).value)
    ensures CheckMultiParams<K>(topK, topL, iterations, d, nThreads).None? ==>
              r.Ok? && Grank.IsGrankResult(g, topK, topL, iterations, d, tol, r.value)
  {
    var check := CheckMultiParams<K>(topK, topL, iterations, d, nThreads);
    if check.Some? {
      return Err(check.value);
    }
    var allKeys, blank, nextInit := Prefill(g);
    var ranges := HeaderOnlyRanges(|allKeys|, nThreads);
    var init := ChunkedInit(g, d, topL, allKeys, ranges, blank);
    var scores, first, second, tables, diffs := PartitionedRounds(HeaderOnly, g, d, topL, iterations, tol,
                                                                  nThreads, init, nextInit);
    var result := ChunkedTrim(g, topK, allKeys, ranges, scores);
    assert Grank.IsGrankRun(g, topK, topL, iterations, d, tol, first, second, tables, diffs, result);
    r := Ok(result);
  }
}
