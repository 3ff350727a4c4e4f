/**
 * The exact single-source personalized PageRank used as the benchmark's
 * reference (include/pprSingleSource.h): plain power iteration from one
 * source node, the whole teleport mass going back to the source.
 */
module Oracle {
  import opened Common
  import Baskets

  // ---------------------------------------------------------------------
  // One round, as a function of the previous scores
  // ---------------------------------------------------------------------

  /** The teleport share: 1 - d for the source, nothing for other nodes. */
  function Teleport<K(==)>(d: real, src: K, k: K): real
  {
    if k == src then 1.0 - d else 0.0
  }

  /**
   * What father f sends to k in one round: its score times d / outdeg, once
   * per occurrence of k in its successor list. An unscored father sends
   * nothing.
   */
  function Contribution<K(==)>(g: Graph<K>, d: real, scores: Basket<K>, f: K, k: K): real
  {
    if f in scores then ContributionOf(g, d, f, scores[f], k) else 0.0
  }

  /** What father f with the given score sends to k; without successors, nothing. */
  function ContributionOf<K(==)>(g: Graph<K>, d: real, f: K, score: real, k: K): real
  {
    if f in g && |g[f]| > 0
    then Times(EdgeShare(score, Factor(d, |g[f]|)), Occurrences(g[f], k))
    else 0.0
  }

  /** d / outdeg, the fraction of its score a father sends along each edge. */
  function Factor(d: real, outdeg: nat): real
  {
    if outdeg == 0 then 0.0 else d / (outdeg as real)
  }

  /** What a father with the given score sends along each edge. */
  function EdgeShare(score: real, factor: real): real
  {
    score * factor
  }

  /** What k receives from the fathers of fs in one round. */
  ghost function Received<K>(g: Graph<K>, d: real, scores: Basket<K>, fs: set<K>, k: K): real
    decreases |fs|
  {
    if fs == {} then 0.0
    else
      var f :| f in fs;
      Contribution(g, d, scores, f, k) + Received(g, d, scores, fs - {f}, k)
  }

  /** Contribution as a function of the father, for sums over sets. */
  function Share<K(==)>(g: Graph<K>, d: real, scores: Basket<K>, k: K): K -> real
  {
    f => Contribution(g, d, scores, f, k)
  }

  /** Received is the sum of the contributions, whatever order the fathers are taken in. */
  lemma {:induction false} ReceivedIsSum<K>(g: Graph<K>, d: real, scores: Basket<K>, fs: set<K>, k: K)
    ensures Received(g, d, scores, fs, k) == SumSet(fs, Share(g, d, scores, k))
    decreases |fs|
  {
    if fs != {} {
      var f :| f in fs && Received(g, d, scores, fs, k)
                          == Contribution(g, d, scores, f, k) + Received(g, d, scores, fs - {f}, k);
      ReceivedIsSum(g, d, scores, fs - {f}, k);
      SumSetRemove(fs, f, Share(g, d, scores, k));
    }
  }

  lemma ReceivedAdd<K>(g: Graph<K>, d: real, scores: Basket<K>, fs: set<K>, f: K, k: K)
    requires f !in fs
    ensures Received(g, d, scores, fs + {f}, k)
            == Received(g, d, scores, fs, k) + Contribution(g, d, scores, f, k)
  {
    ReceivedIsSum(g, d, scores, fs, k);
    ReceivedIsSum(g, d, scores, fs + {f}, k);
    SumSetAdd(fs, f, Share(g, d, scores, k));
  }

  /** A node that is no successor of any father of fs receives nothing from them. */
  lemma ReceivedNone<K>(g: Graph<K>, d: real, scores: Basket<K>, fs: set<K>, k: K)
    requires k !in Successors(g, fs)
    ensures Received(g, d, scores, fs, k) == 0.0
  {
    ReceivedIsSum(g, d, scores, fs, k);
    SuccessorsIff(g, fs, k);
    forall f | f in fs ensures Share(g, d, scores, k)(f) == 0.0 {
      if f in g {
        assert k !in Out(g, f);
        OccursIff(g[f], k);
      }
    }
    SumSetZero(fs, Share(g, d, scores, k));
  }

  /** With non-negative scores and d every father sends a non-negative amount. */
  lemma ContributionNonNegative<K>(g: Graph<K>, d: real, scores: Basket<K>, f: K, k: K)
    requires d >= 0.0 && NonNegative(scores)
    ensures Contribution(g, d, scores, f, k) >= 0.0
  {
    if f in scores && f in g && |g[f]| > 0 {
      assert Factor(d, |g[f]|) >= 0.0;
      TimesNonNegative(EdgeShare(scores[f], Factor(d, |g[f]|)), Occurrences(g[f], k));
    }
  }

  /** The successors of f, none when f is not a node. */
  function Out<K>(g: Graph<K>, f: K): set<K>
  {
    if f in g then Elems(g[f]) else {}
  }

  /** The direct successors of the nodes of fs. */
  ghost function Successors<K>(g: Graph<K>, fs: set<K>): set<K>
    decreases |fs|
  {
    if fs == {} then {}
    else
      var f :| f in fs;
      Out(g, f) + Successors(g, fs - {f})
  }

  /** A successor of fs is a successor of one of its nodes, whatever order they are taken in. */
  lemma {:induction false} SuccessorsIff<K>(g: Graph<K>, fs: set<K>, s: K)
    ensures s in Successors(g, fs) <==> exists f :: f in fs && s in Out(g, f)
    decreases |fs|
  {
    if fs != {} {
      var f :| f in fs && Successors(g, fs) == Out(g, f) + Successors(g, fs - {f});
      SuccessorsIff(g, fs - {f}, s);
      if exists f' :: f' in fs && s in Out(g, f') {
        var f' :| f' in fs && s in Out(g, f');
        if f' != f {
          assert f' in fs - {f};
        }
      }
    }
  }

  lemma SuccessorsAdd<K>(g: Graph<K>, fs: set<K>, f: K)
    ensures Successors(g, fs + {f}) == Successors(g, fs) + Out(g, f)
  {
    forall s | s in Successors(g, fs + {f}) ensures s in Successors(g, fs) + Out(g, f) {
      SuccessorsIff(g, fs + {f}, s);
      SuccessorsIff(g, fs, s);
    }
    forall s | s in Successors(g, fs) + Out(g, f) ensures s in Successors(g, fs + {f}) {
      SuccessorsIff(g, fs + {f}, s);
      SuccessorsIff(g, fs, s);
      if s !in Out(g, f) {
        var f' :| f' in fs && s in Out(g, f');
        assert f' in fs + {f};
      }
    }
  }

  lemma SuccessorsOfOne<K>(g: Graph<K>, v: K)
    ensures Successors(g, {v}) == Out(g, v)
  {
    SuccessorsAdd(g, {}, v);
    assert {} + {v} == {v};
  }

  /** In a closed graph the successors of any nodes are nodes. */
  lemma SuccessorsInGraph<K>(g: Graph<K>, fs: set<K>)
    requires Closed(g)
    ensures Successors(g, fs) <= g.Keys
  {
    forall s | s in Successors(g, fs) ensures s in g {
      SuccessorsIff(g, fs, s);
    }
  }

  /**
   * The scores after one round: the source and every successor of a scored
   * node get the teleport share plus what their fathers send them.
   */
  ghost function NextScores<K>(g: Graph<K>, d: real, src: K, scores: Basket<K>): Basket<K>
  {
    MapOf({src} + Successors(g, scores.Keys), k => NextScore(g, d, src, scores, k))
  }

  /** The scored nodes after a round and their scores. */
  lemma NextScoresMeaning<K>(g: Graph<K>, d: real, src: K, scores: Basket<K>)
    ensures NextScores(g, d, src, scores).Keys == {src} + Successors(g, scores.Keys)
    ensures forall k :: k in NextScores(g, d, src, scores) ==>
              NextScores(g, d, src, scores)[k] == NextScore(g, d, src, scores, k)
  {
  }

  /** The score of k after one round. */
  ghost function NextScore<K>(g: Graph<K>, d: real, src: K, scores: Basket<K>, k: K): real
  {
    Teleport(d, src, k) + Received(g, d, scores, scores.Keys, k)
  }

  /**
   * The scores after n rounds, starting from the source alone with score 1:
   * after a round, the source and the successors of the nodes scored
   * before, each with its score. Iterate, Score and ScoreReceived are
   * defined together so that a proof unfolds only the scores it asks about.
   */
  ghost function Iterate<K>(g: Graph<K>, d: real, src: K, n: nat): Basket<K>
    decreases n, 2, 0
  {
    if n == 0 then map[src := 1.0]
    else ScoreMap(g, d, src, n, {src} + Successors(g, Iterate(g, d, src, n - 1).Keys))
  }

  /** The keys of ks, each with its score after n rounds. */
  ghost function ScoreMap<K>(g: Graph<K>, d: real, src: K, n: nat, ks: set<K>): Basket<K>
    decreases n, 1, |ks|
  {
    if ks == {} then map[]
    else
      var k :| k in ks;
      ScoreMap(g, d, src, n, ks - {k})[k := Score(g, d, src, n, k)]
  }

  lemma {:induction false} ScoreMapMeaning<K>(g: Graph<K>, d: real, src: K, n: nat, ks: set<K>)
    ensures ScoreMap(g, d, src, n, ks).Keys == ks
    ensures forall k :: k in ks ==> ScoreMap(g, d, src, n, ks)[k] == Score(g, d, src, n, k)
    decreases |ks|
  {
    if ks != {} {
      var k :| k in ks && ScoreMap(g, d, src, n, ks)
                          == ScoreMap(g, d, src, n, ks - {k})[k := Score(g, d, src, n, k)];
      ScoreMapMeaning(g, d, src, n, ks - {k});
    }
  }

  /** The score of k after n rounds, for a scored k. */
  ghost function Score<K>(g: Graph<K>, d: real, src: K, n: nat, k: K): real
    decreases n, 0, 0
  {
    if n == 0 then (if k == src then 1.0 else 0.0)
    else Teleport(d, src, k) + ScoreReceived(g, d, src, n - 1, Iterate(g, d, src, n - 1).Keys, k)
  }

  /** What k receives in round n + 1 from the fathers of fs, scored as after n rounds. */
  ghost function ScoreReceived<K>(g: Graph<K>, d: real, src: K, n: nat, fs: set<K>, k: K): real
    decreases n, 1, |fs|
  {
    if fs == {} then 0.0
    else
      var f :| f in fs;
      ContributionOf(g, d, f, Score(g, d, src, n, f), k) + ScoreReceived(g, d, src, n, fs - {f}, k)
  }

  /** ContributionOf as a function of the father, scored as after n rounds. */
  ghost function ScoreShare<K>(g: Graph<K>, d: real, src: K, n: nat, k: K): K -> real
  {
    f => ContributionOf(g, d, f, Score(g, d, src, n, f), k)
  }

  lemma {:induction false} ScoreReceivedIsSum<K>(g: Graph<K>, d: real, src: K, n: nat, fs: set<K>, k: K)
    ensures ScoreReceived(g, d, src, n, fs, k) == SumSet(fs, ScoreShare(g, d, src, n, k))
    decreases |fs|
  {
    if fs != {} {
      var f :| f in fs && ScoreReceived(g, d, src, n, fs, k)
                          == ContributionOf(g, d, f, Score(g, d, src, n, f), k)
                             + ScoreReceived(g, d, src, n, fs - {f}, k);
      ScoreReceivedIsSum(g, d, src, n, fs - {f}, k);
      SumSetRemove(fs, f, ScoreShare(g, d, src, n, k));
    }
  }

  /** Before any round the source alone holds score 1. */
  lemma IterateZero<K>(g: Graph<K>, d: real, src: K)
    ensures Iterate(g, d, src, 0) == map[src := 1.0]
  {
    assert Iterate(g, d, src, 0).Keys == {src};
  }

  /** Every scored node holds its Score. */
  lemma IterateScore<K>(g: Graph<K>, d: real, src: K, n: nat, k: K)
    requires k in Iterate(g, d, src, n)
    ensures Iterate(g, d, src, n)[k] == Score(g, d, src, n, k)
  {
    if n > 0 {
      ScoreMapMeaning(g, d, src, n, {src} + Successors(g, Iterate(g, d, src, n - 1).Keys));
    }
  }

  /** The scored nodes after a round: the source and the successors of the scored nodes. */
  lemma IterateNextKeys<K>(g: Graph<K>, d: real, src: K, n: nat)
    ensures Iterate(g, d, src, n + 1).Keys == {src} + Successors(g, Iterate(g, d, src, n).Keys)
  {
    ScoreMapMeaning(g, d, src, n + 1, {src} + Successors(g, Iterate(g, d, src, n).Keys));
  }

  /** The score of a node after a round, from the scores of the round before. */
  lemma IterateAt<K>(g: Graph<K>, d: real, src: K, n: nat, k: K)
    requires k in Iterate(g, d, src, n + 1)
    ensures Iterate(g, d, src, n + 1)[k] == NextScore(g, d, src, Iterate(g, d, src, n), k)
  {
    var prev := Iterate(g, d, src, n);
    IterateScore(g, d, src, n + 1, k);
    ReceivedIsSum(g, d, prev, prev.Keys, k);
    ScoreReceivedIsSum(g, d, src, n, prev.Keys, k);
    forall f | f in prev.Keys ensures Share(g, d, prev, k)(f) == ScoreShare(g, d, src, n, k)(f) {
      IterateScore(g, d, src, n, f);
    }
    SumSetCongruence(prev.Keys, Share(g, d, prev, k), ScoreShare(g, d, src, n, k));
  }

  /** Each round applies NextScores to the scores of the round before. */
  lemma IterateStep<K>(g: Graph<K>, d: real, src: K, n: nat)
    ensures Iterate(g, d, src, n + 1) == NextScores(g, d, src, Iterate(g, d, src, n))
  {
    var prev := Iterate(g, d, src, n);
    NextScoresMeaning(g, d, src, prev);
    IterateNextKeys(g, d, src, n);
    forall k | k in Iterate(g, d, src, n + 1)
      ensures Iterate(g, d, src, n + 1)[k] == NextScores(g, d, src, prev)[k]
    {
      IterateAt(g, d, src, n, k);
    }
  }

  /** The norm1 distance the round after the first m rounds measures. */
  ghost function RoundDiff<K>(g: Graph<K>, d: real, src: K, m: nat): real
  {
    Baskets.Norm1Spec(Iterate(g, d, src, m), Iterate(g, d, src, m + 1))
  }

  /** The distances the first n rounds measured, in order. */
  ghost function RoundDiffs<K>(g: Graph<K>, d: real, src: K, n: nat): seq<real>
  {
    Prefix(m => RoundDiff(g, d, src, m), n)
  }

  /** The nodes at most n edges away from the source. */
  ghost function ReachWithin<K>(g: Graph<K>, src: K, n: nat): set<K>
  {
    if n == 0 then {src} else {src} + Successors(g, ReachWithin(g, src, n - 1))
  }

  // ---------------------------------------------------------------------
  // The computation
  // ---------------------------------------------------------------------

  /**
   * pprSingleSource: the arguments are checked in the library's order, then
   * rounds run until the round budget is spent or a round moves the scores
   * by less than the tolerance (a negative tolerance disables the second
   * test).
   */
  method PprSingleSource<K>(g: Graph<K>, iterations: nat, d: real, tol: real, src: K)
    returns (r: Result<Basket<K>, K>)
    requires Closed(g)
    ensures iterations == 0 ==> r == Err(InvalidArgument("iterations must be positive"))
    ensures iterations > 0 && (d < 0.0 || d > 1.0) ==>
              r == Err(InvalidArgument("damping must be [0,1]"))
    ensures iterations > 0 && 0.0 <= d <= 1.0 && src !in g ==>
              r == Err(NotFound(src, "source node not part of the graph"))
    ensures r.Ok? <==> iterations > 0 && 0.0 <= d <= 1.0 && src in g
    ensures r.Ok? ==> exists n :: StopsAfter(RoundDiffs(g, d, src, n), iterations, tol)
                                  && r.value == Iterate(g, d, src, n)
  {
    if iterations == 0 {
      return Err(InvalidArgument("iterations must be positive"));
    }
    if d < 0.0 || d > 1.0 {
      return Err(InvalidArgument("damping must be [0,1]"));
    }
    if src !in g {
      return Err(NotFound(src, "source node not part of the graph"));
    }
    var scores, n := PowerIteration(g, iterations, d, tol, src);
    return Ok(scores);
  }

  /**
   * The iteration loop of pprSingleSource, on checked arguments: the run
   * stops after n rounds, n given by the stop rule, with the scores n rounds
   * of power iteration reach.
   */
  method PowerIteration<K>(g: Graph<K>, iterations: nat, d: real, tol: real, src: K)
    returns (scores: Basket<K>, ghost n: nat)
    requires Closed(g) && src in g && iterations > 0
    ensures StopsAfter(RoundDiffs(g, d, src, n), iterations, tol)
    ensures scores == Iterate(g, d, src, n)
  {
    scores := map[src := 1.0];
    IterateZero(g, d, src);
    var diff := tol;
    var i: nat := 0;
    while i < iterations && diff >= tol
      invariant i <= iterations
      invariant scores == Iterate(g, d, src, i)
      invariant i == 0 ==> diff == tol
      invariant i > 0 ==> diff == RoundDiff(g, d, src, i - 1)
      invariant i > 0 ==> KeptGoing(g, d, src, tol, i - 1)
    {
      scores, diff := Advance(g, d, src, scores, i);
      i := i + 1;
    }
    n := i;
    StopsAfterRounds(g, d, src, n, iterations, tol);
  }

  /** Each of the first n rounds measured a distance of at least tol. */
  ghost predicate KeptGoing<K>(g: Graph<K>, d: real, src: K, tol: real, n: nat)
  {
    n == 0 || (KeptGoing(g, d, src, tol, n - 1) && RoundDiff(g, d, src, n - 1) >= tol)
  }

  lemma {:induction false} KeptGoingAt<K>(g: Graph<K>, d: real, src: K, tol: real, n: nat, j: nat)
    requires KeptGoing(g, d, src, tol, n) && j < n
    ensures RoundDiff(g, d, src, j) >= tol
  {
    if j < n - 1 {
      KeptGoingAt(g, d, src, tol, n - 1, j);
    }
  }

  /** The stop rule read off the distances of the rounds. */
  lemma StopsAfterRounds<K>(g: Graph<K>, d: real, src: K, n: nat, iterations: nat, tol: real)
    requires 1 <= n <= iterations
    requires KeptGoing(g, d, src, tol, n - 1)
    requires n < iterations ==> RoundDiff(g, d, src, n - 1) < tol
    ensures StopsAfter(RoundDiffs(g, d, src, n), iterations, tol)
  {
    forall j | 0 <= j < n ensures RoundDiffs(g, d, src, n)[j] == RoundDiff(g, d, src, j) {
      PrefixAt(m => RoundDiff(g, d, src, m), n, j);
    }
    forall j | 0 <= j < n - 1 ensures RoundDiff(g, d, src, j) >= tol {
      KeptGoingAt(g, d, src, tol, n - 1, j);
    }
  }

  /** The body of the iteration loop: one round, then its norm1 distance. */
  method Advance<K>(g: Graph<K>, d: real, src: K, scores: Basket<K>, ghost i: nat)
    returns (next: Basket<K>, diff: real)
    requires Closed(g) && src in g
    requires scores == Iterate(g, d, src, i)
    ensures next == Iterate(g, d, src, i + 1)
    ensures diff == RoundDiff(g, d, src, i)
  {
    IterateInGraph(g, d, src, i);
    IterateStep(g, d, src, i);
    next := Round(g, d, src, scores);
    diff := Baskets.Norm1(scores, next);
  }

  /**
   * One round: the next map starts with the teleport share of the source,
   * then every scored father spreads score * d / outdeg over its successor
   * list, the fathers taken in any order.
   */
  method Round<K>(g: Graph<K>, d: real, src: K, scores: Basket<K>) returns (next: Basket<K>)
    requires scores.Keys <= g.Keys
    ensures next == NextScores(g, d, src, scores)
  {
    next := map[src := 1.0 - d];
    var rest := scores.Keys;
    ghost var order: seq<K> := [];
    while rest != {}
      invariant rest <= scores.Keys && Distinct(order)
      invariant forall f :: f in order ==> f in scores && f !in rest
      invariant forall f :: f in scores ==> f in rest || f in order
      invariant next == Partial(g, d, src, scores, order)
      decreases |rest|
    {
      var father :| father in rest;
      next := SpreadFather(g, d, src, scores, order, next, father);
      order := order + [father];
      rest := rest - {father};
    }
    PartialIsNext(g, d, src, scores, order);
  }

  /** The body of the father loop: father spreads score * d / outdeg over its successor list. */
  method SpreadFather<K>(g: Graph<K>, d: real, src: K, scores: Basket<K>, ghost order: seq<K>,
                         next: Basket<K>, father: K)
    returns (after: Basket<K>)
    requires scores.Keys <= g.Keys && father in scores
    requires next == Partial(g, d, src, scores, order)
    ensures after == Partial(g, d, src, scores, order + [father])
  {
    var score := scores[father];
    var successors := g[father];
    after := next;
    if |successors| > 0 {
      after := AddShare(next, successors, EdgeShare(score, Factor(d, |successors|)));
    }
    PartialSnoc(g, d, src, scores, order, father);
  }

  /**
   * The next map once the fathers of `order` spread their scores, in that
   * order, starting from the teleport share of the source.
   */
  ghost function Partial<K>(g: Graph<K>, d: real, src: K, scores: Basket<K>, order: seq<K>): Basket<K>
  {
    if order == [] then map[src := 1.0 - d]
    else
      var prev := Partial(g, d, src, scores, order[..|order| - 1]);
      var f := order[|order| - 1];
      if f in scores && f in g && |g[f]| > 0
      then Spread(prev, g[f], EdgeShare(scores[f], Factor(d, |g[f]|)))
      else prev
  }

  /** Taking one more father spreads its score over its successor list, if it has any. */
  lemma PartialSnoc<K>(g: Graph<K>, d: real, src: K, scores: Basket<K>, order: seq<K>, f: K)
    requires f in scores && f in g
    ensures |g[f]| == 0 ==> Partial(g, d, src, scores, order + [f]) == Partial(g, d, src, scores, order)
    ensures |g[f]| > 0 ==> Partial(g, d, src, scores, order + [f])
                           == Spread(Partial(g, d, src, scores, order), g[f], EdgeShare(scores[f], Factor(d, |g[f]|)))
  {
    assert (order + [f])[..|order|] == order;
  }

  /** Whatever order the scored fathers are taken in, the round computes NextScores. */
  lemma PartialIsNext<K>(g: Graph<K>, d: real, src: K, scores: Basket<K>, order: seq<K>)
    requires scores.Keys <= g.Keys && Distinct(order)
    requires forall f :: f in order <==> f in scores
    ensures Partial(g, d, src, scores, order) == NextScores(g, d, src, scores)
  {
    PartialInv(g, d, src, scores, order);
    assert Elems(order) == scores.Keys;
    RoundDone(g, d, src, scores, Partial(g, d, src, scores, order));
  }

  lemma {:induction false} PartialInv<K>(g: Graph<K>, d: real, src: K, scores: Basket<K>, order: seq<K>)
    requires scores.Keys <= g.Keys && Distinct(order)
    requires forall f :: f in order ==> f in scores
    ensures RoundInv(g, d, src, scores, Elems(order), Partial(g, d, src, scores, order))
  {
    if order == [] {
      assert Elems(order) == {};
      RoundStart(g, d, src, scores);
    } else {
      var p, f := order[..|order| - 1], order[|order| - 1];
      assert order == p + [f];
      assert Elems(order) == Elems(p) + {f};
      assert f !in Elems(p);
      PartialInv(g, d, src, scores, p);
      RoundStep(g, d, src, scores, Elems(p), Partial(g, d, src, scores, p), f,
                Partial(g, d, src, scores, order));
    }
  }

  /** The inner loop: w added to the entry of each successor, once per occurrence. */
  method AddShare<K>(next: Basket<K>, successors: seq<K>, w: real) returns (r: Basket<K>)
    ensures r == Spread(next, successors, w)
  {
    r := next;
    var j := 0;
    while j < |successors|
      invariant 0 <= j <= |successors|
      invariant r == Spread(next, successors[..j], w)
    {
      assert successors[..j + 1][..j] == successors[..j];
      r := r[successors[j] := Get(r, successors[j]) + w];
      j := j + 1;
    }
    assert successors[..j] == successors;
  }

  // ---------------------------------------------------------------------
  // Proof of a round
  // ---------------------------------------------------------------------

  /** m with w added to the entry of each element of s, absent entries reading 0. */
  ghost function Spread<K>(m: Basket<K>, s: seq<K>, w: real): Basket<K>
    decreases |s|
  {
    if s == [] then m
    else
      var prev := Spread(m, s[..|s| - 1], w);
      prev[s[|s| - 1] := Get(prev, s[|s| - 1]) + w]
  }

  lemma {:induction false} SpreadGet<K>(m: Basket<K>, s: seq<K>, w: real, k: K)
    ensures Get(Spread(m, s, w), k) == Get(m, k) + Times(w, Occurrences(s, k))
    decreases |s|
  {
    if s != [] {
      var p := s[..|s| - 1];
      SpreadGet(m, p, w, k);
    }
  }

  /** w added c times. */
  function Times(w: real, c: nat): real
  {
    if c == 0 then 0.0 else Times(w, c - 1) + w
  }

  lemma {:induction false} TimesIsProduct(w: real, c: nat)
    ensures Times(w, c) == w * (c as real)
  {
    if c > 0 {
      TimesIsProduct(w, c - 1);
    }
  }

  lemma {:induction false} TimesNonNegative(w: real, c: nat)
    requires w >= 0.0
    ensures Times(w, c) >= 0.0
  {
    if c > 0 {
      TimesNonNegative(w, c - 1);
    }
  }

  /** How many times k occurs in s. */
  function Occurrences<K(==)>(s: seq<K>, k: K): nat
  {
    if s == [] then 0
    else Occurrences(s[..|s| - 1], k) + (if s[|s| - 1] == k then 1 else 0)
  }

  lemma {:induction false} OccursIff<K>(s: seq<K>, k: K)
    ensures Occurrences(s, k) > 0 <==> k in s
  {
    if s != [] {
      OccursIff(s[..|s| - 1], k);
      assert s == s[..|s| - 1] + [s[|s| - 1]];
    }
  }

  lemma {:induction false} SpreadKeys<K>(m: Basket<K>, s: seq<K>, w: real)
    ensures Spread(m, s, w).Keys == m.Keys + Elems(s)
    decreases |s|
  {
    if s != [] {
      var p := s[..|s| - 1];
      assert s == p + [s[|s| - 1]];
      SpreadKeys(m, p, w);
    }
  }

  /** The next map after the fathers of `done` have spread their scores. */
  ghost predicate RoundInv<K>(g: Graph<K>, d: real, src: K, scores: Basket<K>, done: set<K>,
                              next: Basket<K>)
  {
    && next.Keys == {src} + Successors(g, done)
    && forall k :: k in next ==>
         next[k] == Teleport(d, src, k) + Received(g, d, scores, done, k)
  }

  /** Before any father spread its score, only the source holds its teleport share. */
  lemma RoundStart<K>(g: Graph<K>, d: real, src: K, scores: Basket<K>)
    ensures RoundInv(g, d, src, scores, {}, map[src := 1.0 - d])
  {
    assert Received(g, d, scores, {}, src) == 0.0;
  }

  lemma RoundStep<K>(g: Graph<K>, d: real, src: K, scores: Basket<K>, done: set<K>,
                     next: Basket<K>, f: K, after: Basket<K>)
    requires scores.Keys <= g.Keys && done <= scores.Keys
    requires f in scores && f !in done
    requires RoundInv(g, d, src, scores, done, next)
    requires |g[f]| == 0 ==> after == next
    requires |g[f]| > 0 ==> after == Spread(next, g[f], EdgeShare(scores[f], Factor(d, |g[f]|)))
    ensures RoundInv(g, d, src, scores, done + {f}, after)
  {
    SuccessorsAdd(g, done, f);
    if |g[f]| > 0 {
      SpreadKeys(next, g[f], EdgeShare(scores[f], Factor(d, |g[f]|)));
    } else {
      assert Elems(g[f]) == {};
    }
    forall k | k in after
      ensures after[k] == Teleport(d, src, k) + Received(g, d, scores, done + {f}, k)
    {
      ReceivedAdd(g, d, scores, done, f, k);
      if |g[f]| > 0 {
        SpreadGet(next, g[f], EdgeShare(scores[f], Factor(d, |g[f]|)), k);
      }
      if k !in next {
        ReceivedNone(g, d, scores, done, k);
      }
    }
  }

  lemma RoundDone<K>(g: Graph<K>, d: real, src: K, scores: Basket<K>, next: Basket<K>)
    requires RoundInv(g, d, src, scores, scores.Keys, next)
    ensures next == NextScores(g, d, src, scores)
  {
    NextScoresMeaning(g, d, src, scores);
  }

  // ---------------------------------------------------------------------
  // Properties
  // ---------------------------------------------------------------------

  /** The scored nodes are exactly the nodes at most n edges from the source. */
  lemma {:induction false} IterateKeys<K>(g: Graph<K>, d: real, src: K, n: nat)
    ensures Iterate(g, d, src, n).Keys == ReachWithin(g, src, n)
  {
    if n > 0 {
      IterateKeys(g, d, src, n - 1);
      ScoreMapMeaning(g, d, src, n, {src} + Successors(g, Iterate(g, d, src, n - 1).Keys));
      ReachStep(g, src, n, Iterate(g, d, src, n).Keys, Iterate(g, d, src, n - 1).Keys);
    }
  }

  /** A set grown from the nodes within n - 1 steps by one step holds the nodes within n steps. */
  lemma ReachStep<K>(g: Graph<K>, src: K, n: nat, now: set<K>, before: set<K>)
    requires n > 0 && before == ReachWithin(g, src, n - 1) && now == {src} + Successors(g, before)
    ensures now == ReachWithin(g, src, n)
  {
  }

  /** In a closed graph the nodes near the source are nodes of the graph. */
  lemma {:induction false} ReachInGraph<K>(g: Graph<K>, src: K, n: nat)
    requires Closed(g) && src in g
    ensures ReachWithin(g, src, n) <= g.Keys
  {
    if n > 0 {
      ReachInGraph(g, src, n - 1);
      SuccessorsInGraph(g, ReachWithin(g, src, n - 1));
    }
  }

  /** In a closed graph every scored node is a node of the graph. */
  lemma IterateInGraph<K>(g: Graph<K>, d: real, src: K, n: nat)
    requires Closed(g) && src in g
    ensures Iterate(g, d, src, n).Keys <= g.Keys
  {
    IterateKeys(g, d, src, n);
    ReachInGraph(g, src, n);
  }

  /** With d in [0, 1] every score is non-negative. */
  lemma {:induction false} IterateNonNegative<K>(g: Graph<K>, d: real, src: K, n: nat)
    requires 0.0 <= d <= 1.0
    ensures NonNegative(Iterate(g, d, src, n))
  {
    if n > 0 {
      IterateNonNegative(g, d, src, n - 1);
      forall k | k in Iterate(g, d, src, n) ensures Iterate(g, d, src, n)[k] >= 0.0 {
        IterateAt(g, d, src, n - 1, k);
        NextScoreNonNegative(g, d, src, Iterate(g, d, src, n - 1), k);
      }
    }
  }

  /** A round keeps the scores non-negative. */
  lemma NextScoreNonNegative<K>(g: Graph<K>, d: real, src: K, prev: Basket<K>, k: K)
    requires 0.0 <= d <= 1.0 && NonNegative(prev)
    ensures NextScore(g, d, src, prev, k) >= 0.0
  {
    ReceivedIsSum(g, d, prev, prev.Keys, k);
    forall f | f in prev.Keys ensures Share(g, d, prev, k)(f) >= 0.0 {
      ContributionNonNegative(g, d, prev, f, k);
    }
    SumSetNonNegative(prev.Keys, Share(g, d, prev, k));
  }

  /** The stop rule fixes the number of rounds. */
  lemma StopsAfterOnce<K>(g: Graph<K>, d: real, src: K, iterations: nat, tol: real, n1: nat, n2: nat)
    requires StopsAfter(RoundDiffs(g, d, src, n1), iterations, tol)
    requires StopsAfter(RoundDiffs(g, d, src, n2), iterations, tol)
    ensures n1 == n2
  {
    var a, b := RoundDiffs(g, d, src, n1), RoundDiffs(g, d, src, n2);
    forall j | 0 <= j < n1 && j < n2 ensures a[j] == b[j] {
      PrefixAt(m => RoundDiff(g, d, src, m), n1, j);
      PrefixAt(m => RoundDiff(g, d, src, m), n2, j);
    }
    StopsAfterUnique(a, b, iterations, tol);
  }

  /** A negative tolerance never stops the iteration early. */
  lemma NegativeToleranceRunsAll<K>(g: Graph<K>, d: real, src: K, iterations: nat, tol: real, n: nat)
    requires 0.0 <= d <= 1.0 && tol < 0.0
    requires StopsAfter(RoundDiffs(g, d, src, n), iterations, tol)
    ensures n == iterations
  {
    PrefixAt(m => RoundDiff(g, d, src, m), n, n - 1);
    IterateNonNegative(g, d, src, n);
    Baskets.Norm1IsL1(Iterate(g, d, src, n - 1), Iterate(g, d, src, n));
  }

  /** A source without successors keeps exactly the teleport share. */
  lemma {:induction false} IsolatedSource<K>(g: Graph<K>, d: real, src: K, n: nat)
    requires src in g && g[src] == []
    requires n >= 1
    ensures Iterate(g, d, src, n) == map[src := 1.0 - d]
  {
    if n > 1 {
      IsolatedSource(g, d, src, n - 1);
      IsolatedStep(g, d, src, n - 1, 1.0 - d);
    } else {
      IsolatedStep(g, d, src, 0, 1.0);
    }
  }

  lemma IsolatedStep<K>(g: Graph<K>, d: real, src: K, n: nat, x: real)
    requires src in g && g[src] == []
    requires Iterate(g, d, src, n) == map[src := x]
    ensures Iterate(g, d, src, n + 1) == map[src := 1.0 - d]
  {
    var prev := Iterate(g, d, src, n);
    assert prev.Keys == {src};
    SuccessorsOfOne(g, src);
    IterateNextKeys(g, d, src, n);
    assert Iterate(g, d, src, n + 1).Keys == {src};
    IterateAt(g, d, src, n, src);
    ReceivedNone(g, d, prev, prev.Keys, src);
  }

  /** A source whose only edge is a self-loop keeps its whole score. */
  lemma {:induction false} SelfLoopSource<K>(g: Graph<K>, d: real, src: K, n: nat)
    requires src in g && g[src] == [src]
    ensures Iterate(g, d, src, n) == map[src := 1.0]
  {
    if n > 0 {
      SelfLoopSource(g, d, src, n - 1);
      SelfLoopStep(g, d, src, n - 1);
    }
  }

  lemma SelfLoopStep<K>(g: Graph<K>, d: real, src: K, n: nat)
    requires src in g && g[src] == [src]
    requires Iterate(g, d, src, n) == map[src := 1.0]
    ensures Iterate(g, d, src, n + 1) == map[src := 1.0]
  {
    var prev := Iterate(g, d, src, n);
    assert prev.Keys == {src};
    SuccessorsOfOne(g, src);
    assert Out(g, src) == {src};
    IterateNextKeys(g, d, src, n);
    assert Iterate(g, d, src, n + 1).Keys == {src};
    IterateAt(g, d, src, n, src);
    SelfLoopReceives(g, d, src);
  }

  /** Along its self-loop the source sends itself d times its score 1. */
  lemma SelfLoopReceives<K>(g: Graph<K>, d: real, src: K)
    requires src in g && g[src] == [src]
    ensures Received(g, d, map[src := 1.0], {src}, src) == d
  {
    var prev := map[src := 1.0];
    assert g[src][..|g[src]| - 1] == [];
    assert Occurrences(g[src], src) == 1;
    assert EdgeShare(prev[src], Factor(d, |g[src]|)) == d;
    assert Times(d, 1) == d;
    assert Contribution(g, d, prev, src, src) == d;
    assert {src} == {} + {src};
    ReceivedAdd(g, d, prev, {}, src, src);
  }

  /** ... so with a positive tolerance the first round already stops it. */
  lemma SelfLoopStopsAtOnce<K>(g: Graph<K>, d: real, src: K, iterations: nat, tol: real)
    requires src in g && g[src] == [src]
    requires iterations >= 1 && tol > 0.0
    ensures StopsAfter(RoundDiffs(g, d, src, 1), iterations, tol)
  {
    SelfLoopSource(g, d, src, 0);
    SelfLoopSource(g, d, src, 1);
    Baskets.Norm1Self(map[src := 1.0]);
  }
}
