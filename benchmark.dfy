/**
 * benchmarkAlgorithm: compares a table of approximate baskets against the
 * exact single-source oracle (100 rounds, damping 0.85, tolerance 0.0001).
 * For every selected source node it takes the Jaccard index between the
 * basket's keys and the oracle's top entries of the same count, and
 * Kendall's tau-b between the basket's scores and the oracle's scores of
 * the same keys; it reports the averages and minima of both and the
 * average basket size.
 */
module Benchmark {
  import opened Common
  import Baskets
  import Oracle
  import Kendall

  /** The oracle's parameters. */
  const OracleIterations: nat := 100
  const OracleDamping: real := 0.85
  const OracleTolerance: real := 0.0001

  /** A statistic as a double: a number, or the NaN of 0.0 / 0. */
  datatype Stat = Number(value: real) | NaN

  /** The message of the failure for a basket whose source is not a node. */
  const NotInGraph: string := "in the provided map is not part of the provided graph"

  // ---------------------------------------------------------------------
  // Validation and selection of the source nodes
  // ---------------------------------------------------------------------

  /**
   * The source nodes evaluated: every key of the table, or, in strict mode,
   * only those with at least one successor.
   */
  ghost function Selected<K>(ppr: Table<K>, g: Graph<K>, strict: bool): set<K>
  {
    set v | v in ppr.Keys && v in g && (!strict || g[v] != [])
  }

  /**
   * The first loop: every key of the table must be a node of the graph (the
   * first one met that is not ends the run with a not-found failure naming
   * it), and the selected ones are collected. The later shuffle does not
   * change which nodes are evaluated and is left out.
   */
  method SelectNodes<K>(ppr: Table<K>, g: Graph<K>, strict: bool) returns (r: Result<seq<K>, K>)
    ensures r.Err? <==> !(ppr.Keys <= g.Keys)
    ensures r.Err? ==> && r.error.NotFound? && r.error.message == NotInGraph
                       && r.error.node in ppr && r.error.node !in g
    ensures r.Ok? ==> Lists(r.value, Selected(ppr, g, strict))
  {
    var nodes: seq<K> := [];
    var rest := ppr.Keys;
    while rest != {}
      invariant rest <= ppr.Keys
      invariant forall v :: v in ppr && v !in rest ==> v in g
      invariant Lists(nodes, Selected(ppr, g, strict) - rest)
      decreases |rest|
    {
      var k :| k in rest;
      if k !in g {
        return Err(NotFound(k, NotInGraph));
      }
      ghost var before := Selected(ppr, g, strict) - rest;
      if !strict || |g[k]| != 0 {
        assert (nodes + [k])[..|nodes|] == nodes;
        assert Selected(ppr, g, strict) - (rest - {k}) - {k} == before;
        nodes := nodes + [k];
      } else {
        assert Selected(ppr, g, strict) - (rest - {k}) == before;
      }
      rest := rest - {k};
    }
    assert Selected(ppr, g, strict) - rest == Selected(ppr, g, strict);
    return Ok(nodes);
  }

  // ---------------------------------------------------------------------
  // One source node
  // ---------------------------------------------------------------------

  /** full is what the oracle returns for src: its scores after the rounds its stop rule runs. */
  ghost predicate IsOracleRun<K>(g: Graph<K>, src: K, full: Basket<K>)
  {
    exists n {:trigger Oracle.RoundDiffs(g, OracleDamping, src, n)} ::
      StopsAfter(Oracle.RoundDiffs(g, OracleDamping, src, n), OracleIterations, OracleTolerance)
      && full == Oracle.Iterate(g, OracleDamping, src, n)
  }

  /** The scores of m for keys, in that order; a key m lacks reads as 0. */
  function Column<K>(m: Basket<K>, keys: seq<K>): (r: seq<real>)
    ensures |r| == |keys|
    ensures forall i :: 0 <= i < |keys| && keys[i] in m ==> r[i] == m[keys[i]]
    ensures forall i :: 0 <= i < |keys| && keys[i] !in m ==> r[i] == 0.0
  {
    seq(|keys|, i requires 0 <= i < |keys| => Get(m, keys[i]))
  }

  /** At x, root gives a non-negative number whose square is x. */
  ghost predicate SquareRootAt(root: real -> real, x: real)
  {
    0.0 <= x ==> 0.0 <= root(x) && root(x) * root(x) == x
  }

  /**
   * root is a square root on all non-negative numbers. The fact at one x is
   * taken out with SquareRootAt, so that each use of root does not bring
   * in a product.
   */
  ghost predicate IsSquareRoot(root: real -> real)
  {
    forall x: real :: SquareRootAt(root, x)
  }

  /** A positive number has a positive square root. */
  lemma RootPositive(root: real -> real, x: real)
    requires IsSquareRoot(root) && x > 0.0
    ensures root(x) > 0.0
  {
    assert SquareRootAt(root, x);
  }

  /**
   * The double kendallCorrelation returns for the exact correlation c:
   * num / sqrt(den2), or the constant of a degenerate correlation.
   */
  function KendallValue(c: Kendall.Correlation, root: real -> real): real
    requires IsSquareRoot(root)
    requires c.Ratio? ==> c.den2 > 0
  {
    match c
    case Degenerate(v) => v
    case Ratio(num, den2) =>
      RootPositive(root, den2 as real);
      (num as real) / root(den2 as real)
  }

  /** The tau-b of the two columns Kendall compares. */
  ghost function Tau<K>(other: Basket<K>, full: Basket<K>, keys: seq<K>): (c: Kendall.Correlation)
    ensures c.Ratio? ==> c.den2 > 0
  {
    Kendall.TauBRatioPositive(Kendall.Zip(Column(other, keys), Column(full, keys)));
    Kendall.TauB(Kendall.Zip(Column(other, keys), Column(full, keys)))
  }

  /** What the evaluation of one source node rests on: the oracle's basket, its top, the key order. */
  datatype Evaluation<K> = Evaluation(full: Basket<K>, top: Basket<K>, keys: seq<K>)

  /**
   * The evaluation of the basket `other` of `node`: the oracle's basket
   * full, its top entries of the basket's size, the Jaccard index of the
   * two key sets, and tau-b between the basket's scores and the full
   * oracle's scores of the basket's keys (in the basket's iteration order).
   */
  ghost predicate Evaluates<K>(g: Graph<K>, other: Basket<K>, node: K, root: real -> real,
                               e: Evaluation<K>, jaccard: real, kendall: real)
    requires IsSquareRoot(root)
  {
    && IsOracleRun(g, node, e.full)
    && Baskets.IsTopOf(|other|, e.full, e.top)
    && jaccard == Baskets.JaccardSpec(other.Keys, e.top.Keys)
    && Lists(e.keys, other.Keys)
    && kendall == KendallValue(Tau(other, e.full, e.keys), root)
  }

  /**
   * The two score vectors: for every key of the basket, its score there and
   * its score in the untrimmed oracle basket (0 when the oracle lacks it).
   */
  method ScoreVectors<K>(other: Basket<K>, full: Basket<K>)
    returns (otherScores: seq<real>, pagerankScores: seq<real>, ghost keys: seq<K>)
    ensures Lists(keys, other.Keys)
    ensures otherScores == Column(other, keys) && pagerankScores == Column(full, keys)
  {
    otherScores, pagerankScores, keys := [], [], [];
    var rest := other.Keys;
    while rest != {}
      invariant rest <= other.Keys
      invariant Lists(keys, other.Keys - rest)
      invariant otherScores == Column(other, keys) && pagerankScores == Column(full, keys)
      decreases |rest|
    {
      var k :| k in rest;
      assert (keys + [k])[..|keys|] == keys;
      assert other.Keys - (rest - {k}) - {k} == other.Keys - rest;
      assert Column(other, keys + [k]) == Column(other, keys) + [other[k]];
      assert Column(full, keys + [k]) == Column(full, keys) + [Get(full, k)];
      otherScores := otherScores + [other[k]];
      pagerankScores := pagerankScores + [Get(full, k)];
      keys := keys + [k];
      rest := rest - {k};
    }
    assert other.Keys - rest == other.Keys;
  }

  /**
   * The loop body for one node: run the oracle, trim a copy to the basket's
   * size, compare the key sets, and correlate the scores.
   */
  method EvaluateNode<K>(g: Graph<K>, other: Basket<K>, node: K, root: real -> real)
    returns (jaccard: real, kendall: real, ghost e: Evaluation<K>)
    requires Closed(g) && node in g && IsSquareRoot(root)
    ensures Evaluates(g, other, node, root, e, jaccard, kendall)
  {
    var pagerank := Oracle.PprSingleSource(g, OracleIterations, OracleDamping, OracleTolerance, node);
    assert pagerank.Ok?;
    var full := pagerank.value;
    var top := Baskets.KeepTop(|other|, full);
    jaccard := Baskets.Jaccard(other.Keys, top.Keys);
    var otherScores, pagerankScores, keys := ScoreVectors(other, full);
    var c := Kendall.KendallCorrelation(otherScores, pagerankScores);
    Kendall.TauBRatioPositive(Kendall.Zip(otherScores, pagerankScores));
    kendall := KendallValue(c, root);
    e := Evaluation(full, top, keys);
  }

  // ---------------------------------------------------------------------
  // Aggregation
  // ---------------------------------------------------------------------

  /** The sum of s, taken from the right. */
  function Sum(s: seq<real>): real
    decreases |s|
  {
    if s == [] then 0.0 else Sum(s[..|s| - 1]) + s[|s| - 1]
  }

  /** The running minimum of s, started at `start`. */
  function Least(start: real, s: seq<real>): real
    decreases |s|
  {
    if s == [] then start else Min(Least(start, s[..|s| - 1]), s[|s| - 1])
  }

  /** A running sum divided by the count as a double: NaN for a count of 0. */
  function Average(sum: real, count: nat): Stat
  {
    if count == 0 then NaN else Number(sum / (count as real))
  }

  /** The size of the basket of each node, as a double. */
  function Sizes<K>(ppr: Table<K>, nodes: seq<K>): (r: seq<real>)
    requires forall i :: 0 <= i < |nodes| ==> nodes[i] in ppr
    ensures |r| == |nodes|
    ensures forall i :: 0 <= i < |nodes| ==> r[i] == |ppr[nodes[i]]| as real
  {
    seq(|nodes|, i requires 0 <= i < |nodes| => |ppr[nodes[i]]| as real)
  }

  /** The result map: the five statistics under their names. */
  function Report(jaccardSum: real, jaccardMin: real, kendallSum: real, kendallMin: real,
                  sizeSum: real, count: nat): (r: map<string, Stat>)
    ensures r.Keys == {"jaccard average", "jaccard min", "kendall average", "kendall min", "average map size"}
  {
    map["jaccard average" := Average(jaccardSum, count),
        "jaccard min" := Number(jaccardMin),
        "kendall average" := Average(kendallSum, count),
        "kendall min" := Number(kendallMin),
        "average map size" := Average(sizeSum, count)]
  }

  /**
   * A run of the benchmark: nodes lists the selected sources, each one was
   * evaluated (with the witnesses in evals), and the result reports the
   * averages and minima of the per-node values and the mean basket size.
   */
  ghost predicate IsBenchmark<K>(g: Graph<K>, ppr: Table<K>, strict: bool, root: real -> real,
                                 nodes: seq<K>, evals: seq<Evaluation<K>>,
                                 jaccards: seq<real>, kendalls: seq<real>, result: map<string, Stat>)
    requires IsSquareRoot(root)
  {
    && Lists(nodes, Selected(ppr, g, strict))
    && (forall i :: 0 <= i < |nodes| ==> nodes[i] in ppr)
    && |evals| == |jaccards| == |kendalls| == |nodes|
    && AllEvaluated(g, ppr, root, nodes, evals, jaccards, kendalls)
    && result == Report(Sum(jaccards), Least(1.0, jaccards), Sum(kendalls), Least(1.0, kendalls),
                        Sum(Sizes(ppr, nodes)), |nodes|)
  }

  /** The first |jaccards| nodes were evaluated, with the witnesses in evals. */
  ghost predicate AllEvaluated<K>(g: Graph<K>, ppr: Table<K>, root: real -> real, nodes: seq<K>,
                                  evals: seq<Evaluation<K>>, jaccards: seq<real>, kendalls: seq<real>)
    requires IsSquareRoot(root)
  {
    && |evals| == |jaccards| == |kendalls| <= |nodes|
    && forall i :: 0 <= i < |jaccards| ==>
         nodes[i] in ppr && Evaluates(g, ppr[nodes[i]], nodes[i], root, evals[i], jaccards[i], kendalls[i])
  }

  /** Evaluating one more node extends the evaluated prefix. */
  lemma AllEvaluatedSnoc<K>(g: Graph<K>, ppr: Table<K>, root: real -> real, nodes: seq<K>,
                            evals: seq<Evaluation<K>>, jaccards: seq<real>, kendalls: seq<real>,
                            e: Evaluation<K>, jaccard: real, kendall: real)
    requires IsSquareRoot(root)
    requires forall i :: 0 <= i < |nodes| ==> nodes[i] in ppr
    requires |evals| == |jaccards| == |kendalls| < |nodes|
    requires AllEvaluated(g, ppr, root, nodes, evals, jaccards, kendalls)
    requires Evaluates(g, ppr[nodes[|jaccards|]], nodes[|jaccards|], root, e, jaccard, kendall)
    ensures AllEvaluated(g, ppr, root, nodes, evals + [e], jaccards + [jaccard], kendalls + [kendall])
  {
    var es, js, ks := evals + [e], jaccards + [jaccard], kendalls + [kendall];
    forall i | 0 <= i < |js| ensures Evaluates(g, ppr[nodes[i]], nodes[i], root, es[i], js[i], ks[i]) {
      if i < |jaccards| {
        assert es[i] == evals[i] && js[i] == jaccards[i] && ks[i] == kendalls[i];
      } else {
        assert i == |jaccards| && es[i] == e && js[i] == jaccard && ks[i] == kendall;
      }
    }
  }

  /** The running sums and minima after the first |jaccards| nodes. */
  ghost predicate Accumulated<K>(ppr: Table<K>, nodes: seq<K>, jaccards: seq<real>, kendalls: seq<real>,
                                 jaccardSum: real, jaccardMin: real, kendallSum: real, kendallMin: real,
                                 sizeSum: real)
    requires forall i :: 0 <= i < |nodes| ==> nodes[i] in ppr
  {
    && |jaccards| == |kendalls| <= |nodes|
    && jaccardSum == Sum(jaccards) && jaccardMin == Least(1.0, jaccards)
    && kendallSum == Sum(kendalls) && kendallMin == Least(1.0, kendalls)
    && sizeSum == Sum(Sizes(ppr, nodes[..|jaccards|]))
  }

  /** One more node folded into the running sums and minima. */
  lemma AccumulateStep<K>(ppr: Table<K>, nodes: seq<K>, jaccards: seq<real>, kendalls: seq<real>,
                          jaccardSum: real, jaccardMin: real, kendallSum: real, kendallMin: real,
                          sizeSum: real, jaccard: real, kendall: real)
    requires forall i :: 0 <= i < |nodes| ==> nodes[i] in ppr
    requires Accumulated(ppr, nodes, jaccards, kendalls, jaccardSum, jaccardMin, kendallSum, kendallMin, sizeSum)
    requires |jaccards| < |nodes|
    ensures Accumulated(ppr, nodes, jaccards + [jaccard], kendalls + [kendall],
                        jaccardSum + jaccard, Min(jaccardMin, jaccard),
                        kendallSum + kendall, Min(kendallMin, kendall),
                        sizeSum + |ppr[nodes[|jaccards|]]| as real)
  {
    var i := |jaccards|;
    assert (jaccards + [jaccard])[..i] == jaccards;
    assert (kendalls + [kendall])[..i] == kendalls;
    var s := Sizes(ppr, nodes[..i + 1]);
    assert s[..i] == Sizes(ppr, nodes[..i]);
  }

  /** Fold one node's Jaccard index, tau-b value and basket size into the running statistics. */
  method Accumulate<K>(ppr: Table<K>, nodes: seq<K>, i: nat, ghost jaccards: seq<real>,
                       ghost kendalls: seq<real>, jaccardSum: real, jaccardMin: real,
                       kendallSum: real, kendallMin: real, sizeSum: real, jaccard: real, kendall: real)
    returns (jaccardSum': real, jaccardMin': real, kendallSum': real, kendallMin': real, sizeSum': real)
    requires forall i :: 0 <= i < |nodes| ==> nodes[i] in ppr
    requires |jaccards| == i < |nodes|
    requires Accumulated(ppr, nodes, jaccards, kendalls, jaccardSum, jaccardMin, kendallSum, kendallMin, sizeSum)
    ensures Accumulated(ppr, nodes, jaccards + [jaccard], kendalls + [kendall],
                        jaccardSum', jaccardMin', kendallSum', kendallMin', sizeSum')
  {
    AccumulateStep(ppr, nodes, jaccards, kendalls,
                   jaccardSum, jaccardMin, kendallSum, kendallMin, sizeSum, jaccard, kendall);
    jaccardSum', jaccardMin' := jaccardSum + jaccard, Min(jaccardMin, jaccard);
    kendallSum', kendallMin' := kendallSum + kendall, Min(kendallMin, kendall);
    sizeSum' := sizeSum + |ppr[nodes[i]]| as real;
  }

  /** The evaluation of node nodes[i], appended to the evaluated prefix. */
  method EvaluateAt<K>(g: Graph<K>, ppr: Table<K>, nodes: seq<K>, root: real -> real, i: nat,
                         ghost evals: seq<Evaluation<K>>, ghost jaccards: seq<real>,
                         ghost kendalls: seq<real>)
    returns (jaccard: real, kendall: real, ghost e: Evaluation<K>)
    requires Closed(g) && IsSquareRoot(root)
    requires forall i :: 0 <= i < |nodes| ==> nodes[i] in ppr && nodes[i] in g
    requires |evals| == |jaccards| == |kendalls| == i < |nodes|
    requires AllEvaluated(g, ppr, root, nodes, evals, jaccards, kendalls)
    ensures AllEvaluated(g, ppr, root, nodes, evals + [e], jaccards + [jaccard], kendalls + [kendall])
  {
    var node := nodes[i];
    jaccard, kendall, e := EvaluateNode(g, ppr[node], node, root);
    AllEvaluatedSnoc(g, ppr, root, nodes, evals, jaccards, kendalls, e, jaccard, kendall);
  }

  /**
   * One iteration of the second loop: evaluate node nodes[i] and fold its
   * Jaccard index, tau-b value and basket size into the running sums and minima.
   */
  method EvaluateNext<K>(g: Graph<K>, ppr: Table<K>, nodes: seq<K>, root: real -> real, i: nat,
                         jaccardSum: real, jaccardMin: real, kendallSum: real, kendallMin: real,
                         sizeSum: real, ghost evals: seq<Evaluation<K>>, ghost jaccards: seq<real>,
                         ghost kendalls: seq<real>)
    returns (jaccardSum': real, jaccardMin': real, kendallSum': real, kendallMin': real,
             sizeSum': real, ghost evals': seq<Evaluation<K>>, ghost jaccards': seq<real>,
             ghost kendalls': seq<real>)
    requires Closed(g) && IsSquareRoot(root)
    requires forall i :: 0 <= i < |nodes| ==> nodes[i] in ppr && nodes[i] in g
    requires |evals| == |jaccards| == |kendalls| == i < |nodes|
    requires AllEvaluated(g, ppr, root, nodes, evals, jaccards, kendalls)
    requires Accumulated(ppr, nodes, jaccards, kendalls, jaccardSum, jaccardMin, kendallSum, kendallMin, sizeSum)
    ensures |evals'| == |jaccards'| == |kendalls'| == i + 1
    ensures AllEvaluated(g, ppr, root, nodes, evals', jaccards', kendalls')
    ensures Accumulated(ppr, nodes, jaccards', kendalls', jaccardSum', jaccardMin', kendallSum', kendallMin', sizeSum')
  {
    var jaccard, kendall, e := EvaluateAt(g, ppr, nodes, root, i, evals, jaccards, kendalls);
    jaccardSum', jaccardMin', kendallSum', kendallMin', sizeSum' :=
      Accumulate(ppr, nodes, i, jaccards, kendalls,
                 jaccardSum, jaccardMin, kendallSum, kendallMin, sizeSum, jaccard, kendall);
    evals', jaccards', kendalls' := evals + [e], jaccards + [jaccard], kendalls + [kendall];
  }

  /**
   * The second loop: evaluate every selected node in turn, adding its
   * Jaccard index, tau-b value and basket size to the running sums and
   * lowering the running minima.
   */
  method EvaluateAll<K>(g: Graph<K>, ppr: Table<K>, nodes: seq<K>, root: real -> real)
    returns (jaccardSum: real, jaccardMin: real, kendallSum: real, kendallMin: real, sizeSum: real,
             ghost evals: seq<Evaluation<K>>, ghost jaccards: seq<real>, ghost kendalls: seq<real>)
    requires Closed(g) && IsSquareRoot(root)
    requires forall i :: 0 <= i < |nodes| ==> nodes[i] in ppr && nodes[i] in g
    ensures |evals| == |jaccards| == |kendalls| == |nodes|
    ensures AllEvaluated(g, ppr, root, nodes, evals, jaccards, kendalls)
    ensures Accumulated(ppr, nodes, jaccards, kendalls, jaccardSum, jaccardMin, kendallSum, kendallMin, sizeSum)
  {
    evals, jaccards, kendalls := [], [], [];
    jaccardSum, jaccardMin, kendallSum, kendallMin, sizeSum := 0.0, 1.0, 0.0, 1.0, 0.0;
    for i := 0 to |nodes|
      invariant |jaccards| == i
      invariant |evals| == |kendalls| == i
      invariant AllEvaluated(g, ppr, root, nodes, evals, jaccards, kendalls)
      invariant Accumulated(ppr, nodes, jaccards, kendalls,
                            jaccardSum, jaccardMin, kendallSum, kendallMin, sizeSum)
    {
      jaccardSum, jaccardMin, kendallSum, kendallMin, sizeSum, evals, jaccards, kendalls :=
        EvaluateNext(g, ppr, nodes, root, i, jaccardSum, jaccardMin, kendallSum, kendallMin, sizeSum,
                     evals, jaccards, kendalls);
    }
  }

  /**
   * benchmarkAlgorithm: validate and select the source nodes, evaluate each
   * of them, and report the five statistics. testNodes is never read: every
   * selected node is evaluated. The averages divide by the number of
   * selected nodes, so with none they are NaN while the minima stay 1.
   */
  method BenchmarkAlgorithm<K>(ppr: Table<K>, g: Graph<K>, testNodes: nat, strict: bool,
                               root: real -> real)
    returns (r: Result<map<string, Stat>, K>, ghost nodes: seq<K>, ghost evals: seq<Evaluation<K>>,
             ghost jaccards: seq<real>, ghost kendalls: seq<real>)
    requires Closed(g) && IsSquareRoot(root)
    ensures r.Err? <==> !(ppr.Keys <= g.Keys)
    ensures r.Err? ==> && r.error.NotFound? && r.error.message == NotInGraph
                       && r.error.node in ppr && r.error.node !in g
    ensures r.Ok? ==> IsBenchmark(g, ppr, strict, root, nodes, evals, jaccards, kendalls, r.value)
  {
    nodes, evals, jaccards, kendalls := [], [], [], [];
    var selection := SelectNodes(ppr, g, strict);
    if selection.Err? {
      return Err(selection.error), nodes, evals, jaccards, kendalls;
    }
    var selected := selection.value;
    nodes := selected;
    ListsWithin(selected, Selected(ppr, g, strict));
    forall i | 0 <= i < |selected| ensures selected[i] in ppr && selected[i] in g {
      assert selected[i] in Selected(ppr, g, strict);
    }
    var jaccardSum, jaccardMin, kendallSum, kendallMin, sizeSum;
    jaccardSum, jaccardMin, kendallSum, kendallMin, sizeSum, evals, jaccards, kendalls :=
      EvaluateAll(g, ppr, selected, root);
    assert selected[..|selected|] == selected;
    var result := Report(jaccardSum, jaccardMin, kendallSum, kendallMin, sizeSum, |selected|);
    return Ok(result), nodes, evals, jaccards, kendalls;
  }

  // ---------------------------------------------------------------------
  // Properties
  // ---------------------------------------------------------------------

  /** A vector that lists a set has as many elements as the set. */
  lemma {:induction false} ListsCount<K>(part: seq<K>, A: set<K>)
    requires Lists(part, A)
    ensures |part| == |A|
    decreases |part|
  {
    if part != [] {
      ListsCount(part[..|part| - 1], A - {part[|part| - 1]});
    }
  }

  /** The running minimum is at most its start and every value, and it is one of them. */
  lemma {:induction false} LeastBounds(start: real, s: seq<real>)
    ensures Least(start, s) <= start
    ensures forall i :: 0 <= i < |s| ==> Least(start, s) <= s[i]
    ensures Least(start, s) == start || exists i :: 0 <= i < |s| && Least(start, s) == s[i]
    decreases |s|
  {
    if s != [] {
      var n := |s| - 1;
      LeastBounds(start, s[..n]);
      forall i | 0 <= i < n ensures Least(start, s) <= s[i] {
        assert s[..n][i] == s[i];
      }
      if Least(start, s[..n]) != start && Least(start, s) != s[n] {
        var j :| 0 <= j < n && Least(start, s[..n]) == s[..n][j];
        assert Least(start, s) == s[j];
      }
    }
  }

  /** A sum of values all at least lo is at least |s| * lo. */
  lemma {:induction false} SumAtLeast(s: seq<real>, lo: real)
    requires forall i :: 0 <= i < |s| ==> lo <= s[i]
    ensures (|s| as real) * lo <= Sum(s)
    decreases |s|
  {
    if s != [] {
      var n := |s| - 1;
      SumAtLeast(s[..n], lo);
      assert (|s| as real) * lo == (n as real) * lo + lo;
    }
  }

  /** A sum of values all at most hi is at most |s| * hi. */
  lemma {:induction false} SumAtMost(s: seq<real>, hi: real)
    requires forall i :: 0 <= i < |s| ==> s[i] <= hi
    ensures Sum(s) <= (|s| as real) * hi
    decreases |s|
  {
    if s != [] {
      var n := |s| - 1;
      SumAtMost(s[..n], hi);
      assert (|s| as real) * hi == (n as real) * hi + hi;
    }
  }

  /** The average of a sum between count * lo and count * hi lies between lo and hi. */
  lemma AverageBounds(sum: real, count: nat, lo: real, hi: real)
    requires count > 0
    requires (count as real) * lo <= sum <= (count as real) * hi
    ensures Average(sum, count).Number?
    ensures lo <= Average(sum, count).value <= hi
  {
    var c := count as real;
    var a := sum / c;
    assert a * c == sum;
    if a < lo {
      assert (lo - a) * c > 0.0;
    }
    if a > hi {
      assert (a - hi) * c > 0.0;
    }
  }

  /** Each node's Jaccard index lies in [0, 1]. */
  lemma JaccardsInRange<K>(g: Graph<K>, ppr: Table<K>, root: real -> real, nodes: seq<K>,
                           evals: seq<Evaluation<K>>, jaccards: seq<real>, kendalls: seq<real>)
    requires IsSquareRoot(root)
    requires forall i :: 0 <= i < |nodes| ==> nodes[i] in ppr
    requires |evals| == |jaccards| == |kendalls| <= |nodes|
    requires AllEvaluated(g, ppr, root, nodes, evals, jaccards, kendalls)
    ensures forall i :: 0 <= i < |jaccards| ==> 0.0 <= jaccards[i] <= 1.0
  {
    forall i | 0 <= i < |jaccards| ensures 0.0 <= jaccards[i] <= 1.0 {
      assert Evaluates(g, ppr[nodes[i]], nodes[i], root, evals[i], jaccards[i], kendalls[i]);
      Baskets.JaccardRange(ppr[nodes[i]].Keys, evals[i].top.Keys);
    }
  }

  /**
   * Values in [0, 1]: the running minimum from 1 stays in [0, 1], and the
   * average of at least one value lies between the minimum and 1.
   */
  lemma UnitStatistics(s: seq<real>)
    requires forall i :: 0 <= i < |s| ==> 0.0 <= s[i] <= 1.0
    ensures 0.0 <= Least(1.0, s) <= 1.0
    ensures |s| > 0 ==> Average(Sum(s), |s|).Number?
                        && Least(1.0, s) <= Average(Sum(s), |s|).value <= 1.0
  {
    var least := Least(1.0, s);
    LeastBounds(1.0, s);
    if least != 1.0 {
      var j :| 0 <= j < |s| && least == s[j];
    }
    if |s| > 0 {
      SumAtLeast(s, least);
      SumAtMost(s, 1.0);
      AverageBounds(Sum(s), |s|, least, 1.0);
    }
  }

  /**
   * The Jaccard statistics: the minimum lies in [0, 1]; the average is NaN
   * exactly when no node was selected, and otherwise lies between the
   * minimum and 1.
   */
  lemma JaccardStatistics<K>(g: Graph<K>, ppr: Table<K>, strict: bool, root: real -> real,
                             nodes: seq<K>, evals: seq<Evaluation<K>>,
                             jaccards: seq<real>, kendalls: seq<real>, result: map<string, Stat>)
    requires IsSquareRoot(root)
    requires IsBenchmark(g, ppr, strict, root, nodes, evals, jaccards, kendalls, result)
    ensures result["jaccard min"].Number? && 0.0 <= result["jaccard min"].value <= 1.0
    ensures result["jaccard average"].NaN? <==> Selected(ppr, g, strict) == {}
    ensures result["jaccard average"].Number? ==>
              result["jaccard min"].value <= result["jaccard average"].value <= 1.0
  {
    ListsCount(nodes, Selected(ppr, g, strict));
    JaccardsInRange(g, ppr, root, nodes, evals, jaccards, kendalls);
    UnitStatistics(jaccards);
  }

  /**
   * With no selected node (an empty table, or strict mode on a graph
   * without edges) the averages are NaN and the minima keep their start 1.
   */
  lemma NoNodeSelected<K>(g: Graph<K>, ppr: Table<K>, strict: bool, root: real -> real,
                          nodes: seq<K>, evals: seq<Evaluation<K>>,
                          jaccards: seq<real>, kendalls: seq<real>, result: map<string, Stat>)
    requires IsSquareRoot(root)
    requires IsBenchmark(g, ppr, strict, root, nodes, evals, jaccards, kendalls, result)
    requires ppr == map[] || (strict && Edgeless(g))
    ensures result["jaccard average"] == NaN && result["kendall average"] == NaN
    ensures result["average map size"] == NaN
    ensures result["jaccard min"] == Number(1.0) && result["kendall min"] == Number(1.0)
  {
    ListsCount(nodes, Selected(ppr, g, strict));
  }

  /** The size of the basket of v as a double, 0 for a source without one. */
  function BasketSize<K>(ppr: Table<K>): K -> real
  {
    v => if v in ppr then |ppr[v]| as real else 0.0
  }

  /** The sum of the basket sizes over the nodes listed does not depend on their order. */
  lemma {:induction false} SizesSum<K>(ppr: Table<K>, nodes: seq<K>, A: set<K>)
    requires Lists(nodes, A)
    requires forall i :: 0 <= i < |nodes| ==> nodes[i] in ppr
    ensures Sum(Sizes(ppr, nodes)) == SumSet(A, BasketSize(ppr))
    decreases |nodes|
  {
    if nodes != [] {
      var n := |nodes| - 1;
      var x := nodes[n];
      SizesSum(ppr, nodes[..n], A - {x});
      assert Sizes(ppr, nodes)[..n] == Sizes(ppr, nodes[..n]);
      SumSetRemove(A, x, BasketSize(ppr));
    }
  }

  /**
   * "average map size" is the total size of the selected baskets over the
   * number of selected nodes, whatever order the table was iterated in.
   */
  lemma AverageMapSize<K>(g: Graph<K>, ppr: Table<K>, strict: bool, root: real -> real,
                          nodes: seq<K>, evals: seq<Evaluation<K>>,
                          jaccards: seq<real>, kendalls: seq<real>, result: map<string, Stat>)
    requires IsSquareRoot(root)
    requires IsBenchmark(g, ppr, strict, root, nodes, evals, jaccards, kendalls, result)
    ensures result["average map size"] ==
              Average(SumSet(Selected(ppr, g, strict), BasketSize(ppr)), |Selected(ppr, g, strict)|)
  {
    ListsCount(nodes, Selected(ppr, g, strict));
    SizesSum(ppr, nodes, Selected(ppr, g, strict));
  }

  /** The square root of the square of a positive integer is that integer. */
  lemma RootOfSquare(root: real -> real, m: int)
    requires IsSquareRoot(root) && m > 0
    ensures root((m * m) as real) == m as real
  {
    var x, r, mr := (m * m) as real, root((m * m) as real), m as real;
    assert SquareRootAt(root, x);
    assert x == mr * mr;
    assert r >= 0.0 && r * r == x;
    assert (r - mr) * (r + mr) == 0.0;
    assert r + mr > 0.0;
  }

  /** num / sqrt(den2) when den2 is the square of num: the sign of num. */
  lemma RatioOfSquare(root: real -> real, num: int, den2: int)
    requires IsSquareRoot(root) && num != 0 && den2 == num * num
    ensures KendallValue(Kendall.Ratio(num, den2), root) == if num > 0 then 1.0 else -1.0
  {
    var m := if num > 0 then num else -num;
    assert den2 == m * m;
    RootOfSquare(root, m);
    assert root(den2 as real) == m as real;
    assert (m as real) / (m as real) == 1.0 && -(m as real) / (m as real) == -1.0;
    assert num as real == (if num > 0 then m as real else -(m as real));
  }

  /** The oracle is deterministic: two of its baskets for the same source are equal. */
  lemma OracleUnique<K>(g: Graph<K>, node: K, a: Basket<K>, b: Basket<K>)
    requires IsOracleRun(g, node, a) && IsOracleRun(g, node, b)
    ensures a == b
  {
    var n1 :| StopsAfter(Oracle.RoundDiffs(g, OracleDamping, node, n1), OracleIterations, OracleTolerance)
              && a == Oracle.Iterate(g, OracleDamping, node, n1);
    var n2 :| StopsAfter(Oracle.RoundDiffs(g, OracleDamping, node, n2), OracleIterations, OracleTolerance)
              && b == Oracle.Iterate(g, OracleDamping, node, n2);
    Oracle.StopsAfterOnce(g, OracleDamping, node, OracleIterations, OracleTolerance, n1, n2);
  }

  /** Correlating a basket's scores with themselves gives 1. */
  lemma KendallOfItself<K>(other: Basket<K>, keys: seq<K>, root: real -> real)
    requires IsSquareRoot(root)
    ensures KendallValue(Tau(other, other, keys), root) == 1.0
  {
    var x := Column(other, keys);
    Kendall.TauBIdentical(x);
    var c := Tau(other, other, keys);
    assert c == Kendall.TauB(Kendall.Zip(x, x));
    if c.Ratio? {
      RatioOfSquare(root, c.num, c.den2);
    }
  }

  /**
   * A basket that is the oracle's own basket for its source compares
   * perfectly: both the Jaccard index and tau-b are 1.
   */
  lemma SelfEvaluation<K>(g: Graph<K>, other: Basket<K>, node: K, root: real -> real,
                          e: Evaluation<K>, jaccard: real, kendall: real)
    requires IsSquareRoot(root)
    requires Evaluates(g, other, node, root, e, jaccard, kendall)
    requires IsOracleRun(g, node, other)
    ensures jaccard == 1.0 && kendall == 1.0
  {
    OracleUnique(g, node, other, e.full);
    Baskets.TopOfSmall(|other|, e.full, e.top);
    Baskets.JaccardRange(other.Keys, other.Keys);
    KendallOfItself(other, e.keys, root);
  }

  /** other holds the scores of full negated: same keys, opposite scores. */
  ghost predicate NegatedOf<K>(other: Basket<K>, full: Basket<K>)
  {
    other.Keys == full.Keys && forall k :: k in other ==> other[k] == -full[k]
  }

  /** The oracle's column of a negated basket is the negation of its column. */
  lemma NegatedColumn<K>(other: Basket<K>, full: Basket<K>, keys: seq<K>)
    requires NegatedOf(other, full) && Lists(keys, other.Keys)
    ensures Column(full, keys) == Kendall.Negated(Column(other, keys))
  {
    ListsWithin(keys, other.Keys);
  }

  /** Correlating scores with their negations gives -1, unless every pair is tied. */
  lemma KendallOfNegated<K>(other: Basket<K>, full: Basket<K>, keys: seq<K>, root: real -> real)
    requires IsSquareRoot(root)
    requires NegatedOf(other, full) && Lists(keys, other.Keys)
    ensures KendallValue(Tau(other, full, keys), root) == -1.0
            || Tau(other, full, keys) == Kendall.Degenerate(1.0)
  {
    var x := Column(other, keys);
    NegatedColumn(other, full, keys);
    Kendall.TauBReversed(x);
    var c := Tau(other, full, keys);
    assert c == Kendall.TauB(Kendall.Zip(x, Kendall.Negated(x)));
    if c.Ratio? {
      RatioOfSquare(root, c.num, c.den2);
    }
  }

  /**
   * A basket holding the oracle's scores negated has the oracle's keys
   * (Jaccard 1) and the reverse order (tau-b -1), unless all its scores
   * are tied, when tau-b is the constant 1.
   */
  lemma NegatedEvaluation<K>(g: Graph<K>, other: Basket<K>, node: K, root: real -> real,
                             e: Evaluation<K>, jaccard: real, kendall: real, full: Basket<K>)
    requires IsSquareRoot(root)
    requires Evaluates(g, other, node, root, e, jaccard, kendall)
    requires IsOracleRun(g, node, full) && NegatedOf(other, full)
    ensures jaccard == 1.0
    ensures kendall == -1.0 || Tau(other, e.full, e.keys) == Kendall.Degenerate(1.0)
  {
    OracleUnique(g, node, full, e.full);
    assert |other| == |full| by {
      assert other.Keys == full.Keys;
    }
    Baskets.TopOfSmall(|other|, e.full, e.top);
    Baskets.JaccardRange(other.Keys, full.Keys);
    KendallOfNegated(other, full, e.keys, root);
  }

  /** The oracle's basket for a source without successors holds just the source. */
  lemma DeadEndOracle<K>(g: Graph<K>, node: K, full: Basket<K>)
    requires IsOracleRun(g, node, full)
    requires node in g && g[node] == []
    ensures full.Keys == {node}
  {
    var n :| StopsAfter(Oracle.RoundDiffs(g, OracleDamping, node, n), OracleIterations, OracleTolerance)
             && full == Oracle.Iterate(g, OracleDamping, node, n);
    assert |Oracle.RoundDiffs(g, OracleDamping, node, n)| == n;
    Oracle.IsolatedSource(g, OracleDamping, node, n);
  }

  /**
   * A source without successors whose basket holds just itself compares
   * perfectly: the oracle keeps only the source, and a single score has
   * tau-b 1.
   */
  lemma DeadEndEvaluation<K>(g: Graph<K>, other: Basket<K>, node: K, root: real -> real,
                             e: Evaluation<K>, jaccard: real, kendall: real)
    requires IsSquareRoot(root)
    requires Evaluates(g, other, node, root, e, jaccard, kendall)
    requires node in g && g[node] == [] && other.Keys == {node}
    ensures jaccard == 1.0 && kendall == 1.0
  {
    DeadEndOracle(g, node, e.full);
    Baskets.TopOfSmall(|other|, e.full, e.top);
    Baskets.JaccardRange(other.Keys, e.top.Keys);
    ListsCount(e.keys, other.Keys);
    Kendall.TauBShort(Column(other, e.keys), Column(e.full, e.keys));
    assert Tau(other, e.full, e.keys) == Kendall.Degenerate(1.0);
  }

  /** Values that are all 1 have average 1 and minimum 1. */
  lemma AllOnes(s: seq<real>)
    requires |s| > 0 && forall i :: 0 <= i < |s| ==> s[i] == 1.0
    ensures Average(Sum(s), |s|) == Number(1.0) && Least(1.0, s) == 1.0
  {
    LeastBounds(1.0, s);
    SumAtLeast(s, 1.0);
    SumAtMost(s, 1.0);
    AverageBounds(Sum(s), |s|, 1.0, 1.0);
  }

  /** Every node scoring 1 on both indices gives 1 for all four index statistics. */
  lemma PerfectStatistics(jaccards: seq<real>, kendalls: seq<real>, sizeSum: real, result: map<string, Stat>)
    requires |jaccards| == |kendalls| > 0
    requires result == Report(Sum(jaccards), Least(1.0, jaccards), Sum(kendalls), Least(1.0, kendalls),
                              sizeSum, |jaccards|)
    requires forall i :: 0 <= i < |jaccards| ==> jaccards[i] == 1.0 && kendalls[i] == 1.0
    ensures result["jaccard average"] == Number(1.0) && result["jaccard min"] == Number(1.0)
    ensures result["kendall average"] == Number(1.0) && result["kendall min"] == Number(1.0)
  {
    AllOnes(jaccards);
    AllOnes(kendalls);
  }

  /**
   * Benchmarking the oracle against itself: when every basket of the table
   * is the oracle's basket for its source, all four index statistics are 1.
   */
  lemma OracleAgainstItself<K>(g: Graph<K>, ppr: Table<K>, strict: bool, root: real -> real,
                               nodes: seq<K>, evals: seq<Evaluation<K>>,
                               jaccards: seq<real>, kendalls: seq<real>, result: map<string, Stat>)
    requires IsSquareRoot(root)
    requires IsBenchmark(g, ppr, strict, root, nodes, evals, jaccards, kendalls, result)
    requires Selected(ppr, g, strict) != {}
    requires forall v :: v in ppr ==> IsOracleRun(g, v, ppr[v])
    ensures result["jaccard average"] == Number(1.0) && result["jaccard min"] == Number(1.0)
    ensures result["kendall average"] == Number(1.0) && result["kendall min"] == Number(1.0)
  {
    ListsCount(nodes, Selected(ppr, g, strict));
    forall i | 0 <= i < |nodes| ensures jaccards[i] == 1.0 && kendalls[i] == 1.0 {
      assert Evaluates(g, ppr[nodes[i]], nodes[i], root, evals[i], jaccards[i], kendalls[i]);
      SelfEvaluation(g, ppr[nodes[i]], nodes[i], root, evals[i], jaccards[i], kendalls[i]);
    }
    PerfectStatistics(jaccards, kendalls, Sum(Sizes(ppr, nodes)), result);
  }

  /**
   * A graph without edges, benchmarked with baskets that each hold just
   * their source, gives 1 for all four index statistics.
   */
  lemma EdgelessGraph<K>(g: Graph<K>, ppr: Table<K>, strict: bool, root: real -> real,
                         nodes: seq<K>, evals: seq<Evaluation<K>>,
                         jaccards: seq<real>, kendalls: seq<real>, result: map<string, Stat>)
    requires IsSquareRoot(root)
    requires IsBenchmark(g, ppr, strict, root, nodes, evals, jaccards, kendalls, result)
    requires Edgeless(g) && Selected(ppr, g, strict) != {}
    requires forall v :: v in ppr ==> ppr[v].Keys == {v}
    ensures result["jaccard average"] == Number(1.0) && result["jaccard min"] == Number(1.0)
    ensures result["kendall average"] == Number(1.0) && result["kendall min"] == Number(1.0)
  {
    ListsCount(nodes, Selected(ppr, g, strict));
    ListsWithin(nodes, Selected(ppr, g, strict));
    forall i | 0 <= i < |nodes| ensures jaccards[i] == 1.0 && kendalls[i] == 1.0 {
      assert Evaluates(g, ppr[nodes[i]], nodes[i], root, evals[i], jaccards[i], kendalls[i]);
      assert nodes[i] in g;
      DeadEndEvaluation(g, ppr[nodes[i]], nodes[i], root, evals[i], jaccards[i], kendalls[i]);
    }
    PerfectStatistics(jaccards, kendalls, Sum(Sizes(ppr, nodes)), result);
  }
}
