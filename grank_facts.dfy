/**
 * What every run of the sequential engine guarantees: the shape of the
 * tables (one basket per node, at most L entries each, at most K in the
 * result), the stop rule's consequences, non-negative scores, and the
 * baskets of a graph without edges.
 */
module GrankFacts {
  import opened Common
  import Baskets
  import Oracle
  import Grank
  import Partitions

  // ---------------------------------------------------------------------
  // Shape of the tables
  // ---------------------------------------------------------------------

  /** Every table of a run has exactly one basket per node of the graph. */
  lemma {:induction false} TableKeys<K>(g: Graph<K>, d: real, topL: nat, iterations: nat, tol: real,
                                        first: set<K>, second: set<K>, tables: seq<Table<K>>,
                                        diffs: seq<real>, j: nat)
    requires Grank.IsRun(g, d, topL, iterations, tol, first, second, tables, diffs)
    requires j < |tables|
    ensures tables[j].Keys == g.Keys
  {
    if j > 0 {
      TableKeys(g, d, topL, iterations, tol, first, second, tables, diffs, j - 1);
      Grank.RoundAt(g, d, topL, first, second, tables, diffs, j - 1);
    }
  }

  /** Every basket of every table of a run has at most L entries. */
  lemma {:induction false} TableSizes<K>(g: Graph<K>, d: real, topL: nat, iterations: nat, tol: real,
                                         first: set<K>, second: set<K>, tables: seq<Table<K>>,
                                         diffs: seq<real>, j: nat)
    requires Grank.IsRun(g, d, topL, iterations, tol, first, second, tables, diffs)
    requires j < |tables|
    ensures forall v :: v in tables[j] ==> |tables[j][v]| <= topL
  {
    if j > 0 {
      TableSizes(g, d, topL, iterations, tol, first, second, tables, diffs, j - 1);
      Grank.RoundAt(g, d, topL, first, second, tables, diffs, j - 1);
      var active := Grank.Active(first, second, j - 1);
      forall v | v in tables[j] ensures |tables[j][v]| <= topL {
        if v in active {
          assert Grank.Lookup(tables[j], v) == tables[j][v];
        }
      }
    }
  }

  /**
   * The engine's result has one basket per node of the graph, each with at
   * most K entries; on the empty graph it is empty.
   */
  lemma ResultShape<K(!new)>(g: Graph<K>, topK: nat, topL: nat, iterations: nat, d: real, tol: real,
                             result: Table<K>)
    requires Grank.IsGrankResult(g, topK, topL, iterations, d, tol, result)
    ensures result.Keys == g.Keys
    ensures forall v :: v in result ==> |result[v]| <= topK
    ensures g == map[] ==> result == map[]
  {
    var first, second, tables, diffs :|
      Grank.IsGrankRun(g, topK, topL, iterations, d, tol, first, second, tables, diffs, result);
    RunShape(g, topK, topL, iterations, d, tol, first, second, tables, diffs, result);
  }

  lemma RunShape<K(!new)>(g: Graph<K>, topK: nat, topL: nat, iterations: nat, d: real, tol: real,
                          first: set<K>, second: set<K>, tables: seq<Table<K>>, diffs: seq<real>,
                          result: Table<K>)
    requires Grank.IsGrankRun(g, topK, topL, iterations, d, tol, first, second, tables, diffs, result)
    ensures result.Keys == g.Keys
    ensures forall v :: v in result ==> |result[v]| <= topK
    ensures g == map[] ==> result == map[]
  {
    TableKeys(g, d, topL, iterations, tol, first, second, tables, diffs, |tables| - 1);
  }

  // ---------------------------------------------------------------------
  // The stop rule
  // ---------------------------------------------------------------------

  /**
   * With a budget of two rounds or more, both sets are rebuilt at least
   * once: the first stop test compares against the tolerance itself, so it
   * always passes.
   */
  lemma AtLeastTwoRounds(tol: real, diffs: seq<real>, iterations: nat)
    requires Grank.GrankStops(tol, diffs, iterations) && iterations >= 2
    ensures |diffs| >= 2
  {
    assert Grank.TestAfter(tol, diffs, 0) >= tol;
  }

  /**
   * A run that stops before its budget is spent stops because its last
   * two rounds (its only round, when a single round ran) each moved every
   * basket by less than the tolerance.
   */
  lemma EarlyStopSettled(tol: real, diffs: seq<real>, iterations: nat)
    requires Grank.GrankStops(tol, diffs, iterations) && |diffs| < iterations
    ensures diffs[|diffs| - 1] < tol
    ensures |diffs| >= 2 ==> diffs[|diffs| - 2] < tol
    ensures |diffs| >= 2
  {
    AtLeastTwoRounds(tol, diffs, iterations);
  }

  /**
   * A run that goes on after round j does so because round j or the round
   * before it moved some basket by at least the tolerance.
   */
  lemma GoingOnUnsettled(tol: real, diffs: seq<real>, iterations: nat, j: nat)
    requires Grank.GrankStops(tol, diffs, iterations) && 0 < j < |diffs| - 1
    ensures diffs[j - 1] >= tol || diffs[j] >= tol
  {
    assert Grank.TestAfter(tol, diffs, j) >= tol;
  }

  /** Every distance of a run is non-negative. */
  lemma DiffNonNegative<K>(g: Graph<K>, d: real, topL: nat, iterations: nat, tol: real,
                           first: set<K>, second: set<K>, tables: seq<Table<K>>,
                           diffs: seq<real>, j: nat)
    requires Grank.IsRun(g, d, topL, iterations, tol, first, second, tables, diffs)
    requires j < |diffs|
    ensures diffs[j] >= 0.0
  {
    Grank.RoundAt(g, d, topL, first, second, tables, diffs, j);
  }

  /** With a negative tolerance the run spends its whole budget. */
  lemma NegativeToleranceRunsAll<K>(g: Graph<K>, d: real, topL: nat, iterations: nat, tol: real,
                                    first: set<K>, second: set<K>, tables: seq<Table<K>>,
                                    diffs: seq<real>)
    requires Grank.IsRun(g, d, topL, iterations, tol, first, second, tables, diffs)
    requires tol < 0.0
    ensures |diffs| == iterations
  {
    DiffNonNegative(g, d, topL, iterations, tol, first, second, tables, diffs, |diffs| - 1);
    assert Grank.TestAfter(tol, diffs, |diffs| - 1) >= diffs[|diffs| - 1];
  }

  // ---------------------------------------------------------------------
  // Non-negative scores
  // ---------------------------------------------------------------------

  /** Every basket of the table is non-negative. */
  ghost predicate AllNonNegative<K>(t: Table<K>)
  {
    forall v :: v in t ==> NonNegative(t[v])
  }

  lemma {:induction false} MassNonNegative<K>(scores: Table<K>, succ: seq<K>, k: K)
    requires AllNonNegative(scores)
    ensures Grank.Mass(scores, succ, k) >= 0.0
    decreases |succ|
  {
    if succ != [] {
      MassNonNegative(scores, succ[..|succ| - 1], k);
    }
  }

  lemma FactorNonNegative(d: real, outdeg: nat)
    requires d >= 0.0
    ensures Oracle.Factor(d, outdeg) >= 0.0
  {
  }

  /** A damping in [0, 1] and non-negative baskets give a non-negative rebuilt basket. */
  lemma NewBasketNonNegative<K(!new)>(g: Graph<K>, d: real, scores: Table<K>, v: K)
    requires v in g && 0.0 <= d <= 1.0 && AllNonNegative(scores)
    ensures NonNegative(Grank.NewBasket(g, d, scores, v))
  {
    var b := Grank.NewBasket(g, d, scores, v);
    forall k | k in b ensures b[k] >= 0.0 {
      Grank.NewBasketMeaning(g, d, scores, v, k);
      MassNonNegative(scores, g[v], k);
      FactorNonNegative(d, |g[v]|);
      ProductNonNegative(Oracle.Factor(d, |g[v]|), Grank.Mass(scores, g[v], k));
    }
  }

  lemma ProductNonNegative(a: real, b: real)
    requires a >= 0.0 && b >= 0.0
    ensures a * b >= 0.0
  {
  }

  /** A damping in [0, 1] gives a non-negative initial basket. */
  lemma InitBasketNonNegative<K>(g: Graph<K>, d: real, v: K)
    requires v in g && 0.0 <= d <= 1.0
    ensures NonNegative(Grank.InitBasket(g, d, v))
  {
    var b := Grank.InitBasket(g, d, v);
    forall k | k in b ensures b[k] >= 0.0 {
      Grank.InitBasketMeaning(g, d, v, k);
      FactorNonNegative(d, |g[v]|);
      Oracle.TimesNonNegative(Oracle.Factor(d, |g[v]|), Oracle.Occurrences(g[v], k));
    }
  }

  /** With a damping in [0, 1] every basket of every table of a run is non-negative. */
  lemma {:induction false} TableNonNegative<K(!new)>(g: Graph<K>, d: real, topL: nat, iterations: nat,
                                                    tol: real, first: set<K>, second: set<K>,
                                                    tables: seq<Table<K>>, diffs: seq<real>, j: nat)
    requires Grank.IsRun(g, d, topL, iterations, tol, first, second, tables, diffs)
    requires 0.0 <= d <= 1.0 && j < |tables|
    ensures AllNonNegative(tables[j])
  {
    if j == 0 {
      forall v | v in tables[0] ensures NonNegative(tables[0][v]) {
        InitBasketNonNegative(g, d, v);
      }
    } else {
      TableNonNegative(g, d, topL, iterations, tol, first, second, tables, diffs, j - 1);
      Grank.RoundAt(g, d, topL, first, second, tables, diffs, j - 1);
      var active := Grank.Active(first, second, j - 1);
      forall v | v in tables[j] ensures NonNegative(tables[j][v]) {
        if v in active {
          NewBasketNonNegative(g, d, tables[j - 1], v);
          assert Grank.Lookup(tables[j], v) == tables[j][v];
        }
      }
    }
  }

  /** With a damping in [0, 1] every score the engine returns is non-negative. */
  lemma ResultNonNegative<K(!new)>(g: Graph<K>, topK: nat, topL: nat, iterations: nat, d: real,
                                   tol: real, result: Table<K>)
    requires Grank.IsGrankResult(g, topK, topL, iterations, d, tol, result)
    requires 0.0 <= d <= 1.0
    ensures AllNonNegative(result)
  {
    var first, second, tables, diffs :|
      Grank.IsGrankRun(g, topK, topL, iterations, d, tol, first, second, tables, diffs, result);
    RunNonNegative(g, topK, topL, iterations, d, tol, first, second, tables, diffs, result);
  }

  lemma RunNonNegative<K(!new)>(g: Graph<K>, topK: nat, topL: nat, iterations: nat, d: real, tol: real,
                                first: set<K>, second: set<K>, tables: seq<Table<K>>, diffs: seq<real>,
                                result: Table<K>)
    requires Grank.IsGrankRun(g, topK, topL, iterations, d, tol, first, second, tables, diffs, result)
    requires 0.0 <= d <= 1.0
    ensures AllNonNegative(result)
  {
    TableNonNegative(g, d, topL, iterations, tol, first, second, tables, diffs, |tables| - 1);
    TrimmedNonNegative(topK, tables[|tables| - 1], result);
  }

  /** Trimming keeps a table non-negative. */
  lemma TrimmedNonNegative<K>(topK: nat, t: Table<K>, r: Table<K>)
    requires Grank.IsTrimmed(topK, t, r) && AllNonNegative(t)
    ensures AllNonNegative(r)
  {
    forall v | v in r ensures NonNegative(r[v]) {
      assert Baskets.IsTopOf(topK, t[v], r[v]);
    }
  }

  // ---------------------------------------------------------------------
  // Sinks, graphs without edges, stars
  // ---------------------------------------------------------------------

  /**
   * A node without successors (a sink) keeps exactly its own teleport
   * score 1 - d in every table.
   */
  lemma {:induction false} SinkTables<K>(g: Graph<K>, d: real, topL: nat, iterations: nat,
                                         tol: real, first: set<K>, second: set<K>,
                                         tables: seq<Table<K>>, diffs: seq<real>, v: K, j: nat)
    requires Grank.IsRun(g, d, topL, iterations, tol, first, second, tables, diffs)
    requires v in g && g[v] == [] && topL >= 1 && j < |tables|
    ensures v in tables[j] && tables[j][v] == map[v := 1.0 - d]
  {
    TableKeys(g, d, topL, iterations, tol, first, second, tables, diffs, j);
    if j == 0 {
      assert Grank.InitBasket(g, d, v) == map[v := 1.0 - d];
      Baskets.TopOfSmall(topL, map[v := 1.0 - d], tables[0][v]);
    } else {
      SinkTables(g, d, topL, iterations, tol, first, second, tables, diffs, v, j - 1);
      Grank.RoundAt(g, d, topL, first, second, tables, diffs, j - 1);
      if v in Grank.Active(first, second, j - 1) {
        assert Grank.NewBasket(g, d, tables[j - 1], v) == map[v := 1.0 - d];
        assert Grank.Lookup(tables[j], v) == tables[j][v];
        Baskets.TopOfSmall(topL, map[v := 1.0 - d], tables[j][v]);
      }
    }
  }

  /** On a graph without edges the engine gives every node the basket {v: 1 - d}. */
  lemma EdgelessResult<K(!new)>(g: Graph<K>, topK: nat, topL: nat, iterations: nat, d: real,
                                tol: real, result: Table<K>)
    requires Grank.IsGrankResult(g, topK, topL, iterations, d, tol, result)
    requires Edgeless(g) && 1 <= topK && 1 <= topL
    ensures result.Keys == g.Keys
    ensures forall v :: v in result ==> result[v] == map[v := 1.0 - d]
  {
    var first, second, tables, diffs :|
      Grank.IsGrankRun(g, topK, topL, iterations, d, tol, first, second, tables, diffs, result);
    EdgelessRun(g, topK, topL, iterations, d, tol, first, second, tables, diffs, result);
  }

  lemma EdgelessRun<K(!new)>(g: Graph<K>, topK: nat, topL: nat, iterations: nat, d: real, tol: real,
                             first: set<K>, second: set<K>, tables: seq<Table<K>>, diffs: seq<real>,
                             result: Table<K>)
    requires Grank.IsGrankRun(g, topK, topL, iterations, d, tol, first, second, tables, diffs, result)
    requires Edgeless(g) && 1 <= topK && 1 <= topL
    ensures result.Keys == g.Keys
    ensures forall v :: v in result ==> result[v] == map[v := 1.0 - d]
  {
    var last := tables[|tables| - 1];
    TableKeys(g, d, topL, iterations, tol, first, second, tables, diffs, |tables| - 1);
    forall v | v in result ensures result[v] == map[v := 1.0 - d] {
      SinkTables(g, d, topL, iterations, tol, first, second, tables, diffs, v, |tables| - 1);
      Baskets.TopOfSmall(topK, last[v], result[v]);
    }
  }

  /** The basket a leaf i of a star with centre c settles on. */
  function LeafBasket<K>(d: real, i: K, c: K): Basket<K>
  {
    map[i := 1.0 - d, c := d * (1.0 - d)]
  }

  /**
   * A leaf i whose only successor is the sink c, rebuilt from a table in
   * which c holds {c: 1 - d}, keeps 1 - d for itself and passes d (1 - d)
   * to c.
   */
  lemma LeafRebuilt<K(!new)>(g: Graph<K>, d: real, scores: Table<K>, i: K, c: K)
    requires i in g && g[i] == [c] && i != c
    requires c in scores && scores[c] == map[c := 1.0 - d]
    ensures Grank.NewBasket(g, d, scores, i) == LeafBasket(d, i, c)
  {
    var b := Grank.NewBasket(g, d, scores, i);
    assert [c][..0] == [];
    assert Grank.Reached(scores, [c]) == {c};
    forall k ensures (k in b <==> k in LeafBasket(d, i, c)) && Get(b, k) == Get(LeafBasket(d, i, c), k) {
      Grank.NewBasketMeaning(g, d, scores, i, k);
      assert Grank.Mass(scores, [c], k) == Get(map[c := 1.0 - d], k);
    }
    Grank.BasketsEqual(b, LeafBasket(d, i, c));
  }

  /** Round j - 1 or an earlier one rebuilt node i. */
  predicate RebuiltBefore<K>(first: set<K>, second: set<K>, i: K, j: nat)
  {
    (j >= 1 && i in first) || (j >= 2 && i in second)
  }

  /** Node v sits in every table, and a round whose set misses v copies its basket. */
  ghost predicate Carries<K>(first: set<K>, second: set<K>, tables: seq<Table<K>>, v: K)
  {
    (forall k :: 0 <= k < |tables| ==> v in tables[k]) &&
    forall k {:trigger Grank.Active(first, second, k)} ::
      0 <= k < |tables| - 1 && v !in Grank.Active(first, second, k) ==>
        v in tables[k] && v in tables[k + 1] && tables[k + 1][v] == tables[k][v]
  }

  /** A round whose set holds v rebuilds v's basket from the previous table and trims it. */
  ghost predicate Rebuilds<K>(g: Graph<K>, d: real, topL: nat, first: set<K>, second: set<K>,
                              tables: seq<Table<K>>, v: K)
  {
    v in g &&
    forall k {:trigger Grank.Active(first, second, k)} ::
      0 <= k < |tables| - 1 && v in Grank.Active(first, second, k) ==>
        v in tables[k + 1] && Baskets.IsTopOf(topL, Grank.NewBasket(g, d, tables[k], v), tables[k + 1][v])
  }

  /** What a run does to one node of the graph, round after round. */
  lemma NodeTrace<K>(g: Graph<K>, d: real, topL: nat, iterations: nat, tol: real,
                     first: set<K>, second: set<K>, tables: seq<Table<K>>, diffs: seq<real>, v: K)
    requires Grank.IsRun(g, d, topL, iterations, tol, first, second, tables, diffs)
    requires v in g
    ensures Carries(first, second, tables, v)
    ensures Rebuilds(g, d, topL, first, second, tables, v)
  {
    forall k | 0 <= k < |tables| ensures v in tables[k] {
      TableKeys(g, d, topL, iterations, tol, first, second, tables, diffs, k);
    }
    forall k | 0 <= k < |tables| - 1 && v !in Grank.Active(first, second, k)
      ensures v in tables[k] && v in tables[k + 1] && tables[k + 1][v] == tables[k][v]
    {
      TableKeys(g, d, topL, iterations, tol, first, second, tables, diffs, k);
      NodeCarried(g, d, topL, iterations, tol, first, second, tables, diffs, k + 1, v);
    }
    forall k | 0 <= k < |tables| - 1 && v in Grank.Active(first, second, k)
      ensures v in tables[k + 1] && Baskets.IsTopOf(topL, Grank.NewBasket(g, d, tables[k], v), tables[k + 1][v])
    {
      TableKeys(g, d, topL, iterations, tol, first, second, tables, diffs, k);
      NodeRebuilt(g, d, topL, iterations, tol, first, second, tables, diffs, k + 1, v);
    }
  }

  /** A node keeps its initial basket until the first round whose set holds it. */
  lemma {:induction false} KeptBefore<K>(first: set<K>, second: set<K>, tables: seq<Table<K>>,
                                         v: K, j: nat)
    requires Carries(first, second, tables, v)
    requires j < |tables| && !RebuiltBefore(first, second, v, j)
    ensures v in tables[j] && tables[j][v] == tables[0][v]
  {
    if j > 0 {
      KeptBefore(first, second, tables, v, j - 1);
      assert v !in Grank.Active(first, second, j - 1);
    }
  }

  /** In a star whose centre c is a sink, a leaf i holds {i: 1 - d, c: d} until its first rebuild. */
  lemma LeafBefore<K>(g: Graph<K>, d: real, topL: nat, iterations: nat,
                      tol: real, first: set<K>, second: set<K>,
                      tables: seq<Table<K>>, diffs: seq<real>, i: K, c: K, j: nat)
    requires Grank.IsRun(g, d, topL, iterations, tol, first, second, tables, diffs)
    requires i in g && g[i] == [c] && i != c
    requires topL >= 2 && j < |tables| && !RebuiltBefore(first, second, i, j)
    ensures i in tables[j] && tables[j][i] == map[i := 1.0 - d, c := d]
  {
    NodeTrace(g, d, topL, iterations, tol, first, second, tables, diffs, i);
    KeptBefore(first, second, tables, i, j);
    LeafInit(g, d, topL, i, c, tables[0][i]);
  }

  /** ... and LeafBasket from its first rebuild on. */
  lemma LeafAfter<K(!new)>(g: Graph<K>, d: real, topL: nat, iterations: nat,
                           tol: real, first: set<K>, second: set<K>,
                           tables: seq<Table<K>>, diffs: seq<real>, i: K, c: K, j: nat)
    requires Grank.IsRun(g, d, topL, iterations, tol, first, second, tables, diffs)
    requires i in g && c in g && g[i] == [c] && g[c] == [] && i != c
    requires topL >= 2 && j < |tables| && RebuiltBefore(first, second, i, j)
    ensures i in tables[j] && tables[j][i] == LeafBasket(d, i, c)
  {
    NodeTrace(g, d, topL, iterations, tol, first, second, tables, diffs, i);
    forall k | 0 <= k < |tables| ensures c in tables[k] && tables[k][c] == map[c := 1.0 - d] {
      SinkTables(g, d, topL, iterations, tol, first, second, tables, diffs, c, k);
    }
    LeafSettled(g, d, topL, first, second, tables, i, c, j);
  }

  /** The recursion behind LeafAfter, over what the run does to i and c. */
  lemma {:induction false} LeafSettled<K(!new)>(g: Graph<K>, d: real, topL: nat,
                                                first: set<K>, second: set<K>,
                                                tables: seq<Table<K>>, i: K, c: K, j: nat)
    requires Carries(first, second, tables, i) && Rebuilds(g, d, topL, first, second, tables, i)
    requires forall k :: 0 <= k < |tables| ==> c in tables[k] && tables[k][c] == map[c := 1.0 - d]
    requires i in g && g[i] == [c] && i != c
    requires topL >= 2 && j < |tables| && RebuiltBefore(first, second, i, j)
    ensures i in tables[j] && tables[j][i] == LeafBasket(d, i, c)
  {
    if i in Grank.Active(first, second, j - 1) {
      LeafRound(g, d, topL, tables[j - 1], tables[j][i], i, c);
    } else {
      LeafSettled(g, d, topL, first, second, tables, i, c, j - 1);
    }
  }

  /** Round j - 1 carries over the basket of a node outside its set. */
  lemma NodeCarried<K>(g: Graph<K>, d: real, topL: nat, iterations: nat, tol: real,
                       first: set<K>, second: set<K>, tables: seq<Table<K>>, diffs: seq<real>,
                       j: nat, v: K)
    requires Grank.IsRun(g, d, topL, iterations, tol, first, second, tables, diffs)
    requires 0 < j < |tables| && v in tables[j - 1] && v !in Grank.Active(first, second, j - 1)
    ensures v in tables[j] && tables[j][v] == tables[j - 1][v]
  {
    Grank.RoundAt(g, d, topL, first, second, tables, diffs, j - 1);
  }

  /** Round j - 1 rebuilds and trims the basket of a node of its set. */
  lemma NodeRebuilt<K>(g: Graph<K>, d: real, topL: nat, iterations: nat, tol: real,
                       first: set<K>, second: set<K>, tables: seq<Table<K>>, diffs: seq<real>,
                       j: nat, v: K)
    requires Grank.IsRun(g, d, topL, iterations, tol, first, second, tables, diffs)
    requires 0 < j < |tables| && v in tables[j - 1] && v in Grank.Active(first, second, j - 1)
    ensures v in g && v in tables[j]
    ensures Baskets.IsTopOf(topL, Grank.NewBasket(g, d, tables[j - 1], v), tables[j][v])
  {
    Grank.RoundAt(g, d, topL, first, second, tables, diffs, j - 1);
    RebuiltIn(g, d, topL, Grank.Active(first, second, j - 1), tables[j - 1], tables[j], diffs[j - 1], v);
  }

  /** A round rebuilds and trims the basket of every node of its set. */
  lemma RebuiltIn<K>(g: Graph<K>, d: real, topL: nat, active: set<K>,
                     scores: Table<K>, next: Table<K>, diff: real, v: K)
    requires Grank.IsRound(g, d, topL, active, scores, next, diff)
    requires v in scores && v in active
    ensures v in g && v in next
    ensures Baskets.IsTopOf(topL, Grank.NewBasket(g, d, scores, v), next[v])
  {
    assert Grank.Lookup(next, v) == next[v];
  }

  /** The initial basket of a leaf i whose only successor is c. */
  lemma LeafInit<K>(g: Graph<K>, d: real, topL: nat, i: K, c: K, b: Basket<K>)
    requires i in g && g[i] == [c] && i != c && topL >= 2
    requires Baskets.IsTopOf(topL, Grank.InitBasket(g, d, i), b)
    ensures b == map[i := 1.0 - d, c := d]
  {
    var m := map[i := 1.0 - d];
    assert [c][..0] == [];
    assert Oracle.Spread(m, [c][..0], Oracle.Factor(d, 1)) == m;
    assert Grank.InitBasket(g, d, i) == m[c := Get(m, c) + d];
    Baskets.TopOfSmall(topL, map[i := 1.0 - d, c := d], b);
  }

  /** A leaf rebuilt from a table in which the centre holds {c: 1 - d}, then trimmed. */
  lemma LeafRound<K(!new)>(g: Graph<K>, d: real, topL: nat, scores: Table<K>, b: Basket<K>, i: K, c: K)
    requires i in g && g[i] == [c] && i != c && topL >= 2
    requires c in scores && scores[c] == map[c := 1.0 - d]
    requires Baskets.IsTopOf(topL, Grank.NewBasket(g, d, scores, i), b)
    ensures b == LeafBasket(d, i, c)
  {
    LeafRebuilt(g, d, scores, i, c);
    Baskets.TopOfSmall(topL, LeafBasket(d, i, c), b);
  }

  /**
   * In a star whose centre c is a sink, with a budget of two rounds or
   * more and K, L >= 2, the engine gives a leaf i the basket
   * {i: 1 - d, c: d (1 - d)} and the centre the basket {c: 1 - d}.
   */
  lemma StarResult<K(!new)>(g: Graph<K>, topK: nat, topL: nat, iterations: nat, d: real, tol: real,
                            result: Table<K>, i: K, c: K)
    requires Grank.IsGrankResult(g, topK, topL, iterations, d, tol, result)
    requires i in g && c in g && g[i] == [c] && g[c] == [] && i != c
    requires 2 <= topK && 2 <= topL && 2 <= iterations
    ensures i in result && result[i] == LeafBasket(d, i, c)
    ensures c in result && result[c] == map[c := 1.0 - d]
  {
    var first, second, tables, diffs :|
      Grank.IsGrankRun(g, topK, topL, iterations, d, tol, first, second, tables, diffs, result);
    StarRun(g, topK, topL, iterations, d, tol, first, second, tables, diffs, result, i, c);
  }

  lemma StarRun<K(!new)>(g: Graph<K>, topK: nat, topL: nat, iterations: nat, d: real, tol: real,
                         first: set<K>, second: set<K>, tables: seq<Table<K>>, diffs: seq<real>,
                         result: Table<K>, i: K, c: K)
    requires Grank.IsGrankRun(g, topK, topL, iterations, d, tol, first, second, tables, diffs, result)
    requires i in g && c in g && g[i] == [c] && g[c] == [] && i != c
    requires 2 <= topK && 2 <= topL && 2 <= iterations
    ensures i in result && result[i] == LeafBasket(d, i, c)
    ensures c in result && result[c] == map[c := 1.0 - d]
  {
    var n := |tables| - 1;
    var seeds, parent, depth, root :| Partitions.IsBfsPartition(g, first, second, seeds, parent, depth, root);
    assert i in first + second;
    AtLeastTwoRounds(tol, diffs, iterations);
    LeafAfter(g, d, topL, iterations, tol, first, second, tables, diffs, i, c, n);
    SinkTables(g, d, topL, iterations, tol, first, second, tables, diffs, c, n);
    Baskets.TopOfSmall(topK, tables[n][i], result[i]);
    Baskets.TopOfSmall(topK, tables[n][c], result[c]);
  }
}
