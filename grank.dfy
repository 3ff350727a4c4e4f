/**
 * The sequential approximated personalized PageRank engine, grank
 * (include/grank.h and its copy in header-only/grank.h). Every node keeps a
 * basket of at most L entries. The nodes are split into two sets by the
 * bipartitioner, and rounds alternate between the two sets: a round
 * rebuilds the baskets of one set from the baskets of their successors as
 * they were before the round, and carries the other set's baskets over.
 * The run stops once neither of the last two rounds moved a basket by
 * tolerance or more, or once the round budget is spent; every basket is
 * then trimmed to K entries.
 */
module Grank {
  import opened Common
  import Baskets
  import Oracle
  import Partitions

  // ---------------------------------------------------------------------
  // Parameters
  // ---------------------------------------------------------------------

  /**
   * The parameter checks, in the order the engine makes them; None when
   * every check passes. topK and topL are the engine's K and L.
   */
  function CheckParams<K>(topK: nat, topL: nat, iterations: nat, d: real): (r: Option<Error<K>>)
    ensures r == None <==> 0 < topK <= topL && iterations > 0 && 0.0 <= d <= 1.0
    ensures topK == 0 ==> r == Some(InvalidArgument("K must be positive"))
    ensures topK > 0 && topL == 0 ==> r == Some(InvalidArgument("L must be positive"))
    ensures 0 < topL < topK ==> r == Some(InvalidArgument("K must be <= L"))
    ensures 0 < topK <= topL && iterations == 0 ==>
              r == Some(InvalidArgument("iterations must be positive"))
    ensures 0 < topK <= topL && iterations > 0 && (d < 0.0 || d > 1.0) ==>
              r == Some(InvalidArgument("damping must be [0,1]"))
  {
    if topK == 0 then Some(InvalidArgument("K must be positive"))
    else if topL == 0 then Some(InvalidArgument("L must be positive"))
    else if topK > topL then Some(InvalidArgument("K must be <= L"))
    else if iterations == 0 then Some(InvalidArgument("iterations must be positive"))
    else if d < 0.0 || d > 1.0 then Some(InvalidArgument("damping must be [0,1]"))
    else None
  }

  // ---------------------------------------------------------------------
  // Baskets before the first round
  // ---------------------------------------------------------------------

  /**
   * The basket of v before it is trimmed: 1 - d for v itself, then d / outdeg
   * added once per edge leaving v (a self-loop adds to v's own entry).
   */
  ghost function InitBasket<K>(g: Graph<K>, d: real, v: K): Basket<K>
    requires v in g
  {
    Oracle.Spread(map[v := 1.0 - d], g[v], Oracle.Factor(d, |g[v]|))
  }

  /** The initial basket holds v and its successors, with their shares. */
  lemma InitBasketMeaning<K>(g: Graph<K>, d: real, v: K, k: K)
    requires v in g
    ensures InitBasket(g, d, v).Keys == {v} + Elems(g[v])
    ensures Get(InitBasket(g, d, v), k)
            == Oracle.Teleport(d, v, k)
               + Oracle.Times(Oracle.Factor(d, |g[v]|), Oracle.Occurrences(g[v], k))
  {
    Oracle.SpreadKeys(map[v := 1.0 - d], g[v], Oracle.Factor(d, |g[v]|));
    Oracle.SpreadGet(map[v := 1.0 - d], g[v], Oracle.Factor(d, |g[v]|), k);
  }

  /** Every node of the graph holds its initial basket trimmed to L entries. */
  ghost predicate IsInit<K>(g: Graph<K>, d: real, topL: nat, t: Table<K>)
  {
    && t.Keys == g.Keys
    && forall v :: v in g ==> Baskets.IsTopOf(topL, InitBasket(g, d, v), t[v])
  }

  /** The initialisation loop: one trimmed basket per node of the graph. */
  method InitScores<K>(g: Graph<K>, d: real, topL: nat) returns (scores: Table<K>)
    ensures IsInit(g, d, topL, scores)
  {
    scores := map[];
    var rest := g.Keys;
    while rest != {}
      invariant rest <= g.Keys
      invariant scores.Keys == g.Keys - rest
      invariant forall v :: v in scores ==> Baskets.IsTopOf(topL, InitBasket(g, d, v), scores[v])
      decreases |rest|
    {
      var v :| v in rest;
      var successors := g[v];
      var basket := Oracle.AddShare(map[v := 1.0 - d], successors, Oracle.Factor(d, |successors|));
      basket := Baskets.KeepTop(topL, basket);
      scores := scores[v := basket];
      rest := rest - {v};
    }
  }

  // ---------------------------------------------------------------------
  // A rebuilt basket
  // ---------------------------------------------------------------------

  /** The basket of v in table t; the library's operator[] reads an absent one as empty. */
  function Lookup<K>(t: Table<K>, v: K): Basket<K>
  {
    if v in t then t[v] else map[]
  }

  /** m with every entry of b, scaled by w, added to it. */
  ghost function AddScaled<K>(m: Basket<K>, b: Basket<K>, w: real): Basket<K>
  {
    AddEach(m, b, w, b.Keys)
  }

  /** m with the entry of b at each key of ks, scaled by w, added to it. */
  ghost function AddEach<K>(m: Basket<K>, b: Basket<K>, w: real, ks: set<K>): Basket<K>
    decreases |ks|
  {
    if ks == {} then m
    else
      var k :| k in ks;
      Bump(AddEach(m, b, w, ks - {k}), b, w, k)
  }

  /** r with b's weight at k, scaled by w, added to its entry for k. */
  ghost function Bump<K>(r: Basket<K>, b: Basket<K>, w: real, k: K): Basket<K>
  {
    r[k := Get(r, k) + Get(b, k) * w]
  }

  /** The keys and weights of AddEach, read key by key. */
  lemma {:induction false} AddEachAt<K>(m: Basket<K>, b: Basket<K>, w: real, ks: set<K>, k: K)
    ensures k in AddEach(m, b, w, ks) <==> k in m || k in ks
    ensures Get(AddEach(m, b, w, ks), k) == Get(m, k) + (if k in ks then Get(b, k) * w else 0.0)
    decreases |ks|
  {
    if ks != {} {
      var x :| x in ks && AddEach(m, b, w, ks) == Bump(AddEach(m, b, w, ks - {x}), b, w, x);
      var r := AddEach(m, b, w, ks - {x});
      AddEachAt(m, b, w, ks - {x}, k);
      if k == x {
        assert Get(Bump(r, b, w, x), k) == Get(r, k) + Get(b, k) * w;
      } else {
        assert Get(Bump(r, b, w, x), k) == Get(r, k);
        assert k in ks - {x} <==> k in ks;
      }
    }
  }

  /** Adding b scaled by w adds w times b's weight to every entry... */
  lemma AddScaledGet<K>(m: Basket<K>, b: Basket<K>, w: real, k: K)
    ensures k in AddScaled(m, b, w) <==> k in m || k in b
    ensures Get(AddScaled(m, b, w), k) == Get(m, k) + Get(b, k) * w
  {
    AddEachAt(m, b, w, b.Keys, k);
    if k !in b {
      assert Get(b, k) * w == 0.0;
    }
  }

  /** ... and keeps the keys of both. */
  lemma AddScaledKeys<K(!new)>(m: Basket<K>, b: Basket<K>, w: real)
    ensures AddScaled(m, b, w).Keys == m.Keys + b.Keys
  {
    var a := AddScaled(m, b, w);
    forall k ensures k in a <==> k in m || k in b {
      AddScaledGet(m, b, w, k);
    }
    assert forall k :: k in a.Keys <==> k in m.Keys + b.Keys;
  }

  /**
   * m with the basket of each node of succ, in order, scaled by w and added
   * to it.
   */
  ghost function Gather<K>(m: Basket<K>, succ: seq<K>, scores: Table<K>, w: real): Basket<K>
    decreases |succ|
  {
    if succ == [] then m
    else AddScaled(Gather(m, succ[..|succ| - 1], scores, w), Lookup(scores, succ[|succ| - 1]), w)
  }

  /**
   * The basket a round computes for v from the snapshot `scores`, before it
   * is trimmed: 1 - d for v, plus d / outdeg times the basket of each
   * successor.
   */
  ghost function NewBasket<K>(g: Graph<K>, d: real, scores: Table<K>, v: K): Basket<K>
    requires v in g
  {
    Gather(map[v := 1.0 - d], g[v], scores, Oracle.Factor(d, |g[v]|))
  }

  /** The total weight of k over the baskets of the nodes of succ. */
  ghost function Mass<K>(scores: Table<K>, succ: seq<K>, k: K): real
    decreases |succ|
  {
    if succ == [] then 0.0
    else Mass(scores, succ[..|succ| - 1], k) + Get(Lookup(scores, succ[|succ| - 1]), k)
  }

  /** The keys of the baskets of the nodes of succ. */
  ghost function Reached<K>(scores: Table<K>, succ: seq<K>): set<K>
    decreases |succ|
  {
    if succ == [] then {}
    else Reached(scores, succ[..|succ| - 1]) + Lookup(scores, succ[|succ| - 1]).Keys
  }

  lemma {:induction false} GatherGet<K>(m: Basket<K>, succ: seq<K>, scores: Table<K>, w: real, k: K)
    ensures Get(Gather(m, succ, scores, w), k) == Get(m, k) + w * Mass(scores, succ, k)
    decreases |succ|
  {
    if succ != [] {
      var p := succ[..|succ| - 1];
      GatherGet(m, p, scores, w, k);
      var b := Lookup(scores, succ[|succ| - 1]);
      AddScaledGet(Gather(m, p, scores, w), b, w, k);
      var before, added := Mass(scores, p, k), Get(b, k);
      assert Mass(scores, succ, k) == before + added;
      assert w * (before + added) == w * before + added * w;
    }
  }

  lemma {:induction false} GatherKeys<K(!new)>(m: Basket<K>, succ: seq<K>, scores: Table<K>, w: real)
    ensures Gather(m, succ, scores, w).Keys == m.Keys + Reached(scores, succ)
    decreases |succ|
  {
    if succ != [] {
      GatherKeys(m, succ[..|succ| - 1], scores, w);
      AddScaledKeys(Gather(m, succ[..|succ| - 1], scores, w), Lookup(scores, succ[|succ| - 1]), w);
    }
  }

  /**
   * What a round gives v before trimming: its keys are v and the keys of its
   * successors' baskets, and the weight of k is the teleport share plus
   * d / outdeg times the weight k has summed over the successors' baskets.
   */
  lemma NewBasketMeaning<K(!new)>(g: Graph<K>, d: real, scores: Table<K>, v: K, k: K)
    requires v in g
    ensures NewBasket(g, d, scores, v).Keys == {v} + Reached(scores, g[v])
    ensures Get(NewBasket(g, d, scores, v), k)
            == Oracle.Teleport(d, v, k) + Oracle.Factor(d, |g[v]|) * Mass(scores, g[v], k)
  {
    GatherKeys(map[v := 1.0 - d], g[v], scores, Oracle.Factor(d, |g[v]|));
    GatherGet(map[v := 1.0 - d], g[v], scores, Oracle.Factor(d, |g[v]|), k);
  }

  /** currentMap[key] += value * factor, for every entry of b. */
  method AddBasket<K(!new)>(m: Basket<K>, b: Basket<K>, w: real) returns (r: Basket<K>)
    ensures r == AddScaled(m, b, w)
  {
    r := m;
    var rest := b.Keys;
    while rest != {}
      invariant AddInv(m, b, w, rest, r)
      decreases |rest|
    {
      var k :| k in rest;
      AddStep(m, b, w, rest, r, k);
      r := r[k := Get(r, k) + b[k] * w];
      rest := rest - {k};
    }
    AddDone(m, b, w, r);
  }

  /** The invariant of AddBasket's loop, with `rest` the keys of b still to add. */
  ghost predicate AddInv<K(!new)>(m: Basket<K>, b: Basket<K>, w: real, rest: set<K>, r: Basket<K>)
  {
    && rest <= b.Keys
    && (forall k :: k in r <==> k in m || (k in b && k !in rest))
    && (forall k :: k in r ==> r[k] == Get(m, k) + (if k in b && k !in rest then b[k] * w else 0.0))
  }

  lemma AddStep<K(!new)>(m: Basket<K>, b: Basket<K>, w: real, rest: set<K>, r: Basket<K>, k: K)
    requires AddInv(m, b, w, rest, r) && k in rest
    ensures AddInv(m, b, w, rest - {k}, r[k := Get(r, k) + b[k] * w])
  {
  }

  lemma AddDone<K(!new)>(m: Basket<K>, b: Basket<K>, w: real, r: Basket<K>)
    requires AddInv(m, b, w, {}, r)
    ensures r == AddScaled(m, b, w)
  {
    var a := AddScaled(m, b, w);
    forall k ensures Get(a, k) == Get(r, k) && (k in a <==> k in r) {
      AddScaledGet(m, b, w, k);
      if k !in r {
        assert Get(m, k) == 0.0 && Get(b, k) == 0.0;
      }
    }
    BasketsEqual(a, r);
  }

  /** Two baskets with the same keys and weights are equal. */
  lemma BasketsEqual<K>(a: Basket<K>, b: Basket<K>)
    requires forall k :: (k in a <==> k in b) && Get(a, k) == Get(b, k)
    ensures a == b
  {
    assert a.Keys == b.Keys;
    forall k | k in a ensures a[k] == b[k] {
      assert Get(a, k) == Get(b, k);
    }
  }

  /** The combination of the successors' baskets for v, before trimming. */
  method BuildBasket<K(!new)>(g: Graph<K>, d: real, scores: Table<K>, v: K) returns (current: Basket<K>)
    requires v in g
    ensures current == NewBasket(g, d, scores, v)
  {
    current := map[v := 1.0 - d];
    var successors := g[v];
    var factor := Oracle.Factor(d, |successors|);
    for j := 0 to |successors|
      invariant current == Gather(map[v := 1.0 - d], successors[..j], scores, factor)
    {
      assert successors[..j + 1][..j] == successors[..j];
      current := AddBasket(current, Lookup(scores, successors[j]), factor);
    }
    assert successors[..|successors|] == successors;
  }

  // ---------------------------------------------------------------------
  // One round
  // ---------------------------------------------------------------------

  /** The norm1 distance of v's basket in `next` from its basket in `scores`. */
  ghost function DiffAt<K>(scores: Table<K>, next: Table<K>, v: K): real
  {
    Baskets.Norm1Spec(Lookup(next, v), Lookup(scores, v))
  }

  /**
   * diff is the largest distance over the nodes of `nodes`, or 0 when that
   * is larger (the running maximum starts at 0).
   */
  ghost predicate IsMaxDiff<K>(diff: real, nodes: set<K>, scores: Table<K>, next: Table<K>)
  {
    && diff >= 0.0
    && (forall v :: v in nodes ==> DiffAt(scores, next, v) <= diff)
    && (diff == 0.0 || exists v :: v in nodes && diff == DiffAt(scores, next, v))
  }

  /**
   * A round on the nodes of `active`, from table `scores` to table `next`
   * with distance diff: every active basket is rebuilt from `scores` and
   * trimmed to L, every other basket is carried over, and diff is the
   * largest distance an active basket moved.
   */
  ghost predicate IsRound<K>(g: Graph<K>, d: real, topL: nat, active: set<K>,
                             scores: Table<K>, next: Table<K>, diff: real)
  {
    && active <= g.Keys
    && next.Keys == scores.Keys
    && (forall v :: v in active ==> Baskets.IsTopOf(topL, NewBasket(g, d, scores, v), Lookup(next, v)))
    && (forall v :: v in scores && v !in active ==> next[v] == scores[v])
    && IsMaxDiff(diff, active, scores, next)
  }

  /** The body of the active-set loop: v's new basket and its distance. */
  method UpdateOne<K(!new)>(g: Graph<K>, d: real, topL: nat, scores: Table<K>, v: K)
    returns (basket: Basket<K>, diff: real)
    requires v in g
    ensures Baskets.IsTopOf(topL, NewBasket(g, d, scores, v), basket)
    ensures diff == Baskets.Norm1Spec(basket, Lookup(scores, v))
  {
    basket := BuildBasket(g, d, scores, v);
    basket := Baskets.KeepTop(topL, basket);
    diff := Baskets.Norm1(basket, Lookup(scores, v));
  }

  /**
   * The active-set loop: each active node's rebuilt basket goes into
   * nextScores, and the running maximum of the distances is returned.
   */
  method UpdateActive<K(!new)>(g: Graph<K>, d: real, topL: nat, active: set<K>,
                               scores: Table<K>, nextScores: Table<K>)
    returns (next: Table<K>, maxDiff: real)
    requires active <= g.Keys
    ensures next.Keys == nextScores.Keys + active
    ensures forall v :: v in active ==> Baskets.IsTopOf(topL, NewBasket(g, d, scores, v), next[v])
    ensures forall v :: v in nextScores && v !in active ==> next[v] == nextScores[v]
    ensures IsMaxDiff(maxDiff, active, scores, next)
  {
    next := nextScores;
    maxDiff := 0.0;
    var rest := active;
    ghost var done: set<K> := {};
    while rest != {}
      invariant ActiveSets(active, rest, done, nextScores, next)
      invariant RebuiltAll(g, d, topL, scores, done, next)
      invariant IsMaxDiff(maxDiff, done, scores, next)
      decreases |rest|
    {
      var v :| v in rest;
      var basket, diff := UpdateOne(g, d, topL, scores, v);
      ActiveSetsStep(active, rest, done, nextScores, next, v, basket);
      RebuiltStep(g, d, topL, scores, done, next, v, basket);
      MaxDiffStep(maxDiff, done, scores, next, v, basket, diff);
      next := next[v := basket];
      maxDiff := Max(maxDiff, diff);
      rest := rest - {v};
      done := done + {v};
    }
    ActiveDone(g, d, topL, active, done, scores, nextScores, next, maxDiff);
  }

  /**
   * The bookkeeping part of the active-set loop's invariant: `done` holds
   * the active nodes already rebuilt, `rest` the others, and only they
   * differ between `next` and nextScores.
   */
  ghost predicate ActiveSets<K(!new)>(active: set<K>, rest: set<K>, done: set<K>,
                                      nextScores: Table<K>, next: Table<K>)
  {
    && rest <= active
    && (forall v :: v in done <==> v in active && v !in rest)
    && (forall v :: v in next <==> v in nextScores || v in done)
    && (forall v :: v in nextScores && v !in active ==> next[v] == nextScores[v])
  }

  /** Every node of `done` holds in `next` its rebuilt basket trimmed to L. */
  ghost predicate RebuiltAll<K>(g: Graph<K>, d: real, topL: nat, scores: Table<K>,
                                done: set<K>, next: Table<K>)
  {
    forall v :: v in done ==>
      v in g && v in next && Baskets.IsTopOf(topL, NewBasket(g, d, scores, v), next[v])
  }

  lemma ActiveSetsStep<K(!new)>(active: set<K>, rest: set<K>, done: set<K>, nextScores: Table<K>,
                                next: Table<K>, v: K, basket: Basket<K>)
    requires ActiveSets(active, rest, done, nextScores, next) && v in rest
    ensures ActiveSets(active, rest - {v}, done + {v}, nextScores, next[v := basket])
    ensures v !in done
  {
  }

  lemma RebuiltStep<K>(g: Graph<K>, d: real, topL: nat, scores: Table<K>,
                       done: set<K>, next: Table<K>, v: K, basket: Basket<K>)
    requires RebuiltAll(g, d, topL, scores, done, next) && v in g
    requires Baskets.IsTopOf(topL, NewBasket(g, d, scores, v), basket)
    ensures RebuiltAll(g, d, topL, scores, done + {v}, next[v := basket])
  {
  }

  /** Taking one more node into the running maximum. */
  lemma MaxDiffStep<K(!new)>(maxDiff: real, done: set<K>, scores: Table<K>, next: Table<K>,
                             v: K, basket: Basket<K>, diff: real)
    requires IsMaxDiff(maxDiff, done, scores, next) && v !in done
    requires diff == Baskets.Norm1Spec(basket, Lookup(scores, v))
    ensures IsMaxDiff(Max(maxDiff, diff), done + {v}, scores, next[v := basket])
  {
    var next' := next[v := basket];
    assert Lookup(next', v) == basket;
    forall u | u in done ensures DiffAt(scores, next', u) == DiffAt(scores, next, u) {
      assert Lookup(next', u) == Lookup(next, u);
    }
  }

  lemma ActiveDone<K(!new)>(g: Graph<K>, d: real, topL: nat, active: set<K>, done: set<K>,
                            scores: Table<K>, nextScores: Table<K>, next: Table<K>, maxDiff: real)
    requires ActiveSets(active, {}, done, nextScores, next)
    requires RebuiltAll(g, d, topL, scores, done, next)
    requires IsMaxDiff(maxDiff, done, scores, next)
    ensures next.Keys == nextScores.Keys + active
    ensures forall v :: v in active ==> Baskets.IsTopOf(topL, NewBasket(g, d, scores, v), next[v])
    ensures forall v :: v in nextScores && v !in active ==> next[v] == nextScores[v]
    ensures IsMaxDiff(maxDiff, active, scores, next)
  {
    assert forall v :: v in active ==> v in done;
  }

  /**
   * The carry-over loop: the basket of each node of `idle` is swapped from
   * scores into nextScores (what scores receives in exchange is never read
   * again).
   */
  method CarryOver<K(!new)>(idle: set<K>, scores: Table<K>, nextScores: Table<K>)
    returns (scores': Table<K>, next: Table<K>)
    ensures next.Keys == nextScores.Keys + idle
    ensures forall v :: v in idle ==> next[v] == Lookup(scores, v)
    ensures forall v :: v in nextScores && v !in idle ==> next[v] == nextScores[v]
    ensures scores'.Keys == scores.Keys + idle
  {
    scores', next := scores, nextScores;
    var rest := idle;
    while rest != {}
      invariant CarryInv(idle, rest, scores, nextScores, scores', next)
      decreases |rest|
    {
      var v :| v in rest;
      var mine := Lookup(next, v);
      CarryStep(idle, rest, scores, nextScores, scores', next, v);
      next := next[v := Lookup(scores, v)];
      scores' := scores'[v := mine];
      rest := rest - {v};
    }
    CarryDone(idle, scores, nextScores, scores', next);
  }

  /** The carry-over loop's invariant, with `rest` the nodes still to carry. */
  ghost predicate CarryInv<K(!new)>(idle: set<K>, rest: set<K>, scores: Table<K>, nextScores: Table<K>,
                              scores': Table<K>, next: Table<K>)
  {
    && rest <= idle
    && (forall v :: v in next <==> v in nextScores || (v in idle && v !in rest))
    && (forall v :: v in idle && v !in rest ==> next[v] == Lookup(scores, v))
    && (forall v :: v in nextScores && v !in idle ==> next[v] == nextScores[v])
    && (forall v :: v in scores' <==> v in scores || (v in idle && v !in rest))
  }

  lemma CarryStep<K(!new)>(idle: set<K>, rest: set<K>, scores: Table<K>, nextScores: Table<K>,
                     scores': Table<K>, next: Table<K>, v: K)
    requires CarryInv(idle, rest, scores, nextScores, scores', next) && v in rest
    ensures CarryInv(idle, rest - {v}, scores, nextScores,
                     scores'[v := Lookup(next, v)], next[v := Lookup(scores, v)])
  {
  }

  lemma CarryDone<K(!new)>(idle: set<K>, scores: Table<K>, nextScores: Table<K>,
                     scores': Table<K>, next: Table<K>)
    requires CarryInv(idle, {}, scores, nextScores, scores', next)
    ensures next.Keys == nextScores.Keys + idle
    ensures forall v :: v in idle ==> next[v] == Lookup(scores, v)
    ensures forall v :: v in nextScores && v !in idle ==> next[v] == nextScores[v]
    ensures scores'.Keys == scores.Keys + idle
  {
  }

  /**
   * One round of the engine's loop: the active set is rebuilt into
   * nextScores, the idle set carried over, and the two tables swapped.
   */
  method Round<K(!new)>(g: Graph<K>, d: real, topL: nat, active: set<K>, idle: set<K>,
                  scores: Table<K>, nextScores: Table<K>)
    returns (scores': Table<K>, nextScores': Table<K>, diff: real)
    requires active + idle == g.Keys && active !! idle
    requires scores.Keys == g.Keys && nextScores.Keys <= g.Keys
    ensures IsRound(g, d, topL, active, scores, scores', diff)
    ensures scores'.Keys == g.Keys && nextScores'.Keys == g.Keys
  {
    var updated;
    updated, diff := UpdateActive(g, d, topL, active, scores, nextScores);
    var stale, carried := CarryOver(idle, scores, updated);
    scores', nextScores' := carried, stale;
    RoundAssembled(g, d, topL, active, idle, scores, updated, carried, diff);
  }

  /** The two loops of a round together make up IsRound. */
  lemma RoundAssembled<K(!new)>(g: Graph<K>, d: real, topL: nat, active: set<K>, idle: set<K>,
                                scores: Table<K>, updated: Table<K>, carried: Table<K>, diff: real)
    requires active + idle == g.Keys && active !! idle && scores.Keys == g.Keys
    requires active <= updated.Keys <= g.Keys && carried.Keys == updated.Keys + idle
    requires forall v :: v in active ==> Baskets.IsTopOf(topL, NewBasket(g, d, scores, v), updated[v])
    requires forall v :: v in idle ==> carried[v] == Lookup(scores, v)
    requires forall v :: v in updated && v !in idle ==> carried[v] == updated[v]
    requires IsMaxDiff(diff, active, scores, updated)
    ensures IsRound(g, d, topL, active, scores, carried, diff)
    ensures carried.Keys == g.Keys
  {
    assert forall v :: v in active ==> Lookup(carried, v) == updated[v];
    MaxDiffSame(diff, active, scores, updated, carried);
  }

  /** IsMaxDiff only looks at the baskets of its own nodes. */
  lemma MaxDiffSame<K>(diff: real, nodes: set<K>, scores: Table<K>, next: Table<K>, next': Table<K>)
    requires IsMaxDiff(diff, nodes, scores, next)
    requires forall v :: v in nodes ==> v in next && v in next' && next'[v] == next[v]
    ensures IsMaxDiff(diff, nodes, scores, next')
  {
    assert forall v :: v in nodes ==> DiffAt(scores, next', v) == DiffAt(scores, next, v);
  }

  // ---------------------------------------------------------------------
  // The whole run
  // ---------------------------------------------------------------------

  /**
   * The stop test after round j: the larger of the distances of round j
   * and of the round before it, the tolerance standing in for the round
   * before the first.
   */
  function TestAfter(tol: real, diffs: seq<real>, j: nat): real
    requires j < |diffs|
  {
    Max(if j == 0 then tol else diffs[j - 1], diffs[j])
  }

  /**
   * The rounds that ran, with distances diffs, obey the stop rule: at least
   * one and at most `iterations` rounds, every round but the last passed
   * the stop test, and an early stop means the last one failed it.
   */
  ghost predicate GrankStops(tol: real, diffs: seq<real>, iterations: nat)
  {
    && 1 <= |diffs| <= iterations
    && (forall j :: 0 <= j < |diffs| - 1 ==> TestAfter(tol, diffs, j) >= tol)
    && (|diffs| < iterations ==> TestAfter(tol, diffs, |diffs| - 1) < tol)
  }

  /** The set rebuilt by round j: the first set on even rounds, the second on odd ones. */
  function Active<K>(first: set<K>, second: set<K>, j: nat): set<K>
  {
    if j % 2 == 0 then first else second
  }

  lemma ActiveAlternates<K>(first: set<K>, second: set<K>, j: nat)
    ensures Active(first, second, j + 2) == Active(first, second, j)
  {
  }

  /**
   * A run from the partition (first, second): tables[0] is the initial
   * table, round j leads from tables[j] to tables[j + 1] on Active(j)
   * with distance diffs[j], and the rounds obey the stop rule.
   */
  ghost predicate IsRun<K>(g: Graph<K>, d: real, topL: nat, iterations: nat, tol: real,
                           first: set<K>, second: set<K>, tables: seq<Table<K>>, diffs: seq<real>)
  {
    && |tables| == |diffs| + 1
    && IsInit(g, d, topL, tables[0])
    && Rounds(g, d, topL, first, second, tables, diffs)
    && GrankStops(tol, diffs, iterations)
  }

  /** Round j leads from tables[j] to tables[j + 1] on Active(j), for every j. */
  ghost predicate Rounds<K>(g: Graph<K>, d: real, topL: nat, first: set<K>, second: set<K>,
                            tables: seq<Table<K>>, diffs: seq<real>)
    requires |tables| == |diffs| + 1
    decreases |diffs|
  {
    |diffs| == 0
    || (var n := |diffs| - 1;
        && Rounds(g, d, topL, first, second, tables[..n + 1], diffs[..n])
        && IsRound(g, d, topL, Active(first, second, n), tables[n], tables[n + 1], diffs[n]))
  }

  lemma {:induction false} RoundAt<K>(g: Graph<K>, d: real, topL: nat, first: set<K>, second: set<K>,
                                      tables: seq<Table<K>>, diffs: seq<real>, j: nat)
    requires |tables| == |diffs| + 1 && j < |diffs|
    requires Rounds(g, d, topL, first, second, tables, diffs)
    ensures IsRound(g, d, topL, Active(first, second, j), tables[j], tables[j + 1], diffs[j])
    decreases |diffs|
  {
    var n := |diffs| - 1;
    if j < n {
      RoundAt(g, d, topL, first, second, tables[..n + 1], diffs[..n], j);
    }
  }

  /** r holds every basket of t trimmed to its K best entries. */
  ghost predicate IsTrimmed<K>(topK: nat, t: Table<K>, r: Table<K>)
  {
    && r.Keys == t.Keys
    && forall v :: v in t ==> Baskets.IsTopOf(topK, t[v], r[v])
  }

  /**
   * result is what a run of the engine returns: the graph is split by the
   * bipartitioner into (first, second), the rounds alternate between the
   * two sets starting with the first, and the last table is trimmed to K.
   */
  ghost predicate IsGrankRun<K(!new)>(g: Graph<K>, topK: nat, topL: nat, iterations: nat,
                                      d: real, tol: real, first: set<K>, second: set<K>,
                                      tables: seq<Table<K>>, diffs: seq<real>, result: Table<K>)
  {
    && IsPartition(g, first, second)
    && IsRun(g, d, topL, iterations, tol, first, second, tables, diffs)
    && IsTrimmed(topK, tables[|tables| - 1], result)
  }

  /** (first, second) is a split the bipartitioner can produce. */
  ghost predicate IsPartition<K(!new)>(g: Graph<K>, first: set<K>, second: set<K>)
  {
    exists seeds, parent, depth, root :: Partitions.IsBfsPartition(g, first, second, seeds, parent, depth, root)
  }

  ghost predicate IsGrankResult<K(!new)>(g: Graph<K>, topK: nat, topL: nat, iterations: nat,
                                         d: real, tol: real, result: Table<K>)
  {
    exists first, second, tables, diffs ::
      IsGrankRun(g, topK, topL, iterations, d, tol, first, second, tables, diffs, result)
  }

  /** The final loop: every basket trimmed to K entries. */
  method FinalTrim<K>(topK: nat, t: Table<K>) returns (r: Table<K>)
    ensures IsTrimmed(topK, t, r)
  {
    r := t;
    var rest := t.Keys;
    while rest != {}
      invariant rest <= t.Keys && r.Keys == t.Keys
      invariant forall v :: v in t ==> if v in rest then r[v] == t[v] else Baskets.IsTopOf(topK, t[v], r[v])
      decreases |rest|
    {
      var v :| v in rest;
      var basket := Baskets.KeepTop(topK, r[v]);
      r := r[v := basket];
      rest := rest - {v};
    }
  }

  /**
   * The round loop, from the initial table: rounds alternate between the
   * two sets while fewer than `iterations` rounds ran and the larger of
   * the two last distances is at least the tolerance.
   */
  method RunRounds<K(!new)>(g: Graph<K>, d: real, topL: nat, iterations: nat, tol: real,
                            first: set<K>, second: set<K>, init: Table<K>)
    returns (scores: Table<K>, ghost tables: seq<Table<K>>, ghost diffs: seq<real>)
    requires iterations > 0
    requires first + second == g.Keys && first !! second
    requires IsInit(g, d, topL, init)
    ensures |tables| == |diffs| + 1 && scores == tables[|diffs|]
    ensures IsRun(g, d, topL, iterations, tol, first, second, tables, diffs)
  {
    scores := init;
    var nextScores: Table<K> := map[];
    var maxDiff0, maxDiff1 := tol, tol;
    var part0, part1 := first, second;
    tables, diffs := [init], [];
    var i := 0;
    RoundsStart(g, d, topL, tol, first, second, init);
    while i < iterations && Max(maxDiff0, maxDiff1) >= tol
      invariant i == |diffs| <= iterations
      invariant LoopState(g, d, topL, tol, first, second, init, tables, diffs,
                          scores, nextScores, part0, part1, maxDiff0, maxDiff1)
      decreases iterations - i
    {
      tables, diffs, scores, nextScores, part0, part1, maxDiff0, maxDiff1 :=
        OneRound(g, d, topL, tol, first, second, init, tables, diffs,
                 scores, nextScores, part0, part1, maxDiff0, maxDiff1);
      i := i + 1;
    }
    RoundsEnd(g, d, topL, iterations, tol, first, second, init, tables, diffs,
              scores, nextScores, part0, part1, maxDiff0, maxDiff1);
  }

  /** Before the first round: the initial table alone, both slots holding the tolerance. */
  lemma RoundsStart<K>(g: Graph<K>, d: real, topL: nat, tol: real, first: set<K>, second: set<K>,
                       init: Table<K>)
    requires first + second == g.Keys && first !! second
    requires IsInit(g, d, topL, init)
    ensures LoopState(g, d, topL, tol, first, second, init, [init], [], init, map[],
                      first, second, tol, tol)
  {
  }

  /** When the loop test fails, the rounds so far are a whole run. */
  lemma RoundsEnd<K>(g: Graph<K>, d: real, topL: nat, iterations: nat, tol: real,
                     first: set<K>, second: set<K>, init: Table<K>, tables: seq<Table<K>>,
                     diffs: seq<real>, scores: Table<K>, nextScores: Table<K>, part0: set<K>,
                     part1: set<K>, maxDiff0: real, maxDiff1: real)
    requires iterations > 0 && IsInit(g, d, topL, init)
    requires |diffs| <= iterations && !(|diffs| < iterations && Max(maxDiff0, maxDiff1) >= tol)
    requires LoopState(g, d, topL, tol, first, second, init, tables, diffs,
                       scores, nextScores, part0, part1, maxDiff0, maxDiff1)
    ensures |tables| == |diffs| + 1 && scores == tables[|diffs|]
    ensures IsRun(g, d, topL, iterations, tol, first, second, tables, diffs)
  {
    SlotsTest(tol, diffs, maxDiff0, maxDiff1);
  }

  /**
   * The state at the head of the round loop: the rounds that ran so far,
   * scores the table the last of them left, part0 the set the next round
   * rebuilds, and the two maxDiff slots.
   */
  ghost predicate LoopState<K>(g: Graph<K>, d: real, topL: nat, tol: real, first: set<K>,
                               second: set<K>, init: Table<K>, tables: seq<Table<K>>,
                               diffs: seq<real>, scores: Table<K>, nextScores: Table<K>,
                               part0: set<K>, part1: set<K>, maxDiff0: real, maxDiff1: real)
  {
    && first + second == g.Keys && first !! second
    && RunSoFar(g, d, topL, tol, first, second, tables, diffs)
    && tables[0] == init
    && scores == tables[|diffs|] && scores.Keys == g.Keys && nextScores.Keys <= g.Keys
    && part0 == Active(first, second, |diffs|) && part1 == Active(first, second, |diffs| + 1)
    && Slots(tol, diffs, maxDiff0, maxDiff1)
  }

  /**
   * The body of the round loop: a round on part0, then the partitions, the
   * tables and the maxDiff slots are swapped.
   */
  method OneRound<K(!new)>(g: Graph<K>, d: real, topL: nat, tol: real, first: set<K>, second: set<K>,
                           ghost init: Table<K>, ghost tables: seq<Table<K>>, ghost diffs: seq<real>,
                           scores: Table<K>, nextScores: Table<K>, part0: set<K>, part1: set<K>,
                           maxDiff0: real, maxDiff1: real)
    returns (ghost tables': seq<Table<K>>, ghost diffs': seq<real>, scores': Table<K>,
             nextScores': Table<K>, part0': set<K>, part1': set<K>, maxDiff0': real, maxDiff1': real)
    requires LoopState(g, d, topL, tol, first, second, init, tables, diffs,
                       scores, nextScores, part0, part1, maxDiff0, maxDiff1)
    requires Max(maxDiff0, maxDiff1) >= tol
    ensures LoopState(g, d, topL, tol, first, second, init, tables', diffs',
                      scores', nextScores', part0', part1', maxDiff0', maxDiff1')
    ensures |diffs'| == |diffs| + 1
  {
    ActivePair(g, first, second, |diffs|);
    var diff;
    scores', nextScores', diff := Round(g, d, topL, part0, part1, scores, nextScores);
    SlotsTest(tol, diffs, maxDiff0, maxDiff1);
    RunExtend(g, d, topL, tol, first, second, tables, diffs, part0, scores, scores', diff);
    SlotsShift(tol, diffs, maxDiff0, maxDiff1, diff);
    ActiveAlternates(first, second, |diffs|);
    tables', diffs' := tables + [scores'], diffs + [diff];
    part0', part1' := part1, part0;
    maxDiff0', maxDiff1' := diff, maxDiff1;
    maxDiff0', maxDiff1' := maxDiff1', maxDiff0';
  }

  /** The two sets of a round are the two halves of the partition. */
  lemma ActivePair<K>(g: Graph<K>, first: set<K>, second: set<K>, j: nat)
    requires first + second == g.Keys && first !! second
    ensures Active(first, second, j) + Active(first, second, j + 1) == g.Keys
    ensures Active(first, second, j) !! Active(first, second, j + 1)
  {
    if j % 2 == 1 {
      assert second + first == first + second;
    }
  }

  /**
   * The two maxDiff slots at the head of the round loop: the second holds
   * the distance of the last round, the first that of the round before,
   * the tolerance standing in for rounds that did not run.
   */
  ghost predicate Slots(tol: real, diffs: seq<real>, maxDiff0: real, maxDiff1: real)
  {
    && maxDiff1 == (if |diffs| == 0 then tol else diffs[|diffs| - 1])
    && maxDiff0 == (if |diffs| <= 1 then tol else diffs[|diffs| - 2])
  }

  /** The loop test reads the stop test of the last round (the tolerance before any). */
  lemma SlotsTest(tol: real, diffs: seq<real>, maxDiff0: real, maxDiff1: real)
    requires Slots(tol, diffs, maxDiff0, maxDiff1)
    ensures |diffs| == 0 ==> Max(maxDiff0, maxDiff1) == tol
    ensures |diffs| > 0 ==> Max(maxDiff0, maxDiff1) == TestAfter(tol, diffs, |diffs| - 1)
  {
  }

  /** A round writes its distance into the first slot, then the slots are swapped. */
  lemma SlotsShift(tol: real, diffs: seq<real>, maxDiff0: real, maxDiff1: real, diff: real)
    requires Slots(tol, diffs, maxDiff0, maxDiff1)
    ensures Slots(tol, diffs + [diff], maxDiff1, diff)
  {
  }

  /**
   * The rounds so far: each a round on its set, each but the last passing
   * the stop test.
   */
  ghost predicate RunSoFar<K>(g: Graph<K>, d: real, topL: nat, tol: real, first: set<K>,
                              second: set<K>, tables: seq<Table<K>>, diffs: seq<real>)
  {
    && |tables| == |diffs| + 1
    && Rounds(g, d, topL, first, second, tables, diffs)
    && (forall j :: 0 <= j < |diffs| - 1 ==> TestAfter(tol, diffs, j) >= tol)
  }

  lemma RunExtend<K>(g: Graph<K>, d: real, topL: nat, tol: real, first: set<K>, second: set<K>,
                     tables: seq<Table<K>>, diffs: seq<real>, active: set<K>, scores: Table<K>,
                     next: Table<K>, diff: real)
    requires RunSoFar(g, d, topL, tol, first, second, tables, diffs)
    requires active == Active(first, second, |diffs|) && scores == tables[|diffs|]
    requires IsRound(g, d, topL, active, scores, next, diff)
    requires |diffs| > 0 ==> TestAfter(tol, diffs, |diffs| - 1) >= tol
    ensures RunSoFar(g, d, topL, tol, first, second, tables + [next], diffs + [diff])
  {
    var tables', diffs' := tables + [next], diffs + [diff];
    assert tables'[..|diffs| + 1] == tables && diffs'[..|diffs|] == diffs;
    forall j | 0 <= j < |diffs'| - 1 ensures TestAfter(tol, diffs', j) >= tol {
      assert TestAfter(tol, diffs', j) == TestAfter(tol, diffs, j);
    }
  }

  // ---------------------------------------------------------------------
  // The engine
  // ---------------------------------------------------------------------

  /**
   * The engine: the parameters are checked in order (the first failing
   * check is the error), then every node gets its initial basket, the
   * graph is split in two, rounds alternate between the two sets until
   * the stop rule says so, and every basket is trimmed to K entries.
   */
  method Grank<K(!new)>(g: Graph<K>, topK: nat, topL: nat, iterations: nat, d: real, tol: real)
    returns (r: Result<Table<K>, K>)
    requires Closed(g)
    ensures CheckParams<K>(topK, topL, iterations, d).Some? ==>
              r == Err(CheckParams<K>(topK, topL, iterations, d).value)
    ensures CheckParams<K>(topK, topL, iterations, d).None? ==>
              r.Ok? && IsGrankResult(g, topK, topL, iterations, d, tol, r.value)
  {
    var check := CheckParams<K>(topK, topL, iterations, d);
    if check.Some? {
      return Err(check.value);
    }
    var init := InitScores(g, d, topL);
    var first, second, seeds, parent, depth, root := Partitions.FindPartitions(g);
    var scores, tables, diffs := RunRounds(g, d, topL, iterations, tol, first, second, init);
    var result := FinalTrim(topK, scores);
    assert IsGrankRun(g, topK, topL, iterations, d, tol, first, second, tables, diffs, result);
    r := Ok(result);
  }
}
