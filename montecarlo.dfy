/**
 * The Monte-Carlo engine (mccompletepathv2): nodes are computed in a
 * dependency order where a node waits for all its successors, and a node's
 * basket is folded from the baskets of its successors; a successor without
 * a basket yet gets one from round-robin random walks.
 */
module MonteCarlo {
  import opened Common
  import Baskets
  import Partitions
  import Grank

  // ---------------------------------------------------------------------
  // executionOrder: the seeding order
  // ---------------------------------------------------------------------

  /** The in-degree of v according to the predecessor index. */
  function InDegree<K>(preds: map<K, seq<K>>, v: K): nat
  {
    if v in preds then |preds[v]| else 0
  }

  /** The out-degree of v. */
  function OutDegree<K>(g: Graph<K>, v: K): nat
  {
    if v in g then |g[v]| else 0
  }

  /**
   * The comparator of the seeding sort: u goes strictly before v when it
   * has more predecessors, or as many and fewer successors.
   */
  predicate SortsBefore<K>(g: Graph<K>, preds: map<K, seq<K>>, u: K, v: K)
  {
    || InDegree(preds, u) > InDegree(preds, v)
    || (InDegree(preds, u) == InDegree(preds, v) && OutDegree(g, u) < OutDegree(g, v))
  }

  /** No element of s sorts strictly before its predecessors in s. */
  ghost predicate SortedByDegree<K>(g: Graph<K>, preds: map<K, seq<K>>, s: seq<K>)
  {
    forall i, j :: 0 <= i < j < |s| ==> !SortsBefore(g, preds, s[j], s[i])
  }

  /** The comparator is a strict order. */
  lemma SortsBeforeOrder<K>(g: Graph<K>, preds: map<K, seq<K>>, u: K, v: K, w: K)
    ensures !SortsBefore(g, preds, u, u)
    ensures SortsBefore(g, preds, u, v) && SortsBefore(g, preds, v, w) ==> SortsBefore(g, preds, u, w)
  {
  }

  /** Every non-empty set has an element nothing else sorts before. */
  lemma {:induction false} FirstOf<K>(g: Graph<K>, preds: map<K, seq<K>>, s: set<K>) returns (x: K)
    requires s != {}
    ensures x in s && forall v :: v in s ==> !SortsBefore(g, preds, v, x)
    decreases |s|
  {
    var a :| a in s;
    var rest := s - {a};
    if rest == {} {
      x := a;
      forall v | v in s ensures !SortsBefore(g, preds, v, x) {
        assert v !in rest;
        SortsBeforeOrder(g, preds, v, v, v);
      }
    } else {
      var m := FirstOf(g, preds, rest);
      if SortsBefore(g, preds, a, m) {
        x := a;
      } else {
        x := m;
      }
      forall v | v in s ensures !SortsBefore(g, preds, v, x) {
        SortsBeforeOrder(g, preds, v, a, m);
        if v != a {
          assert v in rest;
        }
      }
    }
  }

  /**
   * The keys sorted by in-degree descending, then out-degree ascending. The
   * library sort leaves the order of ties open; so does the selection of a
   * first remaining key here.
   */
  method SortByDegree<K>(g: Graph<K>, preds: map<K, seq<K>>) returns (sorted: seq<K>)
    ensures Lists(sorted, g.Keys)
    ensures SortedByDegree(g, preds, sorted)
  {
    sorted := [];
    var rest := g.Keys;
    while rest != {}
      invariant rest <= g.Keys && Lists(sorted, g.Keys - rest)
      invariant SortedByDegree(g, preds, sorted)
      invariant forall i, v :: 0 <= i < |sorted| && v in rest ==> !SortsBefore(g, preds, v, sorted[i])
      decreases |rest|
    {
      ghost var first := FirstOf(g, preds, rest);
      var x :| x in rest && forall v :: v in rest ==> !SortsBefore(g, preds, v, x);
      SortStep(g, preds, sorted, rest, x);
      sorted := sorted + [x];
      rest := rest - {x};
    }
    assert g.Keys - rest == g.Keys;
  }

  /** Appending a first remaining key keeps the selection sort's invariants. */
  lemma SortStep<K>(g: Graph<K>, preds: map<K, seq<K>>, sorted: seq<K>, rest: set<K>, x: K)
    requires rest <= g.Keys && Lists(sorted, g.Keys - rest) && SortedByDegree(g, preds, sorted)
    requires forall i, v :: 0 <= i < |sorted| && v in rest ==> !SortsBefore(g, preds, v, sorted[i])
    requires x in rest && forall v :: v in rest ==> !SortsBefore(g, preds, v, x)
    ensures Lists(sorted + [x], g.Keys - (rest - {x})) && SortedByDegree(g, preds, sorted + [x])
    ensures forall i, v :: 0 <= i < |sorted + [x]| && v in rest - {x} ==> !SortsBefore(g, preds, v, (sorted + [x])[i])
  {
    assert (sorted + [x])[..|sorted|] == sorted;
    assert g.Keys - (rest - {x}) - {x} == g.Keys - rest;
  }

  // ---------------------------------------------------------------------
  // executionOrder: the wait counters
  // ---------------------------------------------------------------------

  /** The number of entries of s outside V. */
  ghost function Pending<K>(s: seq<K>, V: set<K>): nat
    decreases |s|
  {
    if s == [] then 0
    else Pending(s[..|s| - 1], V) + (if s[|s| - 1] in V then 0 else 1)
  }

  /** Nothing is pending exactly when every entry is in V. */
  lemma {:induction false} PendingZero<K>(s: seq<K>, V: set<K>)
    ensures Pending(s, V) == 0 <==> forall x :: x in s ==> x in V
    decreases |s|
  {
    if s != [] {
      var p := s[..|s| - 1];
      PendingZero(p, V);
      assert s == p + [s[|s| - 1]];
    }
  }

  /** Emitting x settles exactly the entries of s equal to x. */
  lemma {:induction false} PendingEmit<K>(s: seq<K>, V: set<K>, x: K)
    requires x !in V
    ensures Pending(s, V) == Pending(s, V + {x}) + multiset(s)[x]
    decreases |s|
  {
    if s != [] {
      var p := s[..|s| - 1];
      PendingEmit(p, V, x);
      assert s == p + [s[|s| - 1]];
    }
  }

  /** The post-decrement of a size_t counter: 0 wraps to the largest value. */
  function Decrement(w: nat): nat
  {
    if w > 0 then w - 1 else SizeModulus - 1
  }

  /** Every counter holds the number of the node's out-edges into unemitted nodes. */
  ghost predicate Waiting<K>(g: Graph<K>, waitFor: map<K, nat>, visited: set<K>)
  {
    && waitFor.Keys == g.Keys
    && forall p :: p in g ==> waitFor[p] == Pending(g[p], visited)
  }

  /** The counters start at the out-degrees. */
  method InitWaitFor<K>(g: Graph<K>) returns (waitFor: map<K, nat>)
    ensures Waiting(g, waitFor, {})
  {
    waitFor := map[];
    var rest := g.Keys;
    while rest != {}
      invariant rest <= g.Keys && waitFor.Keys == g.Keys - rest
      invariant forall p :: p in waitFor ==> waitFor[p] == Pending(g[p], {})
      decreases |rest|
    {
      var node :| node in rest;
      PendingAll(g[node]);
      waitFor := waitFor[node := |g[node]|];
      rest := rest - {node};
    }
  }

  /** With nothing emitted, every entry is pending. */
  lemma {:induction false} PendingAll<K>(s: seq<K>)
    ensures Pending(s, {}) == |s|
    decreases |s|
  {
    if s != [] {
      PendingAll(s[..|s| - 1]);
    }
  }

  /** The counters of all nodes, with the occurrences in `front` already subtracted. */
  ghost predicate CountedDown<K>(g: Graph<K>, waitFor: map<K, nat>, prior: set<K>, front: seq<K>)
  {
    && waitFor.Keys == g.Keys
    && forall p :: p in g ==> waitFor[p] + multiset(front)[p] == Pending(g[p], prior)
  }

  /** Queued nodes are distinct, unemitted, have successors and are done waiting. */
  ghost predicate Ready<K>(g: Graph<K>, waitFor: map<K, nat>, visited: set<K>, queue: seq<K>)
  {
    && Distinct(queue)
    && forall j :: 0 <= j < |queue| ==>
         && queue[j] in g && queue[j] !in visited && queue[j] in waitFor && g[queue[j]] != []
         && waitFor[queue[j]] == 0 && Pending(g[queue[j]], visited) == 0
  }

  /**
   * The decrements after emitting `next` (visited already holds it): each
   * predecessor occurrence decrements its counter, which is always positive
   * before the decrement, and a predecessor whose counter reaches 0 and
   * which is unvisited is queued.
   */
  method Release<K(!new)>(g: Graph<K>, preds: map<K, seq<K>>, next: K, ghost prior: set<K>,
                          visited: set<K>, waitFor: map<K, nat>, queue: seq<K>)
    returns (waitFor': map<K, nat>, queue': seq<K>)
    requires Partitions.IsPredecessorIndex(g, preds) && next in g
    requires next !in prior && visited == prior + {next}
    requires Waiting(g, waitFor, prior)
    requires forall j :: 0 <= j < |queue| ==>
               queue[j] in g && queue[j] !in visited && g[queue[j]] != [] && Pending(g[queue[j]], prior) == 0
    requires Distinct(queue)
    ensures Waiting(g, waitFor', visited)
    ensures Distinct(queue') && |queue| <= |queue'| && queue'[..|queue|] == queue
    ensures forall j :: 0 <= j < |queue'| ==>
              queue'[j] in g && queue'[j] !in visited && g[queue'[j]] != [] && Pending(g[queue'[j]], visited) == 0
    ensures forall p :: p in g && p !in visited && Pending(g[p], prior) > 0 && Pending(g[p], visited) == 0 ==> p in queue'
  {
    var ps := Partitions.PredsOf(preds, next);
    waitFor', queue' := waitFor, queue;
    ReleaseStart(g, next, prior, visited, waitFor, queue);
    for i := 0 to |ps|
      invariant CountedDown(g, waitFor', prior, ps[..i])
      invariant Ready(g, waitFor', visited, queue')
      invariant |queue| <= |queue'| && queue'[..|queue|] == queue
      invariant Queues(g, waitFor', prior, visited, queue')
    {
      var pred := ps[i];
      DecrementStep(g, preds, next, prior, visited, ps, i, waitFor', queue');
      QueuesStep(g, waitFor', prior, visited, queue', pred);
      var w := waitFor'[pred];
      waitFor' := waitFor'[pred := Decrement(w)];
      if w > 0 {
        if waitFor'[pred] == 0 && pred !in visited {
          assert (queue' + [pred])[..|queue|] == queue'[..|queue|];
          queue' := queue' + [pred];
        }
      }
    }
    assert ps[..|ps|] == ps;
    forall p | p in g ensures waitFor'[p] == Pending(g[p], visited) {
      PendingEmit(g[p], prior, next);
      assert multiset(ps)[p] == Partitions.EdgeCount(g, p, next);
    }
  }

  /** Every unemitted node whose counter dropped from a positive count to 0 is queued. */
  ghost predicate Queues<K>(g: Graph<K>, waitFor: map<K, nat>, prior: set<K>, visited: set<K>, queue: seq<K>)
  {
    forall p :: p in g && p in waitFor && p !in visited && Pending(g[p], prior) > 0 && waitFor[p] == 0 ==> p in queue
  }

  /** One decrement of a positive counter, queueing the node when it reaches 0 unemitted. */
  lemma QueuesStep<K>(g: Graph<K>, waitFor: map<K, nat>, prior: set<K>, visited: set<K>, queue: seq<K>, pred: K)
    requires Queues(g, waitFor, prior, visited, queue) && pred in waitFor && waitFor[pred] > 0
    ensures waitFor[pred] == 1 && pred !in visited ==> Queues(g, waitFor[pred := 0], prior, visited, queue + [pred])
    ensures waitFor[pred] > 1 || pred in visited ==>
              Queues(g, waitFor[pred := waitFor[pred] - 1], prior, visited, queue)
  {
  }

  lemma ReleaseStart<K>(g: Graph<K>, next: K, prior: set<K>, visited: set<K>,
                        waitFor: map<K, nat>, queue: seq<K>)
    requires next !in prior && visited == prior + {next}
    requires Waiting(g, waitFor, prior)
    requires forall j :: 0 <= j < |queue| ==>
               queue[j] in g && queue[j] !in visited && g[queue[j]] != [] && Pending(g[queue[j]], prior) == 0
    requires Distinct(queue)
    ensures CountedDown(g, waitFor, prior, [])
    ensures Ready(g, waitFor, visited, queue)
  {
    forall j | 0 <= j < |queue| ensures Pending(g[queue[j]], visited) == 0 {
      PendingEmit(g[queue[j]], prior, next);
    }
  }

  /**
   * One decrement: the counter of the i-th predecessor of next is positive,
   * and when it drops to 0 on an unvisited node, that node has nothing left
   * to wait for and is not queued yet.
   */
  lemma DecrementStep<K(!new)>(g: Graph<K>, preds: map<K, seq<K>>, next: K, prior: set<K>,
                               visited: set<K>, ps: seq<K>, i: nat, waitFor: map<K, nat>, queue: seq<K>)
    requires Partitions.IsPredecessorIndex(g, preds) && next in g
    requires next !in prior && visited == prior + {next}
    requires ps == Partitions.PredsOf(preds, next) && i < |ps|
    requires CountedDown(g, waitFor, prior, ps[..i]) && Ready(g, waitFor, visited, queue)
    ensures ps[i] in waitFor && waitFor[ps[i]] > 0
    ensures CountedDown(g, waitFor[ps[i] := waitFor[ps[i]] - 1], prior, ps[..i + 1])
    ensures waitFor[ps[i]] == 1 && ps[i] !in visited ==>
              Ready(g, waitFor[ps[i] := 0], visited, queue + [ps[i]])
    ensures waitFor[ps[i]] > 1 || ps[i] in visited ==>
              Ready(g, waitFor[ps[i] := waitFor[ps[i]] - 1], visited, queue)
  {
    var pred := ps[i];
    assert ps[..i + 1] == ps[..i] + [pred];
    assert ps[..i + 1] + ps[i + 1..] == ps;
    assert pred in g by {
      assert multiset(ps)[pred] > 0;
    }
    CountBound(g, preds, next, prior, pred, ps[..i + 1], ps[i + 1..]);
    var w := waitFor[pred];
    if w == 1 && pred !in visited {
      PendingEmit(g[pred], prior, next);
      forall j | 0 <= j < |queue| ensures queue[j] != pred {
      }
    }
  }

  /**
   * A prefix of the predecessor list of next never counts p more often than
   * p has edges into next, and those edges are pending while next is not
   * yet emitted.
   */
  lemma CountBound<K(!new)>(g: Graph<K>, preds: map<K, seq<K>>, next: K, prior: set<K>, p: K,
                            front: seq<K>, back: seq<K>)
    requires Partitions.IsPredecessorIndex(g, preds) && next in g && next !in prior && p in g
    requires front + back == Partitions.PredsOf(preds, next)
    ensures multiset(front)[p] + multiset(back)[p] == multiset(g[p])[next] <= Pending(g[p], prior)
  {
    assert multiset(front + back) == multiset(front) + multiset(back);
    assert multiset(Partitions.PredsOf(preds, next))[p] == Partitions.EdgeCount(g, p, next);
    PendingEmit(g[p], prior, next);
  }

  // ---------------------------------------------------------------------
  // executionOrder: the queue
  // ---------------------------------------------------------------------

  /**
   * No node still to be emitted is ready: each one with successors has a
   * successor outside V. A node whose successors are all emitted was
   * queued when its counter reached 0.
   */
  ghost predicate NoneReady<K>(g: Graph<K>, V: set<K>)
  {
    forall u :: u in g && u !in V && g[u] != [] ==> Pending(g[u], V) > 0
  }

  /**
   * What an emission order promises about the set V it lists (the
   * recursion peels off the last node emitted): a seed comes after every
   * node that sorts strictly before it, and only once no node is ready
   * (the queue was drained); any other node has successors (a dead end
   * is never released, only seeded) and comes after all of them.
   */
  ghost predicate Emits<K>(g: Graph<K>, preds: map<K, seq<K>>, order: seq<K>, V: set<K>, seeds: set<K>)
    decreases |order|
  {
    if order == [] then V == {}
    else
      var v := order[|order| - 1];
      && v in V
      && MayEmit(g, preds, v, V - {v}, seeds)
      && Emits(g, preds, order[..|order| - 1], V - {v}, seeds)
  }

  /** The rule Emits applies to a node v emitted right after the set E. */
  ghost predicate MayEmit<K>(g: Graph<K>, preds: map<K, seq<K>>, v: K, E: set<K>, seeds: set<K>)
  {
    && v in g
    && (v in seeds ==> (forall u :: u in g && SortsBefore(g, preds, u, v) ==> u in E) && NoneReady(g, E))
    && (v !in seeds ==> g[v] != [] && forall s :: s in g[v] ==> s in E)
  }

  /** An emission order lists its set. */
  lemma {:induction false} EmitsLists<K>(g: Graph<K>, preds: map<K, seq<K>>, order: seq<K>, V: set<K>, seeds: set<K>)
    requires Emits(g, preds, order, V, seeds)
    ensures Lists(order, V)
    decreases |order|
  {
    if order != [] {
      EmitsLists(g, preds, order[..|order| - 1], V - {order[|order| - 1]}, seeds);
    }
  }

  /** Whether a node counts as a seed only matters for the nodes emitted. */
  lemma {:induction false} EmitsSeeds<K>(g: Graph<K>, preds: map<K, seq<K>>, order: seq<K>, V: set<K>,
                                         seeds: set<K>, x: K)
    requires Emits(g, preds, order, V, seeds) && x !in V
    ensures Emits(g, preds, order, V, seeds + {x})
    decreases |order|
  {
    if order != [] {
      EmitsSeeds(g, preds, order[..|order| - 1], V - {order[|order| - 1]}, seeds, x);
    }
  }

  /** Emitting one more node that may go now. */
  lemma EmitStep<K>(g: Graph<K>, preds: map<K, seq<K>>, order: seq<K>, V: set<K>, seeds: set<K>, v: K)
    requires Emits(g, preds, order, V, seeds) && v in g && v !in V
    requires v in seeds ==> forall u :: u in g && SortsBefore(g, preds, u, v) ==> u in V
    requires v in seeds ==> NoneReady(g, V)
    requires v !in seeds ==> g[v] != [] && Pending(g[v], V) == 0
    ensures Emits(g, preds, order + [v], V + {v}, seeds)
  {
    assert (order + [v])[..|order|] == order;
    assert V + {v} - {v} == V;
    PendingZero(g[v], V);
  }

  /**
   * The queue holds distinct unemitted nodes; all but a seed still waiting
   * at the front have nothing left to wait for, and the seed is the only
   * seed not emitted yet.
   */
  ghost predicate Queued<K>(g: Graph<K>, queue: seq<K>, visited: set<K>, seed: K, seeds: set<K>)
  {
    && Distinct(queue)
    && (seed !in visited ==> queue == [seed])
    && seeds <= visited + {seed}
    && forall j :: 0 <= j < |queue| ==>
         && queue[j] in g && queue[j] !in visited
         && (queue[j] == seed || (g[queue[j]] != [] && Pending(g[queue[j]], visited) == 0))
  }

  /**
   * Emits the seed and then, in queue order, every node it releases, until
   * the queue is empty.
   */
  method Drain<K(!new)>(g: Graph<K>, preds: map<K, seq<K>>, seed: K, ghost seeds: set<K>,
                        order: seq<K>, visited: set<K>, waitFor: map<K, nat>)
    returns (order': seq<K>, visited': set<K>, waitFor': map<K, nat>)
    requires Partitions.IsPredecessorIndex(g, preds)
    requires seed in g && seed !in visited && seed in seeds && seeds <= visited + {seed}
    requires forall u :: u in g && SortsBefore(g, preds, u, seed) ==> u in visited
    requires Waiting(g, waitFor, visited) && Emits(g, preds, order, visited, seeds) && visited <= g.Keys
    requires NoneReady(g, visited)
    ensures Waiting(g, waitFor', visited') && Emits(g, preds, order', visited', seeds)
    ensures visited <= visited' <= g.Keys && seed in visited'
    ensures NoneReady(g, visited')
  {
    var queue := [seed];
    order', visited', waitFor' := order, visited, waitFor;
    while queue != []
      invariant Waiting(g, waitFor', visited') && Emits(g, preds, order', visited', seeds)
      invariant visited <= visited' <= g.Keys
      invariant Queued(g, queue, visited', seed, seeds)
      invariant seed in visited' || visited' == visited
      invariant forall u :: u in g && u !in visited' && g[u] != [] && Pending(g[u], visited') == 0 ==> u in queue
      decreases g.Keys - visited'
    {
      var next := queue[0];
      ghost var queue0 := queue;
      queue := queue[1..];
      ghost var prior := visited';
      DrainFront(g, queue0, prior, seed, seeds);
      EmitStep(g, preds, order', prior, seeds, next);
      order' := order' + [next];
      visited' := visited' + {next};
      waitFor', queue := Release(g, preds, next, prior, visited', waitFor', queue);
      ReadyQueued(g, queue0, prior, visited', queue);
    }
  }

  /**
   * The front of a queue is a node to emit now (the seed, or a node with
   * nothing left to wait for), and the rest of the queue stays queued once
   * it is emitted.
   */
  lemma DrainFront<K>(g: Graph<K>, queue0: seq<K>, prior: set<K>, seed: K, seeds: set<K>)
    requires queue0 != [] && Queued(g, queue0, prior, seed, seeds)
    ensures queue0[0] in g && queue0[0] !in prior
    ensures queue0[0] in seeds ==> queue0[0] == seed && seed !in prior
    ensures queue0[0] != seed ==> g[queue0[0]] != [] && Pending(g[queue0[0]], prior) == 0
    ensures Distinct(queue0[1..])
    ensures forall j :: 0 <= j < |queue0[1..]| ==>
              && queue0[1..][j] in g && queue0[1..][j] !in prior + {queue0[0]}
              && g[queue0[1..][j]] != [] && Pending(g[queue0[1..][j]], prior) == 0
  {
    forall j | 0 <= j < |queue0[1..]|
      ensures queue0[1..][j] in g && queue0[1..][j] !in prior + {queue0[0]}
      ensures g[queue0[1..][j]] != [] && Pending(g[queue0[1..][j]], prior) == 0
    {
      assert queue0[1..][j] == queue0[j + 1] != queue0[0];
    }
  }

  /**
   * After emitting the front of queue0, every unemitted node with nothing
   * left to wait for is in the new queue: it was queued before, or its
   * counter has just reached 0.
   */
  lemma ReadyQueued<K>(g: Graph<K>, queue0: seq<K>, prior: set<K>, visited: set<K>, queue: seq<K>)
    requires queue0 != [] && visited == prior + {queue0[0]}
    requires forall u :: u in g && u !in prior && g[u] != [] && Pending(g[u], prior) == 0 ==> u in queue0
    requires |queue0| - 1 <= |queue| && queue[..|queue0| - 1] == queue0[1..]
    requires forall p :: p in g && p !in visited && Pending(g[p], prior) > 0 && Pending(g[p], visited) == 0 ==> p in queue
    ensures forall u :: u in g && u !in visited && g[u] != [] && Pending(g[u], visited) == 0 ==> u in queue
  {
    forall u | u in g && u !in visited && g[u] != [] && Pending(g[u], visited) == 0 ensures u in queue {
      if Pending(g[u], prior) == 0 {
        assert u in queue0 && u != queue0[0];
        assert u in queue0[1..];
        assert u in queue[..|queue0| - 1];
      }
    }
  }

  /** Before the seed at index k, every node that sorts strictly before it is emitted. */
  lemma SeedRule<K>(g: Graph<K>, preds: map<K, seq<K>>, sorted: seq<K>, k: nat, visited: set<K>)
    requires Lists(sorted, g.Keys) && SortedByDegree(g, preds, sorted) && k < |sorted|
    requires forall j :: 0 <= j < k ==> sorted[j] in visited
    ensures forall u :: u in g && SortsBefore(g, preds, u, sorted[k]) ==> u in visited
  {
    ListsMeaning(sorted, g.Keys);
    forall u | u in g && SortsBefore(g, preds, u, sorted[k]) ensures u in visited {
      NodesAt(sorted, 0, |sorted|, u);
      var j :| 0 <= j < |sorted| && sorted[j] == u;
      SortsBeforeOrder(g, preds, u, u, u);
    }
  }

  /**
   * The seeding loop: each key of `sorted` that is not emitted yet seeds a
   * drain of the release queue.
   */
  method SeedAll<K(!new)>(g: Graph<K>, preds: map<K, seq<K>>, sorted: seq<K>, waitFor: map<K, nat>)
    returns (order: seq<K>, ghost seeds: set<K>)
    requires Partitions.IsPredecessorIndex(g, preds)
    requires Lists(sorted, g.Keys) && SortedByDegree(g, preds, sorted)
    requires Waiting(g, waitFor, {})
    ensures Emits(g, preds, order, g.Keys, seeds)
  {
    var visited: set<K> := {};
    var counters := waitFor;
    order, seeds := [], {};
    forall u | u in g && g[u] != [] ensures Pending(g[u], visited) > 0 {
      PendingAll(g[u]);
    }
    for k := 0 to |sorted|
      invariant Waiting(g, counters, visited) && Emits(g, preds, order, visited, seeds)
      invariant visited <= g.Keys && seeds <= visited && NoneReady(g, visited)
      invariant forall j :: 0 <= j < k ==> sorted[j] in visited
    {
      order, visited, counters, seeds := SeedNext(g, preds, sorted, k, order, visited, counters, seeds);
    }
    ListsCovered(sorted, g.Keys, visited);
    assert visited == g.Keys;
  }

  /** One round of SeedAll: sorted[k], unless already emitted, becomes a seed and is drained. */
  method SeedNext<K(!new)>(g: Graph<K>, preds: map<K, seq<K>>, sorted: seq<K>, k: nat,
                           order: seq<K>, visited: set<K>, counters: map<K, nat>, ghost seeds: set<K>)
    returns (order': seq<K>, visited': set<K>, counters': map<K, nat>, ghost seeds': set<K>)
    requires Partitions.IsPredecessorIndex(g, preds)
    requires Lists(sorted, g.Keys) && SortedByDegree(g, preds, sorted) && k < |sorted|
    requires Waiting(g, counters, visited) && Emits(g, preds, order, visited, seeds)
    requires visited <= g.Keys && seeds <= visited && NoneReady(g, visited)
    requires forall j :: 0 <= j < k ==> sorted[j] in visited
    ensures Waiting(g, counters', visited') && Emits(g, preds, order', visited', seeds')
    ensures visited' <= g.Keys && seeds' <= visited' && NoneReady(g, visited')
    ensures forall j :: 0 <= j <= k ==> sorted[j] in visited'
  {
    var node := sorted[k];
    order', visited', counters', seeds' := order, visited, counters, seeds;
    if node !in visited {
      ListsWithin(sorted, g.Keys);
      SeedRule(g, preds, sorted, k, visited);
      EmitsSeeds(g, preds, order, visited, seeds, node);
      seeds' := seeds + {node};
      order', visited', counters' := Drain(g, preds, node, seeds', order, visited, counters);
    }
  }

  /**
   * executionOrder: the keys sorted by degree are the seeds, in that order,
   * of a drain of the release queue; the result lists every key once, each
   * released node after its successors and each seed after the nodes that
   * sort strictly before it.
   */
  method ExecutionOrder<K(!new)>(g: Graph<K>) returns (order: seq<K>, ghost preds: map<K, seq<K>>, ghost seeds: set<K>)
    requires Closed(g)
    ensures Partitions.IsPredecessorIndex(g, preds)
    ensures Emits(g, preds, order, g.Keys, seeds)
  {
    var predIndex := Partitions.Predecessors(g);
    preds := predIndex;
    var sorted := SortByDegree(g, predIndex);
    var waitFor := InitWaitFor(g);
    order, seeds := SeedAll(g, predIndex, sorted, waitFor);
  }

  // ---------------------------------------------------------------------
  // walkNode: round-robin random walks
  // ---------------------------------------------------------------------

  /** The round-robin index of v; a node without an entry reads 0. */
  function IndexOf<K>(index: map<K, nat>, v: K): nat
  {
    if v in index then index[v] else 0
  }

  /**
   * Every index belongs to a node and, once the node has been left through
   * it, points at one of its successors.
   */
  ghost predicate IndexOk<K>(g: Graph<K>, index: map<K, nat>)
  {
    forall v :: v in index ==> v in g && (index[v] == 0 || index[v] < |g[v]|)
  }

  /** Whether the random continuation test lets the walk go on; no draw left stops it. */
  function Continues(coins: seq<bool>): bool
  {
    coins != [] && coins[0]
  }

  /** The draws left after one continuation test. */
  function AfterDraw(coins: seq<bool>): seq<bool>
  {
    if coins == [] then [] else coins[1..]
  }

  /**
   * What walkNode promises: a dead end gets itself with weight 1; otherwise
   * at most `cap` nodes of the graph, all with positive weight, the node
   * itself with weight at least 1.
   */
  ghost predicate IsWalk<K>(g: Graph<K>, v: K, cap: nat, res: Basket<K>)
  {
    && v in g
    && (g[v] == [] ==> res == map[v := 1.0])
    && (g[v] != [] ==>
          && |res| <= cap && v in res && res[v] >= 1.0 && res.Keys <= g.Keys
          && forall k :: k in res ==> res[k] > 0.0)
  }

  /** The number of walks that run out of `walks`: walks * d, truncated. */
  function WalkCount(walks: nat, d: real): nat
    requires 0.0 <= d
  {
    (walks as real * d).Floor
  }

  /** At most `cap` nodes of the graph are counted, each at least once. */
  ghost predicate Capped<K>(g: Graph<K>, cap: nat, res: Basket<K>)
  {
    && |res| <= cap && res.Keys <= g.Keys
    && forall k :: k in res ==> res[k] >= 1.0
  }

  /** The counts gathered so far: capped, the start counted at least `walks` times. */
  ghost predicate Counting<K>(g: Graph<K>, node: K, cap: nat, walks: nat, res: Basket<K>)
  {
    Capped(g, cap, res) && node in res && res[node] >= walks as real
  }

  /** The counts, the round-robin indexes and the draws left, as a walk leaves them. */
  datatype WalkState<K> = WalkState(counts: Basket<K>, index: map<K, nat>, coins: seq<bool>)

  /**
   * One walk from cur: stop at a dead end; otherwise advance cur's index by
   * one modulo its out-degree, hop to the successor it points at, count that
   * node if it is counted already or there is room below cap, then draw:
   * go on from the node reached if the draw passes, stop otherwise.
   */
  function WalkFrom<K>(g: Graph<K>, cap: nat, cur: K, counts: Basket<K>, index: map<K, nat>,
                       coins: seq<bool>): WalkState<K>
    requires Closed(g) && cur in g
    decreases |coins|
  {
    if |g[cur]| == 0 then WalkState(counts, index, coins)
    else
      var i := (IndexOf(index, cur) + 1) % |g[cur]|;
      var next := g[cur][i];
      var counts' := if next in counts || |counts| < cap then counts[next := Get(counts, next) + 1.0] else counts;
      if Continues(coins) then WalkFrom(g, cap, next, counts', index[cur := i], AfterDraw(coins))
      else WalkState(counts', index[cur := i], AfterDraw(coins))
  }

  /** n walks from node, one after the other, starting from st. */
  function Walks<K>(g: Graph<K>, cap: nat, node: K, n: nat, st: WalkState<K>): WalkState<K>
    requires Closed(g) && node in g
  {
    if n == 0 then st
    else
      var before := Walks(g, cap, node, n - 1, st);
      WalkFrom(g, cap, node, before.counts, before.index, before.coins)
  }

  /**
   * One walk from `node`: hop along the successor the round-robin index of
   * the current node points at next, count the node reached if it is
   * counted already or there is room, and go on while the continuation
   * test passes; a dead end stops the walk before any draw.
   */
  method Walk<K>(g: Graph<K>, node: K, cap: nat, res: Basket<K>, index: map<K, nat>, coins: seq<bool>)
    returns (res': Basket<K>, index': map<K, nat>, coins': seq<bool>)
    requires Closed(g) && node in g
    ensures WalkState(res', index', coins') == WalkFrom(g, cap, node, res, index, coins)
    ensures Raised(res, res') && (Capped(g, cap, res) ==> Capped(g, cap, res'))
    ensures (IndexOk(g, index) ==> IndexOk(g, index')) && |coins'| <= |coins|
  {
    res', index', coins' := res, index, coins;
    var cur := node;
    while true
      invariant cur in g
      invariant WalkFrom(g, cap, cur, res', index', coins') == WalkFrom(g, cap, node, res, index, coins)
      invariant Kept(g, cap, res, index, coins, res', index', coins')
      decreases |coins'|
    {
      if |g[cur]| == 0 {
        break;
      }
      var next := g[cur][(IndexOf(index', cur) + 1) % |g[cur]|];
      HopKept(g, cap, res, index, coins, cur, res', index', coins');
      WalkHop(g, cap, cur, res', index', coins');
      var go := Continues(coins');
      var h := Hop(g, cap, cur, res', index', coins');
      res', index', coins', cur := h.counts, h.index, h.coins, next;
      if !go {
        break;
      }
    }
  }

  /**
   * What a walk keeps, from the state (res, index, coins) to the state
   * (res', index', coins'): counts only rise and stay capped, indexes stay
   * valid, and draws are used up.
   */
  ghost predicate Kept<K>(g: Graph<K>, cap: nat, res: Basket<K>, index: map<K, nat>, coins: seq<bool>,
                          res': Basket<K>, index': map<K, nat>, coins': seq<bool>)
  {
    && Raised(res, res') && (Capped(g, cap, res) ==> Capped(g, cap, res'))
    && (IndexOk(g, index) ==> IndexOk(g, index')) && |coins'| <= |coins|
  }

  /** The state after one hop of a walk that is not at a dead end. */
  function Hop<K>(g: Graph<K>, cap: nat, cur: K, counts: Basket<K>, index: map<K, nat>, coins: seq<bool>): WalkState<K>
    requires Closed(g) && cur in g && |g[cur]| != 0
  {
    var i := (IndexOf(index, cur) + 1) % |g[cur]|;
    var next := g[cur][i];
    var counts' := if next in counts || |counts| < cap then counts[next := Get(counts, next) + 1.0] else counts;
    WalkState(counts', index[cur := i], AfterDraw(coins))
  }

  /** One hop keeps what a walk keeps. */
  lemma HopKept<K>(g: Graph<K>, cap: nat, res: Basket<K>, index: map<K, nat>, coins: seq<bool>,
                   cur: K, res0: Basket<K>, index0: map<K, nat>, coins0: seq<bool>)
    requires Closed(g) && cur in g && |g[cur]| != 0
    requires Kept(g, cap, res, index, coins, res0, index0, coins0)
    ensures var h := Hop(g, cap, cur, res0, index0, coins0);
            Kept(g, cap, res, index, coins, h.counts, h.index, h.coins)
  {
    var i := (IndexOf(index0, cur) + 1) % |g[cur]|;
    var h := Hop(g, cap, cur, res0, index0, coins0);
    CountHop(g, cap, g[cur][i], res0);
    RaisedTrans(res, res0, h.counts);
    IndexStep(g, index0, cur, i);
  }

  /** A walk not at a dead end makes one hop, then goes on from the node reached if the draw passes. */
  lemma WalkHop<K>(g: Graph<K>, cap: nat, cur: K, counts: Basket<K>, index: map<K, nat>, coins: seq<bool>)
    requires Closed(g) && cur in g && |g[cur]| != 0
    ensures var h := Hop(g, cap, cur, counts, index, coins);
            var next := g[cur][(IndexOf(index, cur) + 1) % |g[cur]|];
            WalkFrom(g, cap, cur, counts, index, coins)
              == if Continues(coins) then WalkFrom(g, cap, next, h.counts, h.index, h.coins) else h
  {
  }

  /** Counting one more visit of next keeps the counts capped and only raises them. */
  lemma CountHop<K>(g: Graph<K>, cap: nat, next: K, counts: Basket<K>)
    requires next in g
    ensures var counts' := if next in counts || |counts| < cap then counts[next := Get(counts, next) + 1.0] else counts;
            (Capped(g, cap, counts) ==> Capped(g, cap, counts')) && Raised(counts, counts')
  {
  }

  /** Every count of a survives into b, at least as large. */
  ghost predicate Raised<K>(a: Basket<K>, b: Basket<K>)
  {
    forall k :: k in a ==> k in b && a[k] <= b[k]
  }

  lemma RaisedTrans<K>(a: Basket<K>, b: Basket<K>, c: Basket<K>)
    requires Raised(a, b) && Raised(b, c)
    ensures Raised(a, c)
  {
  }

  /** Pointing cur's index at one of its successors keeps the indexes valid. */
  lemma IndexStep<K>(g: Graph<K>, index: map<K, nat>, cur: K, i: nat)
    requires cur in g && i < |g[cur]|
    ensures IndexOk(g, index) ==> IndexOk(g, index[cur := i])
  {
  }

  /**
   * With every draw passing and no dead end in the graph, a walk uses up all
   * the draws: the stream's length alone bounds it. With damping 1 every draw
   * passes, so a walk of the source that reaches a cycle never stops.
   */
  lemma {:induction false} WalkUsesEveryDraw<K>(g: Graph<K>, cap: nat, cur: K, counts: Basket<K>,
                                                 index: map<K, nat>, coins: seq<bool>)
    requires Closed(g) && cur in g && forall v :: v in g ==> g[v] != []
    requires forall j :: 0 <= j < |coins| ==> coins[j]
    ensures WalkFrom(g, cap, cur, counts, index, coins).coins == []
    decreases |coins|
  {
    var next := g[cur][(IndexOf(index, cur) + 1) % |g[cur]|];
    var h := Hop(g, cap, cur, counts, index, coins);
    WalkHop(g, cap, cur, counts, index, coins);
    if coins != [] {
      WalkUsesEveryDraw(g, cap, next, h.counts, h.index, h.coins);
    }
  }

  /** Every weight divided by q. */
  ghost function Divided<K>(m: Basket<K>, q: real): Basket<K>
    requires q != 0.0
  {
    map k | k in m :: m[k] / q
  }

  /** Divides every weight by q. */
  method DivideAll<K>(m: Basket<K>, q: real) returns (r: Basket<K>)
    requires q != 0.0
    ensures r == Divided(m, q)
  {
    r := m;
    var rest := m.Keys;
    while rest != {}
      invariant rest <= m.Keys && r.Keys == m.Keys
      invariant forall k :: k in r ==> r[k] == (if k in rest then m[k] else m[k] / q)
      decreases |rest|
    {
      var k :| k in rest;
      r := r[k := r[k] / q];
      rest := rest - {k};
    }
  }

  /**
   * walkNode: at a dead end the node alone with weight 1 and nothing
   * drawn; otherwise the node counted `walks` times, then WalkCount(walks, d)
   * walks in a row, and the counts divided by `walks`. The shared
   * round-robin indexes and the draws are left where the walks leave them.
   */
  method WalkNode<K>(g: Graph<K>, index: map<K, nat>, node: K, cap: nat, d: real, walks: nat,
                     coins: seq<bool>)
    returns (res: Basket<K>, index': map<K, nat>, coins': seq<bool>)
    requires Closed(g) && node in g && IndexOk(g, index)
    requires 0 < cap && 0 < walks && 0.0 <= d
    ensures g[node] == [] ==> res == map[node := 1.0] && index' == index && coins' == coins
    ensures g[node] != [] ==>
              var st := Walks(g, cap, node, WalkCount(walks, d), WalkState(map[node := walks as real], index, coins));
              res == Divided(st.counts, walks as real) && index' == st.index && coins' == st.coins
    ensures IsWalk(g, node, cap, res) && IndexOk(g, index') && |coins'| <= |coins|
  {
    index', coins' := index, coins;
    if |g[node]| > 0 {
      res := map[node := walks as real];
      var bk := walks;
      var runs := WalkCount(walks, d);
      ghost var init := WalkState(res, index, coins);
      for i := 0 to runs
        invariant WalkState(res, index', coins') == Walks(g, cap, node, i, init)
        invariant Counting(g, node, cap, bk, res) && IndexOk(g, index') && |coins'| <= |coins|
      {
        res, index', coins' := Walk(g, node, cap, res, index', coins');
      }
      CountsToMeans(g, node, cap, bk, res);
      res := DivideAll(res, bk as real);
    } else {
      res := map[node := 1.0];
    }
  }

  /** Dividing the counts by the number of walks gives a walk result. */
  lemma CountsToMeans<K>(g: Graph<K>, node: K, cap: nat, walks: nat, res: Basket<K>)
    requires node in g && g[node] != [] && walks > 0
    requires Counting(g, node, cap, walks, res)
    ensures IsWalk(g, node, cap, Divided(res, walks as real))
  {
    var r := Divided(res, walks as real);
    assert r.Keys == res.Keys;
    assert r[node] == res[node] / (walks as real);
    AtLeastOne(res[node], walks as real);
  }

  lemma AtLeastOne(x: real, q: real)
    requires 0.0 < q <= x
    ensures x / q >= 1.0
  {
    assert x / q >= q / q;
  }

  // ---------------------------------------------------------------------
  // mccompletepathv2: folding successor baskets in execution order
  // ---------------------------------------------------------------------

  /** The weight a node passes on: damping over out-degree, 1 at a dead end. */
  function McFactor(d: real, outdeg: nat): (f: real)
    ensures d != 0.0 ==> f != 0.0
    ensures outdeg == 0 ==> f == 1.0
  {
    if outdeg == 0 then 1.0 else d / (outdeg as real)
  }

  /** The basket a node starts from: itself, pre-divided by its factor. */
  function Start<K>(d: real, v: K, outdeg: nat): Basket<K>
    requires d != 0.0
  {
    map[v := 1.0 / McFactor(d, outdeg)]
  }

  /** m with the baskets bs added, in order. */
  ghost function FoldSeq<K>(m: Basket<K>, bs: seq<Basket<K>>): Basket<K>
    decreases |bs|
  {
    if bs == [] then m else Grank.AddScaled(FoldSeq(m, bs[..|bs| - 1]), bs[|bs| - 1], 1.0)
  }

  /** Every weight multiplied by f. */
  ghost function Scaled<K>(m: Basket<K>, f: real): Basket<K>
  {
    map k | k in m :: m[k] * f
  }

  /** Multiplies every weight by f. */
  method ScaleAll<K>(m: Basket<K>, f: real) returns (r: Basket<K>)
    ensures r == Scaled(m, f)
  {
    r := m;
    var rest := m.Keys;
    while rest != {}
      invariant rest <= m.Keys && r.Keys == m.Keys
      invariant forall k :: k in r ==> r[k] == (if k in rest then m[k] else m[k] * f)
      decreases |rest|
    {
      var k :| k in rest;
      r := r[k := r[k] * f];
      rest := rest - {k};
    }
  }

  /** The walk results the table holds for nodes outside P. */
  ghost predicate WalkedOutside<K>(g: Graph<K>, cap: nat, P: set<K>, t: Table<K>)
  {
    forall v :: v in t && v !in P ==> IsWalk(g, v, cap, t[v])
  }

  /**
   * table grew from scores: the baskets of scores are untouched and every
   * basket added is a walk result.
   */
  ghost predicate Grown<K>(g: Graph<K>, cap: nat, scores: Table<K>, table: Table<K>)
  {
    && scores.Keys <= table.Keys <= g.Keys
    && (forall v :: v in scores ==> table[v] == scores[v])
    && (forall v :: v in table && v !in scores ==> IsWalk(g, v, cap, table[v]))
  }

  /** inputs are the baskets table holds for the first |inputs| successors. */
  ghost predicate Gathered<K>(succs: seq<K>, table: Table<K>, inputs: seq<Basket<K>>)
  {
    && |inputs| <= |succs|
    && forall t :: 0 <= t < |inputs| ==> succs[t] in table && inputs[t] == table[succs[t]]
  }

  /** Walking a node without a basket keeps both invariants. */
  lemma WalkStep<K>(g: Graph<K>, cap: nat, scores: Table<K>, table: Table<K>, succs: seq<K>,
                    inputs: seq<Basket<K>>, s: K, walked: Basket<K>)
    requires Grown(g, cap, scores, table) && Gathered(succs, table, inputs)
    requires s in g && s !in table && IsWalk(g, s, cap, walked)
    ensures Grown(g, cap, scores, table[s := walked]) && Gathered(succs, table[s := walked], inputs)
  {
  }

  /** Adding the next successor's basket. */
  lemma GatherStep<K>(succs: seq<K>, table: Table<K>, inputs: seq<Basket<K>>, m: Basket<K>, start: Basket<K>)
    requires Gathered(succs, table, inputs) && |inputs| < |succs| && succs[|inputs|] in table
    requires m == FoldSeq(start, inputs)
    ensures Gathered(succs, table, inputs + [table[succs[|inputs|]]])
    ensures Grank.AddScaled(m, table[succs[|inputs|]], 1.0) == FoldSeq(start, inputs + [table[succs[|inputs|]]])
  {
    assert (inputs + [table[succs[|inputs|]]])[..|inputs|] == inputs;
  }

  /**
   * The successor loop of one node: a successor without a basket walks
   * first; each successor basket is added to the start basket in order.
   * `table` is the table after the loop, `inputs` the baskets added.
   */
  method FoldSuccessors<K(!new)>(g: Graph<K>, d: real, cap: nat, iterations: nat, node: K,
                                 scores: Table<K>, index: map<K, nat>, coins: seq<bool>)
    returns (m: Basket<K>, table: Table<K>, index': map<K, nat>, coins': seq<bool>, ghost inputs: seq<Basket<K>>)
    requires Closed(g) && node in g && IndexOk(g, index) && scores.Keys <= g.Keys
    requires 0 < cap && 0 < iterations && 0.0 < d
    ensures IndexOk(g, index') && Grown(g, cap, scores, table)
    ensures Gathered(g[node], table, inputs) && |inputs| == |g[node]|
    ensures m == FoldSeq(Start(d, node, |g[node]|), inputs)
  {
    var succs := g[node];
    m := Start(d, node, |succs|);
    table, index', coins', inputs := scores, index, coins, [];
    for j := 0 to |succs|
      invariant IndexOk(g, index') && Grown(g, cap, scores, table)
      invariant Gathered(succs, table, inputs) && |inputs| == j
      invariant m == FoldSeq(Start(d, node, |succs|), inputs)
    {
      var s := succs[j];
      if s !in table {
        var walked;
        walked, index', coins' := WalkNode(g, index', s, cap, d, iterations, coins');
        WalkStep(g, cap, scores, table, succs, inputs, s, walked);
        table := table[s := walked];
      }
      GatherStep(succs, table, inputs, m, Start(d, node, |succs|));
      m := Grank.AddBasket(m, table[s], 1.0);
      inputs := inputs + [table[s]];
    }
  }

  /**
   * One node of the execution order: fold, keep the top `cap`, multiply by
   * the factor and overwrite the node's basket. `table` is the table the
   * node's basket was written into.
   */
  method ComputeNode<K(!new)>(g: Graph<K>, d: real, cap: nat, iterations: nat, node: K,
                        scores: Table<K>, index: map<K, nat>, coins: seq<bool>)
    returns (scores': Table<K>, index': map<K, nat>, coins': seq<bool>,
             ghost table: Table<K>, ghost inputs: seq<Basket<K>>, ghost kept: Basket<K>)
    requires Closed(g) && node in g && IndexOk(g, index) && scores.Keys <= g.Keys
    requires 0 < cap && 0 < iterations && 0.0 < d
    ensures IndexOk(g, index') && Grown(g, cap, scores, table)
    ensures Gathered(g[node], table, inputs) && |inputs| == |g[node]|
    ensures Baskets.IsTopOf(cap, FoldSeq(Start(d, node, |g[node]|), inputs), kept)
    ensures scores' == table[node := Scaled(kept, McFactor(d, |g[node]|))]
  {
    var m, t;
    m, t, index', coins', inputs := FoldSuccessors(g, d, cap, iterations, node, scores, index, coins);
    table := t;
    var top := Baskets.KeepTop(cap, m);
    kept := top;
    var scaled := ScaleAll(top, McFactor(d, |g[node]|));
    scores' := t[node := scaled];
  }

  /**
   * The basket b folded in for a successor s by a node computed after the
   * nodes `before`: the final basket of s when s was computed before,
   * a walk result from s otherwise.
   */
  ghost predicate Fed<K>(g: Graph<K>, cap: nat, before: set<K>, scores: Table<K>, s: K, b: Basket<K>)
  {
    if s in before then s in scores && b == scores[s] else IsWalk(g, s, cap, b)
  }

  /**
   * v is computed: its basket is the top `cap` of its start basket plus the
   * baskets it folded in, one per successor, multiplied by its factor.
   */
  ghost predicate Settled<K>(g: Graph<K>, d: real, cap: nat, before: set<K>, scores: Table<K>,
                             kept: Table<K>, inputs: map<K, seq<Basket<K>>>, v: K)
    requires d != 0.0
  {
    && v in g && v in scores && v in kept && v in inputs && |inputs[v]| == |g[v]|
    && Baskets.IsTopOf(cap, FoldSeq(Start(d, v, |g[v]|), inputs[v]), kept[v])
    && scores[v] == Scaled(kept[v], McFactor(d, |g[v]|))
    && forall j :: 0 <= j < |g[v]| ==> Fed(g, cap, before, scores, g[v][j], inputs[v][j])
  }

  /** All of P is computed, each node v after the nodes done[v] of P. */
  ghost predicate AllSettled<K>(g: Graph<K>, d: real, cap: nat, P: set<K>, done: map<K, set<K>>,
                                scores: Table<K>, kept: Table<K>, inputs: map<K, seq<Basket<K>>>)
    requires d != 0.0
  {
    forall v :: v in P ==> v in done && done[v] <= P && Settled(g, d, cap, done[v], scores, kept, inputs, v)
  }

  /** done maps the node at each position of order to the nodes before it. */
  ghost predicate DoneAlong<K>(order: seq<K>, done: map<K, set<K>>, i: nat)
    requires i <= |order|
  {
    forall j :: 0 <= j < i ==> order[j] in done && done[order[j]] == Nodes(order, 0, j)
  }

  /**
   * Read at position i, an emission order emits a node not emitted before:
   * a released node has successors, all emitted before it; a seed comes
   * once no node is ready and after every node that sorts before it.
   */
  lemma {:induction false} EmitsAt<K>(g: Graph<K>, preds: map<K, seq<K>>, order: seq<K>, V: set<K>,
                                      seeds: set<K>, i: nat)
    requires Emits(g, preds, order, V, seeds) && i < |order|
    ensures order[i] in g && order[i] !in Nodes(order, 0, i)
    ensures order[i] !in seeds ==> g[order[i]] != [] && forall s :: s in g[order[i]] ==> s in Nodes(order, 0, i)
    ensures order[i] in seeds ==> NoneReady(g, Nodes(order, 0, i))
    ensures order[i] in seeds ==> forall u :: u in g && SortsBefore(g, preds, u, order[i]) ==> u in Nodes(order, 0, i)
    decreases |order|
  {
    var n := |order| - 1;
    var p := order[..n];
    if i == n {
      EmitsLists(g, preds, p, V - {order[n]}, seeds);
      ListsMeaning(p, V - {order[n]});
      NodesPrefix(order, p, n);
    } else {
      EmitsAt(g, preds, p, V - {order[n]}, seeds, i);
      NodesPrefix(order, p, i);
      assert p[i] == order[i];
    }
  }

  /**
   * A worked instance: 0 and 1 both lead to 2, and 2 leads through 3 to
   * the dead end 4. The in-degrees are 0, 0, 2, 1, 1.
   */
  const ForkChain: Graph<int> := map[0 := [2], 1 := [2], 2 := [3], 3 := [4], 4 := []]

  /** from holds the sources of the edges into v, each once per edge. */
  ghost predicate SourcesOf<K(!new)>(g: Graph<K>, v: K, from: seq<K>)
  {
    forall p :: Partitions.EdgeCount(g, p, v) == multiset(from)[p]
  }

  /** The in-degree of v is the length of any vector holding v's predecessors with their multiplicities. */
  lemma InDegreeFrom<K(!new)>(g: Graph<K>, preds: map<K, seq<K>>, v: K, from: seq<K>)
    requires Partitions.IsPredecessorIndex(g, preds) && v in g && SourcesOf(g, v, from)
    ensures InDegree(preds, v) == |from|
  {
    assert multiset(Partitions.PredsOf(preds, v)) == multiset(from);
    assert |multiset(from)| == |from|;
  }

  /** The predecessors of each node of ForkChain. */
  function ForkChainPreds(v: int): seq<int>
  {
    if v == 2 then [0, 1] else if v == 3 then [2] else if v == 4 then [3] else []
  }

  /** ForkChainPreds counts the edges of ForkChain into v by source. */
  lemma ForkChainEdgeCounts(v: int)
    requires v in ForkChain
    ensures SourcesOf(ForkChain, v, ForkChainPreds(v))
  {
    forall p ensures Partitions.EdgeCount(ForkChain, p, v) == multiset(ForkChainPreds(v))[p] {
      if p in ForkChain {
        // each node has at most one successor
        assert p == 4 || ForkChain[p] == [ForkChain[p][0]];
        assert multiset(ForkChain[p])[v] == if p != 4 && ForkChain[p][0] == v then 1 else 0;
      } else {
        assert p !in ForkChainPreds(v);
      }
    }
  }

  /** Any predecessor index of ForkChain gives those in-degrees. */
  lemma ForkChainDegrees(preds: map<int, seq<int>>)
    requires Partitions.IsPredecessorIndex(ForkChain, preds)
    ensures InDegree(preds, 0) == 0 && InDegree(preds, 1) == 0 && InDegree(preds, 2) == 2
    ensures InDegree(preds, 3) == 1 && InDegree(preds, 4) == 1
  {
    forall v | v in ForkChain ensures InDegree(preds, v) == |ForkChainPreds(v)| {
      ForkChainEdgeCounts(v);
      InDegreeFrom(ForkChain, preds, v, ForkChainPreds(v));
    }
  }

  /**
   * On ForkChain, the node x emitted after the set E, as EmitsAt describes
   * it, is determined at each stage: the seed 2 first, then 0 and 1 (ready,
   * so no seed is taken), then the seed 4, and 3 last.
   */
  lemma ForkChainNext(preds: map<int, seq<int>>, E: set<int>, x: int, seed: bool)
    requires InDegree(preds, 0) == 0 && InDegree(preds, 1) == 0 && InDegree(preds, 2) == 2
    requires InDegree(preds, 3) == 1 && InDegree(preds, 4) == 1
    requires x in ForkChain && x !in E
    requires !seed ==> ForkChain[x] != [] && forall s :: s in ForkChain[x] ==> s in E
    requires seed ==> NoneReady(ForkChain, E)
    requires seed ==> forall u :: u in ForkChain && SortsBefore(ForkChain, preds, u, x) ==> u in E
    ensures E == {} ==> x == 2
    ensures E == {2} ==> x == 0 || x == 1
    ensures E == {2, 0} ==> x == 1
    ensures E == {2, 1} ==> x == 0
    ensures E == {2, 0, 1} ==> x == 4
    ensures E == {2, 0, 1, 4} ==> x == 3
  {
    var g := ForkChain;
    // a released node needs its first successor emitted already
    assert !seed ==> g[x][0] in E;
    if E == {} {
      assert x != 2 ==> SortsBefore(g, preds, 2, x);
    }
    if E == {2} || E == {2, 0} || E == {2, 1} {
      // one of 0 and 1 is ready, so no seed is taken
      var waiting := if 0 in E then 1 else 0;
      PendingZero(g[waiting], E);
      assert waiting in g && waiting !in E && g[waiting] != [] && Pending(g[waiting], E) == 0;
    }
    if E == {2, 0, 1} {
      assert SortsBefore(g, preds, 4, 3);
    }
  }

  /** An emission order of ForkChain has five positions, each read through ForkChainNext. */
  lemma ForkChainSteps(preds: map<int, seq<int>>, order: seq<int>, seeds: set<int>)
    requires Partitions.IsPredecessorIndex(ForkChain, preds)
    requires Emits(ForkChain, preds, order, ForkChain.Keys, seeds)
    ensures |order| == 5
    ensures forall i :: 0 <= i < |order| ==>
              && (Nodes(order, 0, i) == {} ==> order[i] == 2)
              && (Nodes(order, 0, i) == {2} ==> order[i] == 0 || order[i] == 1)
              && (Nodes(order, 0, i) == {2, 0} ==> order[i] == 1)
              && (Nodes(order, 0, i) == {2, 1} ==> order[i] == 0)
              && (Nodes(order, 0, i) == {2, 0, 1} ==> order[i] == 4)
              && (Nodes(order, 0, i) == {2, 0, 1, 4} ==> order[i] == 3)
  {
    EmitsLists(ForkChain, preds, order, ForkChain.Keys, seeds);
    ListsSize(order, ForkChain.Keys);
    ForkChainDegrees(preds);
    forall i | 0 <= i < |order|
      ensures Nodes(order, 0, i) == {} ==> order[i] == 2
      ensures Nodes(order, 0, i) == {2} ==> order[i] == 0 || order[i] == 1
      ensures Nodes(order, 0, i) == {2, 0} ==> order[i] == 1
      ensures Nodes(order, 0, i) == {2, 1} ==> order[i] == 0
      ensures Nodes(order, 0, i) == {2, 0, 1} ==> order[i] == 4
      ensures Nodes(order, 0, i) == {2, 0, 1, 4} ==> order[i] == 3
    {
      EmitsAt(ForkChain, preds, order, ForkChain.Keys, seeds, i);
      ForkChainNext(preds, Nodes(order, 0, i), order[i], order[i] in seeds);
    }
  }

  /**
   * On ForkChain every emission order starts with the seed 2 (the highest
   * in-degree), releases 0 and 1, whose only successor is 2, then seeds the
   * dead end 4 (it sorts before 3: equal in-degree, fewer successors) and
   * releases 3 last.
   */
  lemma ForkChainOrder(preds: map<int, seq<int>>, order: seq<int>, seeds: set<int>)
    requires Partitions.IsPredecessorIndex(ForkChain, preds)
    requires Emits(ForkChain, preds, order, ForkChain.Keys, seeds)
    ensures order == [2, 0, 1, 4, 3] || order == [2, 1, 0, 4, 3]
  {
    ForkChainSteps(preds, order, seeds);
    NodesOfFive(order);
    FiveOrders(order);
  }

  /** The emitted prefixes of a five-element order. */
  lemma NodesOfFive<K>(order: seq<K>)
    requires |order| == 5
    ensures Nodes(order, 0, 0) == {} && Nodes(order, 0, 1) == {order[0]}
    ensures Nodes(order, 0, 2) == {order[0], order[1]}
    ensures Nodes(order, 0, 3) == {order[0], order[1], order[2]}
    ensures Nodes(order, 0, 4) == {order[0], order[1], order[2], order[3]}
  {
    assert Nodes(order, 0, 1) == {order[0]};
    assert Nodes(order, 0, 2) == {order[0], order[1]};
    assert Nodes(order, 0, 3) == {order[0], order[1], order[2]};
  }

  /** The two orders ForkChainOrder allows, read off position by position. */
  lemma FiveOrders(order: seq<int>)
    requires |order| == 5 && order[0] == 2 && order[3] == 4 && order[4] == 3
    requires (order[1] == 0 && order[2] == 1) || (order[1] == 1 && order[2] == 0)
    ensures order == [2, 0, 1, 4, 3] || order == [2, 1, 0, 4, 3]
  {
    if order[1] == 0 {
      assert order == [2, 0, 1, 4, 3];
    } else {
      assert order == [2, 1, 0, 4, 3];
    }
  }

  /**
   * The queue is drained before the next seed: a node with successors, all
   * of them emitted by position i, is emitted before any seed that comes
   * after position i.
   */
  lemma ReadyBeforeSeed<K>(g: Graph<K>, preds: map<K, seq<K>>, order: seq<K>, V: set<K>, seeds: set<K>,
                           i: nat, k: nat, u: K)
    requires Emits(g, preds, order, V, seeds) && i <= k < |order| && order[k] in seeds
    requires u in g && g[u] != [] && forall s :: s in g[u] ==> s in Nodes(order, 0, i)
    ensures u in Nodes(order, 0, k)
  {
    EmitsAt(g, preds, order, V, seeds, k);
    NodesSplit(order, 0, i, k);
    PendingZero(g[u], Nodes(order, 0, k));
  }

  /**
   * Computing `node` (not computed yet) after the nodes P keeps every
   * computed node computed and settles `node`.
   */
  lemma SettleStep<K>(g: Graph<K>, d: real, cap: nat, P: set<K>, done: map<K, set<K>>, scores: Table<K>,
                      kept: Table<K>, inputs: map<K, seq<Basket<K>>>, node: K,
                      table: Table<K>, ins: seq<Basket<K>>, k: Basket<K>)
    requires d != 0.0 && node in g && node !in P && P <= scores.Keys
    requires AllSettled(g, d, cap, P, done, scores, kept, inputs) && WalkedOutside(g, cap, P, scores)
    requires Grown(g, cap, scores, table) && Gathered(g[node], table, ins) && |ins| == |g[node]|
    requires Baskets.IsTopOf(cap, FoldSeq(Start(d, node, |g[node]|), ins), k)
    ensures AllSettled(g, d, cap, P + {node}, done[node := P], table[node := Scaled(k, McFactor(d, |g[node]|))],
                       kept[node := k], inputs[node := ins])
    ensures WalkedOutside(g, cap, P + {node}, table[node := Scaled(k, McFactor(d, |g[node]|))])
  {
    var scores' := table[node := Scaled(k, McFactor(d, |g[node]|))];
    var P', done', kept', inputs' := P + {node}, done[node := P], kept[node := k], inputs[node := ins];
    forall v | v in P' ensures v in done' && done'[v] <= P' && Settled(g, d, cap, done'[v], scores', kept', inputs', v) {
      if v == node {
        SettleNew(g, d, cap, P, scores, table, node, ins, scores', kept', inputs');
      } else {
        SettleOld(g, d, cap, P, done, scores, kept, inputs, v, node, scores', kept', inputs');
        assert done'[v] == done[v];
      }
    }
    WalkedStep(g, cap, P, scores, table, node, scores');
  }

  /** Adding the basket of node to a grown table keeps the walk results outside P and node. */
  lemma WalkedStep<K>(g: Graph<K>, cap: nat, P: set<K>, scores: Table<K>, table: Table<K>, node: K,
                      scores': Table<K>)
    requires WalkedOutside(g, cap, P, scores) && Grown(g, cap, scores, table)
    requires node in scores' && scores' == table[node := scores'[node]]
    ensures WalkedOutside(g, cap, P + {node}, scores')
  {
    forall v | v in scores' && v !in P + {node} ensures IsWalk(g, v, cap, scores'[v]) {
      assert scores'[v] == table[v];
    }
  }

  /** The node just computed is settled after the nodes before it. */
  lemma SettleNew<K>(g: Graph<K>, d: real, cap: nat, P: set<K>, scores: Table<K>, table: Table<K>,
                     node: K, ins: seq<Basket<K>>, scores': Table<K>, kept': Table<K>,
                     inputs': map<K, seq<Basket<K>>>)
    requires d != 0.0 && node in g && node !in P && P <= scores.Keys
    requires WalkedOutside(g, cap, P, scores) && Grown(g, cap, scores, table)
    requires Gathered(g[node], table, ins) && |ins| == |g[node]|
    requires node in kept' && Baskets.IsTopOf(cap, FoldSeq(Start(d, node, |g[node]|), ins), kept'[node])
    requires scores' == table[node := Scaled(kept'[node], McFactor(d, |g[node]|))]
    requires node in inputs' && inputs'[node] == ins
    ensures Settled(g, d, cap, P, scores', kept', inputs', node)
  {
    forall j | 0 <= j < |g[node]| ensures Fed(g, cap, P, scores', g[node][j], ins[j]) {
      var s := g[node][j];
      assert ins[j] == table[s];
      if s in P {
        assert table[s] == scores[s];
      } else if s in scores {
        assert table[s] == scores[s];
      }
    }
  }

  /** A node settled before stays settled when another node's basket is added. */
  lemma SettleOld<K>(g: Graph<K>, d: real, cap: nat, P: set<K>, done: map<K, set<K>>, scores: Table<K>,
                     kept: Table<K>, inputs: map<K, seq<Basket<K>>>, v: K, node: K, scores': Table<K>,
                     kept': Table<K>, inputs': map<K, seq<Basket<K>>>)
    requires d != 0.0 && v in P && node !in P
    requires AllSettled(g, d, cap, P, done, scores, kept, inputs)
    requires forall u :: u in scores && u != node ==> u in scores' && scores'[u] == scores[u]
    requires node in kept' && node in inputs'
    requires kept' == kept[node := kept'[node]] && inputs' == inputs[node := inputs'[node]]
    ensures v in done && done[v] <= P && Settled(g, d, cap, done[v], scores', kept', inputs', v)
  {
    var before := done[v];
    assert Settled(g, d, cap, before, scores, kept, inputs, v);
    forall j | 0 <= j < |g[v]| ensures Fed(g, cap, before, scores', g[v][j], inputs'[v][j]) {
      assert Fed(g, cap, before, scores, g[v][j], inputs[v][j]);
    }
  }

  /**
   * The main loop: every node of the execution order computed in turn,
   * walking successors that have no basket yet.
   */
  method ComputeAll<K(!new)>(g: Graph<K>, d: real, cap: nat, iterations: nat, order: seq<K>,
                             ghost preds: map<K, seq<K>>, ghost seeds: set<K>,
                             index: map<K, nat>, coins: seq<bool>)
    returns (scores: Table<K>, ghost done: map<K, set<K>>, ghost kept: Table<K>,
             ghost inputs: map<K, seq<Basket<K>>>)
    requires Closed(g) && Emits(g, preds, order, g.Keys, seeds) && IndexOk(g, index)
    requires 0 < cap && 0 < iterations && 0.0 < d
    ensures scores.Keys == g.Keys && DoneAlong(order, done, |order|)
    ensures AllSettled(g, d, cap, g.Keys, done, scores, kept, inputs)
  {
    scores, done, kept, inputs := map[], map[], map[], map[];
    ghost var P: set<K> := {};
    var idx, draws := index, coins;
    for i := 0 to |order|
      invariant IndexOk(g, idx) && scores.Keys <= g.Keys && P <= scores.Keys
      invariant P == Nodes(order, 0, i) && DoneAlong(order, done, i)
      invariant AllSettled(g, d, cap, P, done, scores, kept, inputs)
      invariant WalkedOutside(g, cap, P, scores)
    {
      var node := order[i];
      EmitsAt(g, preds, order, g.Keys, seeds, i);
      ghost var table, ins, k;
      ghost var prior := scores;
      scores, idx, draws, table, ins, k := ComputeNode(g, d, cap, iterations, node, scores, idx, draws);
      SettleStep(g, d, cap, P, done, prior, kept, inputs, node, table, ins, k);
      DoneStep(order, done, i);
      P, done, kept, inputs := P + {node}, done[node := P], kept[node := k], inputs[node := ins];
    }
    EmitsLists(g, preds, order, g.Keys, seeds);
    ListsMeaning(order, g.Keys);
  }

  /** Recording the nodes before position i, which is not among them, keeps the earlier records. */
  lemma DoneStep<K>(order: seq<K>, done: map<K, set<K>>, i: nat)
    requires i < |order| && DoneAlong(order, done, i) && order[i] !in Nodes(order, 0, i)
    ensures DoneAlong(order, done[order[i] := Nodes(order, 0, i)], i + 1)
  {
    forall j | 0 <= j < i ensures order[j] != order[i] {
      NodesAt(order, 0, i, order[j]);
    }
  }

  /** Every key starts with round-robin index 0. */
  method InitIndex<K>(g: Graph<K>) returns (index: map<K, nat>)
    ensures index.Keys == g.Keys && forall v :: v in index ==> index[v] == 0
  {
    index := map[];
    var rest := g.Keys;
    while rest != {}
      invariant rest <= g.Keys && index.Keys == g.Keys - rest
      invariant forall v :: v in index ==> index[v] == 0
      decreases |rest|
    {
      var v :| v in rest;
      index := index[v := 0];
      rest := rest - {v};
    }
  }

  /**
   * A run of mccompletepathv2 on valid parameters: an execution order,
   * every node computed along it (table `scores`), then every basket cut
   * to its top `topK`.
   */
  ghost predicate IsMcRun<K(!new)>(g: Graph<K>, topK: nat, topL: nat, d: real, preds: map<K, seq<K>>,
                                   order: seq<K>, seeds: set<K>, done: map<K, set<K>>, scores: Table<K>,
                                   kept: Table<K>, inputs: map<K, seq<Basket<K>>>, result: Table<K>)
    requires d != 0.0
  {
    && Partitions.IsPredecessorIndex(g, preds)
    && Emits(g, preds, order, g.Keys, seeds)
    && DoneAlong(order, done, |order|)
    && scores.Keys == g.Keys
    && AllSettled(g, d, topL, g.Keys, done, scores, kept, inputs)
    && Grank.IsTrimmed(topK, scores, result)
  }

  /**
   * mccompletepathv2: the parameter checks of grank, then the execution
   * order, every node computed along it, and the final cut to the top K.
   * The continuation draws of the random walks come from `coins`.
   */
  method MonteCarloPpr<K(!new)>(g: Graph<K>, topK: nat, topL: nat, iterations: nat, d: real, coins: seq<bool>)
    returns (r: Result<Table<K>, K>, ghost preds: map<K, seq<K>>, ghost order: seq<K>, ghost seeds: set<K>,
             ghost done: map<K, set<K>>, ghost scores: Table<K>, ghost kept: Table<K>,
             ghost inputs: map<K, seq<Basket<K>>>)
    requires Closed(g) && d != 0.0
    ensures Grank.CheckParams<K>(topK, topL, iterations, d).Some? ==>
              r == Err(Grank.CheckParams<K>(topK, topL, iterations, d).value)
    ensures Grank.CheckParams<K>(topK, topL, iterations, d).None? ==>
              r.Ok? && IsMcRun(g, topK, topL, d, preds, order, seeds, done, scores, kept, inputs, r.value)
  {
    var check := Grank.CheckParams<K>(topK, topL, iterations, d);
    if check.Some? {
      return Err(check.value), map[], [], {}, map[], map[], map[], map[];
    }
    var index := InitIndex(g);
    var computeOrder;
    computeOrder, preds, seeds := ExecutionOrder(g);
    order := computeOrder;
    var computed;
    computed, done, kept, inputs := ComputeAll(g, d, topL, iterations, computeOrder, preds, seeds, index, coins);
    scores := computed;
    var result := Grank.FinalTrim(topK, computed);
    r := Ok(result);
  }

  // ---------------------------------------------------------------------
  // What a run promises
  // ---------------------------------------------------------------------

  /** No more walks run than were asked for, and all of them with damping 1. */
  lemma WalkCountBound(walks: nat, d: real)
    requires 0.0 <= d <= 1.0
    ensures WalkCount(walks, d) <= walks
    ensures d == 1.0 ==> WalkCount(walks, d) == walks
  {
    assert walks as real * d <= walks as real;
  }

  /** A dead end's computed basket is itself with weight 1. */
  lemma DeadEndSettled<K>(g: Graph<K>, d: real, cap: nat, before: set<K>, scores: Table<K>,
                          kept: Table<K>, inputs: map<K, seq<Basket<K>>>, v: K)
    requires d != 0.0 && 0 < cap
    requires Settled(g, d, cap, before, scores, kept, inputs, v) && g[v] == []
    ensures scores[v] == map[v := 1.0]
  {
    assert FoldSeq(Start(d, v, 0), inputs[v]) == map[v := 1.0];
    Baskets.TopOfSmall(cap, map[v := 1.0], kept[v]);
    assert Scaled(map[v := 1.0], 1.0).Keys == {v};
  }

  /** Every key gets a basket of at most K entries; a dead end gets itself with weight 1. */
  lemma McResultShape<K(!new)>(g: Graph<K>, topK: nat, topL: nat, d: real, preds: map<K, seq<K>>,
                               order: seq<K>, seeds: set<K>, done: map<K, set<K>>, scores: Table<K>,
                               kept: Table<K>, inputs: map<K, seq<Basket<K>>>, result: Table<K>)
    requires d != 0.0 && 0 < topK <= topL
    requires IsMcRun(g, topK, topL, d, preds, order, seeds, done, scores, kept, inputs, result)
    ensures result.Keys == g.Keys
    ensures forall v :: v in result ==> |result[v]| <= topK
    ensures forall v :: v in g && g[v] == [] ==> result[v] == map[v := 1.0]
  {
    forall v | v in g && g[v] == [] ensures result[v] == map[v := 1.0] {
      DeadEndSettled(g, d, topL, done[v], scores, kept, inputs, v);
      Baskets.TopOfSmall(topK, scores[v], result[v]);
    }
  }

  /**
   * A node the queue released (not a seed) folded in exactly the final
   * baskets of its successors: the walks only stand in for successors of
   * seeds.
   */
  lemma ReleasedUsesFinal<K(!new)>(g: Graph<K>, topK: nat, topL: nat, d: real, preds: map<K, seq<K>>,
                                   order: seq<K>, seeds: set<K>, done: map<K, set<K>>, scores: Table<K>,
                                   kept: Table<K>, inputs: map<K, seq<Basket<K>>>, result: Table<K>, v: K)
    requires d != 0.0
    requires IsMcRun(g, topK, topL, d, preds, order, seeds, done, scores, kept, inputs, result)
    requires v in g && v !in seeds
    ensures |inputs[v]| == |g[v]|
    ensures forall j :: 0 <= j < |g[v]| ==> inputs[v][j] == scores[g[v][j]]
    ensures Baskets.IsTopOf(topL, FoldSeq(Start(d, v, |g[v]|), inputs[v]), kept[v])
    ensures scores[v] == Scaled(kept[v], McFactor(d, |g[v]|))
  {
    EmitsLists(g, preds, order, g.Keys, seeds);
    ListsMeaning(order, g.Keys);
    NodesAt(order, 0, |order|, v);
    var i :| 0 <= i < |order| && order[i] == v;
    EmitsAt(g, preds, order, g.Keys, seeds, i);
    assert done[v] == Nodes(order, 0, i);
    assert Settled(g, d, topL, done[v], scores, kept, inputs, v);
    forall j | 0 <= j < |g[v]| ensures inputs[v][j] == scores[g[v][j]] {
      assert Fed(g, topL, done[v], scores, g[v][j], inputs[v][j]);
    }
  }

  /** The start basket plus one weight-1 entry for each of distinct new nodes. */
  lemma {:induction false} FoldUnits<K(!new)>(m: Basket<K>, succ: seq<K>, bs: seq<Basket<K>>)
    requires |bs| == |succ| && Distinct(succ)
    requires forall j :: 0 <= j < |succ| ==> succ[j] !in m && bs[j] == map[succ[j] := 1.0]
    ensures forall k :: k in FoldSeq(m, bs) <==> k in m || k in succ
    ensures forall k :: k in m ==> FoldSeq(m, bs)[k] == m[k]
    ensures forall k :: k in succ ==> FoldSeq(m, bs)[k] == 1.0
    decreases |bs|
  {
    if bs != [] {
      var n := |bs| - 1;
      var p, x := succ[..n], succ[n];
      var prev := FoldSeq(m, bs[..n]);
      FoldUnits(m, p, bs[..n]);
      forall j | 0 <= j < n ensures p[j] != x {
        assert p[j] == succ[j];
      }
      assert succ == p + [x];
      forall k ensures (k in FoldSeq(m, bs) <==> k in prev || k == x)
                    && (k in FoldSeq(m, bs) ==> FoldSeq(m, bs)[k] == Get(prev, k) + (if k == x then 1.0 else 0.0))
      {
        Grank.AddScaledGet(prev, bs[n], 1.0, k);
      }
    }
  }

  /** A sequence has at most as many elements as entries. */
  lemma {:induction false} ElemsSize<K>(s: seq<K>)
    ensures |Elems(s)| <= |s|
    decreases |s|
  {
    if s != [] {
      var n := |s| - 1;
      ElemsSize(s[..n]);
      assert Elems(s) == Elems(s[..n]) + {s[n]} by {
        assert s == s[..n] + [s[n]];
      }
    }
  }

  /**
   * The dead-end successors of a node fed it themselves at weight 1, whether
   * computed before it or walked.
   */
  lemma DeadEndInputs<K(!new)>(g: Graph<K>, topK: nat, topL: nat, d: real, preds: map<K, seq<K>>,
                               order: seq<K>, seeds: set<K>, done: map<K, set<K>>, scores: Table<K>,
                               kept: Table<K>, inputs: map<K, seq<Basket<K>>>, result: Table<K>, v: K)
    requires d != 0.0 && 0 < topL
    requires IsMcRun(g, topK, topL, d, preds, order, seeds, done, scores, kept, inputs, result)
    requires v in g
    requires forall s :: s in g[v] ==> s in g && g[s] == []
    ensures |inputs[v]| == |g[v]|
    ensures forall j :: 0 <= j < |g[v]| ==> inputs[v][j] == map[g[v][j] := 1.0]
    ensures Baskets.IsTopOf(topL, FoldSeq(Start(d, v, |g[v]|), inputs[v]), kept[v])
    ensures scores[v] == Scaled(kept[v], McFactor(d, |g[v]|))
  {
    assert Settled(g, d, topL, done[v], scores, kept, inputs, v);
    forall j | 0 <= j < |g[v]| ensures inputs[v][j] == map[g[v][j] := 1.0] {
      var s := g[v][j];
      assert Fed(g, topL, done[v], scores, s, inputs[v][j]);
      if s in done[v] {
        DeadEndSettled(g, d, topL, done[s], scores, kept, inputs, s);
      }
    }
  }

  /**
   * Folding distinct dead ends other than v into v's start basket, with
   * room for all of them, and scaling by the factor: v at weight 1, each
   * successor at d over the out-degree.
   */
  lemma FanOut<K(!new)>(d: real, cap: nat, v: K, succ: seq<K>, inputs: seq<Basket<K>>, kept: Basket<K>)
    requires d != 0.0 && v !in succ && Distinct(succ) && |succ| < cap && |inputs| == |succ|
    requires forall j :: 0 <= j < |succ| ==> inputs[j] == map[succ[j] := 1.0]
    requires Baskets.IsTopOf(cap, FoldSeq(Start(d, v, |succ|), inputs), kept)
    ensures Scaled(kept, McFactor(d, |succ|)).Keys == {v} + Elems(succ)
    ensures Scaled(kept, McFactor(d, |succ|))[v] == 1.0
    ensures forall s :: s in succ ==> Scaled(kept, McFactor(d, |succ|))[s] == d / (|succ| as real)
  {
    var start := Start(d, v, |succ|);
    FoldUnits(start, succ, inputs);
    var folded := FoldSeq(start, inputs);
    assert folded.Keys == {v} + Elems(succ);
    assert |folded| <= cap by {
      ElemsSize(succ);
    }
    Baskets.TopOfSmall(cap, folded, kept);
    FanScale(d, v, succ, kept);
  }

  /** Scaling a fan basket by the factor of its centre. */
  lemma FanScale<K>(d: real, v: K, succ: seq<K>, m: Basket<K>)
    requires d != 0.0 && m.Keys == {v} + Elems(succ) && v !in succ
    requires m[v] == 1.0 / McFactor(d, |succ|)
    requires forall s :: s in succ ==> m[s] == 1.0
    ensures Scaled(m, McFactor(d, |succ|)).Keys == {v} + Elems(succ)
    ensures Scaled(m, McFactor(d, |succ|))[v] == 1.0
    ensures forall s :: s in succ ==> Scaled(m, McFactor(d, |succ|))[s] == d / (|succ| as real)
  {
    var f := McFactor(d, |succ|);
    assert (1.0 / f) * f == 1.0;
  }

  /**
   * A node whose successors are distinct dead ends other than itself, with room for all of them, keeps itself at weight 1 and gives
   * each successor d divided by its out-degree: with one successor the
   * leaf of a star, with several the centre of a reversed star.
   */
  lemma OverDeadEnds<K(!new)>(g: Graph<K>, topK: nat, topL: nat, d: real, preds: map<K, seq<K>>,
                              order: seq<K>, seeds: set<K>, done: map<K, set<K>>, scores: Table<K>,
                              kept: Table<K>, inputs: map<K, seq<Basket<K>>>, result: Table<K>, v: K)
    requires d != 0.0 && 0 < topK <= topL
    requires IsMcRun(g, topK, topL, d, preds, order, seeds, done, scores, kept, inputs, result)
    requires v in g && v !in g[v] && Distinct(g[v]) && |g[v]| < topK
    requires forall s :: s in g[v] ==> s in g && g[s] == []
    ensures result[v].Keys == {v} + Elems(g[v])
    ensures result[v][v] == 1.0
    ensures forall s :: s in g[v] ==> result[v][s] == d / (|g[v]| as real)
  {
    DeadEndInputs(g, topK, topL, d, preds, order, seeds, done, scores, kept, inputs, result, v);
    FanOut(d, topL, v, g[v], inputs[v], kept[v]);
    assert |scores[v]| <= topK by {
      ElemsSize(g[v]);
    }
    Baskets.TopOfSmall(topK, scores[v], result[v]);
  }
}
