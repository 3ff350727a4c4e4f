/**
 * The breadth-first bipartitioner: a predecessor index, then a BFS over the
 * undirected view of the graph that puts every node discovered from `next`
 * into the set not holding `next`; each unvisited graph key met by the
 * outer loop seeds the first set.
 */
module Partitions {
  import opened Common

  /** Number of parallel edges p -> v. */
  ghost function EdgeCount<K(!new)>(g: Graph<K>, p: K, v: K): nat
  {
    if p in g then multiset(g[p])[v] else 0
  }

  /** The predecessor list of v, empty when v has no entry. */
  function PredsOf<K(!new)>(preds: map<K, seq<K>>, v: K): seq<K>
  {
    if v in preds then preds[v] else []
  }

  /**
   * The predecessor index: one entry per graph key, listing each
   * predecessor once per parallel edge (in some order).
   */
  ghost predicate IsPredecessorIndex<K(!new)>(g: Graph<K>, preds: map<K, seq<K>>)
  {
    && preds.Keys == g.Keys
    && forall v, p :: multiset(PredsOf(preds, v))[p] == EdgeCount(g, p, v)
  }

  /**
   * Builds the predecessor index: an entry for every key, then one append
   * of `node` to the list of each of its successors per edge.
   */
  method Predecessors<K(!new)>(g: Graph<K>) returns (preds: map<K, seq<K>>)
    requires Closed(g)
    ensures IsPredecessorIndex(g, preds)
  {
    preds := map[];
    var rest := g.Keys;
    while rest != {}
      invariant rest <= g.Keys
      invariant preds.Keys <= g.Keys
      invariant g.Keys - rest <= preds.Keys
      invariant forall v, p :: multiset(PredsOf(preds, v))[p]
                              == (if p in rest then 0 else EdgeCount(g, p, v))
      decreases |rest|
    {
      var node :| node in rest;
      if node !in preds {
        preds := preds[node := []];
      }
      ghost var before := preds;
      preds := AppendPredecessor(preds, node, g[node]);
      AppendAllKeys(before, node, g[node]);
      forall v, p ensures multiset(PredsOf(preds, v))[p]
                          == multiset(PredsOf(before, v))[p]
                             + (if p == node then multiset(g[node])[v] else 0)
      {
        AppendAllCount(before, node, g[node], v, p);
      }
      rest := rest - {node};
    }
  }

  /** `preds` after appending `node` to the list of each element of `succ`, in order. */
  ghost function AppendAll<K(!new)>(preds: map<K, seq<K>>, node: K, succ: seq<K>): map<K, seq<K>>
    decreases |succ|
  {
    if succ == [] then preds
    else
      var before := AppendAll(preds, node, succ[..|succ| - 1]);
      var v := succ[|succ| - 1];
      before[v := PredsOf(before, v) + [node]]
  }

  /** Appending creates exactly the entries of the successors. */
  lemma {:induction false} AppendAllKeys<K(!new)>(preds: map<K, seq<K>>, node: K, succ: seq<K>)
    ensures AppendAll(preds, node, succ).Keys == preds.Keys + Elems(succ)
    decreases |succ|
  {
    if succ != [] {
      var init := succ[..|succ| - 1];
      AppendAllKeys(preds, node, init);
      assert succ == init + [succ[|succ| - 1]];
      assert Elems(succ) == Elems(init) + {succ[|succ| - 1]};
    }
  }

  /** Appending adds one `node` to v's list per occurrence of v in `succ`. */
  lemma {:induction false} AppendAllCount<K(!new)>(preds: map<K, seq<K>>, node: K, succ: seq<K>, v: K, p: K)
    ensures multiset(PredsOf(AppendAll(preds, node, succ), v))[p]
            == multiset(PredsOf(preds, v))[p] + (if p == node then multiset(succ)[v] else 0)
    decreases |succ|
  {
    if succ != [] {
      var init, last := succ[..|succ| - 1], succ[|succ| - 1];
      var before := AppendAll(preds, node, init);
      AppendAllCount(preds, node, init, v, p);
      assert succ == init + [last];
      assert multiset(succ)[v] == multiset(init)[v] + (if v == last then 1 else 0);
      if v == last {
        assert PredsOf(AppendAll(preds, node, succ), v) == PredsOf(before, v) + [node];
        assert multiset(PredsOf(before, v) + [node]) == multiset(PredsOf(before, v)) + multiset{node};
      } else {
        assert PredsOf(AppendAll(preds, node, succ), v) == PredsOf(before, v);
      }
    }
  }

  /** Appends `node` to the predecessor list of each element of `succ`. */
  method AppendPredecessor<K(!new)>(preds: map<K, seq<K>>, node: K, succ: seq<K>)
    returns (preds': map<K, seq<K>>)
    ensures preds' == AppendAll(preds, node, succ)
  {
    preds' := preds;
    for i := 0 to |succ|
      invariant preds' == AppendAll(preds, node, succ[..i])
    {
      var v := succ[i];
      assert succ[..i + 1][..i] == succ[..i];
      preds' := preds'[v := PredsOf(preds', v) + [node]];
    }
    assert succ[..|succ|] == succ;
  }

  /** A predecessor listed in the index is the source of an edge. */
  lemma PredecessorIsEdge<K(!new)>(g: Graph<K>, preds: map<K, seq<K>>, v: K, p: K)
    requires IsPredecessorIndex(g, preds)
    requires v in preds && p in preds[v]
    ensures Edge(g, p, v)
  {
    assert multiset(PredsOf(preds, v))[p] > 0;
  }

  /** Every source of an edge into v is listed in v's entry. */
  lemma EdgeIsPredecessor<K(!new)>(g: Graph<K>, preds: map<K, seq<K>>, v: K, p: K)
    requires IsPredecessorIndex(g, preds)
    requires Edge(g, p, v)
    ensures v in preds && p in preds[v]
  {
    assert EdgeCount(g, p, v) > 0;
    assert multiset(PredsOf(preds, v))[p] > 0;
  }

  // ---------------------------------------------------------------------
  // The BFS
  // ---------------------------------------------------------------------

  /**
   * The outcome of the traversal. `seeds` are the nodes the outer loop
   * found unvisited; `parent` maps every other node to the node whose
   * processing discovered it; `depth` is the number of discoveries from
   * the seed and `root` the seed the node was reached from.
   *  - the two sets split the graph's keys;
   *  - seeds are in the first set, the graph has a seed if it has a node;
   *  - a discovered node is adjacent to its parent and lies in the set not
   *    holding it;
   *  - every neighbour of a seed, other than the seed itself, lies in the
   *    second set (a seed is processed before anything else of its
   *    component);
   *  - a seed is at depth 0 and is its own root, a discovered node one
   *    deeper than its parent with the same root, and the first set holds
   *    exactly the nodes at even depth;
   *  - adjacent nodes share their root and their depths differ by at most
   *    one: the depth is the breadth-first distance from the one seed of
   *    the component.
   */
  ghost predicate IsBfsPartition<K(!new)>(g: Graph<K>, first: set<K>, second: set<K>,
                                    seeds: set<K>, parent: map<K, K>, depth: map<K, nat>, root: map<K, K>)
  {
    && first + second == g.Keys
    && first !! second
    && seeds <= first
    && (g.Keys != {} ==> seeds != {})
    && parent.Keys == g.Keys - seeds
    && (forall v :: v in parent ==>
          Adjacent(g, parent[v], v) && (parent[v] in first <==> v in second))
    && (forall s, u :: s in seeds && Adjacent(g, s, u) && u != s ==> u in second)
    && depth.Keys == g.Keys && root.Keys == g.Keys
    && (forall s :: s in seeds ==> depth[s] == 0 && root[s] == s)
    && (forall v :: v in parent ==>
          parent[v] in g && depth[v] == depth[parent[v]] + 1 && root[v] == root[parent[v]])
    && (forall v :: v in g ==> (v in first <==> depth[v] % 2 == 0))
    && (forall u, w :: u in g && w in g && Adjacent(g, u, w) ==> root[u] == root[w] && depth[u] <= depth[w] + 1)
  }

  /**
   * The layering at the head of the queue-draining loop: depths and roots
   * as in IsBfsPartition for the visited nodes, the queue ordered by depth
   * within one level of its front and all from one root.
   */
  ghost predicate BfsLayers<K(!new)>(g: Graph<K>, visited: set<K>, first: set<K>, queue: seq<K>,
                                     seeds: set<K>, parent: map<K, K>, depth: map<K, nat>, root: map<K, K>)
  {
    && LayerLabels(visited, first, seeds, parent, depth, root)
    && LayerQueue(queue, depth, root)
    && LayerAdjacent(g, visited, depth, root)
  }

  /** Seeds at depth 0 and their own root, each discovered node one below its parent, parity by set. */
  ghost predicate LayerLabels<K>(visited: set<K>, first: set<K>, seeds: set<K>, parent: map<K, K>,
                                 depth: map<K, nat>, root: map<K, K>)
  {
    && depth.Keys == visited && root.Keys == visited
    && seeds <= visited && parent.Keys <= visited
    && (forall s :: s in seeds ==> depth[s] == 0 && root[s] == s)
    && (forall v :: v in parent ==>
          parent[v] in visited && depth[v] == depth[parent[v]] + 1 && root[v] == root[parent[v]])
    && (forall v :: v in visited ==> (v in first <==> depth[v] % 2 == 0))
  }

  /** The queue is ordered by depth, within one level of its front, and from one root. */
  ghost predicate LayerQueue<K>(queue: seq<K>, depth: map<K, nat>, root: map<K, K>)
  {
    forall i, j :: 0 <= i <= j < |queue| ==>
      && queue[i] in depth && queue[j] in depth && depth[queue[i]] <= depth[queue[j]] <= depth[queue[i]] + 1
      && queue[i] in root && queue[j] in root && root[queue[j]] == root[queue[i]]
  }

  /** Adjacent visited nodes share their root and lie within one level. */
  ghost predicate LayerAdjacent<K>(g: Graph<K>, visited: set<K>, depth: map<K, nat>, root: map<K, K>)
  {
    forall u, w :: u in visited && w in visited && Adjacent(g, u, w) ==>
      && u in depth && w in depth && u in root && w in root
      && root[u] == root[w] && depth[u] <= depth[w] + 1
  }

  /** The state of the traversal at the head of the queue-draining loop. */
  ghost predicate BfsInv<K(!new)>(g: Graph<K>, visited: set<K>, first: set<K>, second: set<K>,
                            queue: seq<K>, seeds: set<K>, parent: map<K, K>)
  {
    && BfsSets(g, visited, first, second, queue)
    && BfsParents(g, visited, first, second, seeds, parent)
    && BfsSeeds(g, visited, second, queue, seeds)
  }

  /** The two sets split the visited nodes; taken-off nodes are closed. */
  ghost predicate BfsSets<K(!new)>(g: Graph<K>, visited: set<K>, first: set<K>, second: set<K>,
                                   queue: seq<K>)
  {
    && visited == first + second
    && first !! second
    && visited <= g.Keys
    && (forall x :: x in queue ==> x in visited)
    // nodes already taken off the queue have all their neighbours visited
    && (forall u, w :: u in visited && u !in queue && Adjacent(g, u, w) ==> w in visited)
  }

  /** Every visited node is a seed or was discovered from the other set. */
  ghost predicate BfsParents<K(!new)>(g: Graph<K>, visited: set<K>, first: set<K>, second: set<K>,
                                      seeds: set<K>, parent: map<K, K>)
  {
    && seeds <= first
    && (visited != {} ==> seeds != {})
    && parent.Keys == visited - seeds
    && (forall v :: v in parent ==>
          && parent[v] in visited
          && Adjacent(g, parent[v], v)
          && (parent[v] in first <==> v in second))
  }

  /**
   * A seed still queued is alone in the queue and has no visited neighbour;
   * the neighbours of a processed seed are in the second set.
   */
  ghost predicate BfsSeeds<K(!new)>(g: Graph<K>, visited: set<K>, second: set<K>,
                                    queue: seq<K>, seeds: set<K>)
  {
    && (forall s :: s in seeds && s in queue ==> queue == [s])
    && (forall s, u :: s in seeds && s in queue && Adjacent(g, s, u) && u != s ==> u !in visited)
    && (forall s, u :: s in seeds && s !in queue && Adjacent(g, s, u) && u != s ==> u in second)
  }

  /**
   * Marks every unvisited node of `cands` as visited, adds it to the first
   * set when `toFirst` and to the second otherwise, and queues it. `found`
   * is the set of nodes so discovered and `pushed` the order in which they
   * were queued.
   */
  method Discover<K(!new)>(cands: seq<K>, toFirst: bool,
                     visited: set<K>, first: set<K>, second: set<K>, queue: seq<K>)
    returns (visited': set<K>, first': set<K>, second': set<K>, queue': seq<K>,
             ghost found: set<K>, ghost pushed: seq<K>)
    ensures found == Elems(cands) - visited
    ensures visited' == visited + found
    ensures toFirst ==> first' == first + found && second' == second
    ensures !toFirst ==> first' == first && second' == second + found
    ensures queue' == queue + pushed && forall x :: x in pushed <==> x in found
    ensures pushed == [] <==> found == {}
  {
    visited', first', second', queue' := visited, first, second, queue;
    found, pushed := {}, [];
    for i := 0 to |cands|
      invariant found == Elems(cands[..i]) - visited
      invariant visited' == visited + found
      invariant toFirst ==> first' == first + found && second' == second
      invariant !toFirst ==> first' == first && second' == second + found
      invariant queue' == queue + pushed && forall x :: x in pushed <==> x in found
      invariant pushed == [] <==> found == {}
    {
      var w := cands[i];
      assert Elems(cands[..i + 1]) == Elems(cands[..i]) + {w} by {
        assert cands[..i + 1] == cands[..i] + [w];
      }
      if w !in visited' {
        visited' := visited' + {w};
        queue' := queue' + [w];
        if toFirst {
          first' := first' + {w};
        } else {
          second' := second' + {w};
        }
        found, pushed := found + {w}, pushed + [w];
      }
    }
    assert cands[..|cands|] == cands;
  }

  /** Removing at least one element shrinks a set. */
  lemma ProperSubsetSmaller<K(!new)>(a: set<K>, b: set<K>)
    requires a <= b && a != b
    ensures |a| < |b|
  {
    var x :| x in b && x !in a;
    assert a <= b - {x};
    assert b == (b - {x}) + {x};
    assert |a| <= |b - {x}| by {
      assert b - {x} == a + (b - {x} - a);
    }
  }

  /**
   * findPartitions: a BFS over successor and predecessor edges; returns
   * the two sets, with the seeds and discovery parents as ghost witnesses.
   */
  method FindPartitions<K(!new)>(g: Graph<K>)
    returns (first: set<K>, second: set<K>, ghost seeds: set<K>, ghost parent: map<K, K>,
             ghost depth: map<K, nat>, ghost root: map<K, K>)
    requires Closed(g)
    ensures IsBfsPartition(g, first, second, seeds, parent, depth, root)
  {
    var preds := Predecessors(g);
    first, second := {}, {};
    seeds, parent, depth, root := {}, map[], map[], map[];
    var queue: seq<K> := [];
    var visited: set<K> := {};
    var rest := g.Keys;
    while rest != {}
      invariant rest <= g.Keys
      invariant g.Keys - rest <= visited
      invariant BfsInv(g, visited, first, second, [], seeds, parent)
      invariant BfsLayers(g, visited, first, [], seeds, parent, depth, root)
      invariant queue == []
      invariant Closed(g) && IsPredecessorIndex(g, preds)
      decreases |rest|
    {
      var key :| key in rest;
      if key !in visited {
        SeedPreserves(g, visited, first, second, seeds, parent, key);
        SeedLayers(g, visited, first, second, seeds, parent, depth, root, key);
        visited := visited + {key};
        queue := [key];
        first := first + {key};
        seeds := seeds + {key};
        depth, root := depth[key := 0], root[key := key];
      }
      visited, first, second, parent, depth, root :=
        DrainQueue(g, preds, visited, first, second, queue, seeds, parent, depth, root);
      queue := [];
      rest := rest - {key};
    }
    Finished(g, visited, first, second, seeds, parent, depth, root);
  }

  /**
   * The inner loop of the traversal: takes nodes off the queue front and
   * discovers their unvisited successors and predecessors until the queue
   * is empty.
   */
  method DrainQueue<K(!new)>(g: Graph<K>, preds: map<K, seq<K>>, visited: set<K>, first: set<K>,
                             second: set<K>, start: seq<K>, ghost seeds: set<K>, ghost parent: map<K, K>,
                             ghost depth: map<K, nat>, ghost root: map<K, K>)
    returns (visited': set<K>, first': set<K>, second': set<K>, ghost parent': map<K, K>,
             ghost depth': map<K, nat>, ghost root': map<K, K>)
    requires Closed(g) && IsPredecessorIndex(g, preds)
    requires BfsInv(g, visited, first, second, start, seeds, parent)
    requires BfsLayers(g, visited, first, start, seeds, parent, depth, root)
    ensures BfsInv(g, visited', first', second', [], seeds, parent')
    ensures BfsLayers(g, visited', first', [], seeds, parent', depth', root')
    ensures visited <= visited'
  {
    visited', first', second', parent', depth', root' := visited, first, second, parent, depth, root;
    var queue := start;
    while queue != []
      invariant BfsInv(g, visited', first', second', queue, seeds, parent')
      invariant BfsLayers(g, visited', first', queue, seeds, parent', depth', root')
      invariant visited <= visited'
      decreases |g.Keys - visited'|, |queue|
    {
      var next := queue[0];
      assert next in depth' && next in root';
      ghost var visited0, first0, second0, queue0, parent0 := visited', first', second', queue, parent';
      ghost var depth0, root0 := depth', root';
      queue := queue[1..];
      var toFirst := next !in first';
      ghost var found1, pushed1, found2, pushed2;
      visited', first', second', queue, found1, pushed1 :=
        Discover(g[next], toFirst, visited', first', second', queue);
      visited', first', second', queue, found2, pushed2 :=
        Discover(PredsOf(preds, next), toFirst, visited', first', second', queue);
      parent' := parent' + (map w | w in found1 + found2 :: next);
      depth' := depth' + (map w | w in found1 + found2 :: depth'[next] + 1);
      root' := root' + (map w | w in found1 + found2 :: root'[next]);
      Relabel(next, found1 + found2, depth0, root0, depth', root');
      DrainPreserves(g, preds, next, toFirst, visited0, first0, second0, queue0, parent0,
                     found1, pushed1, found2, pushed2, visited', first', second', queue, parent', seeds);
      DrainLayers(g, next, toFirst, visited0, first0, second0, queue0, parent0, depth0, root0,
                  found1, pushed1, found2, pushed2, visited', first', second', queue, parent', depth', root', seeds);
    }
  }

  /** Once every key is visited and the queue is empty the traversal's outcome is reached. */
  lemma Finished<K(!new)>(g: Graph<K>, visited: set<K>, first: set<K>, second: set<K>,
                          seeds: set<K>, parent: map<K, K>, depth: map<K, nat>, root: map<K, K>)
    requires BfsInv(g, visited, first, second, [], seeds, parent)
    requires BfsLayers(g, visited, first, [], seeds, parent, depth, root)
    requires visited == g.Keys
    ensures IsBfsPartition(g, first, second, seeds, parent, depth, root)
  {
    assert LayerLabels(visited, first, seeds, parent, depth, root);
    assert LayerAdjacent(g, visited, depth, root);
  }

  /** Seeding an unvisited key at depth 0 as its own root keeps the layering. */
  lemma SeedLayers<K(!new)>(g: Graph<K>, visited: set<K>, first: set<K>, second: set<K>,
                            seeds: set<K>, parent: map<K, K>, depth: map<K, nat>, root: map<K, K>, key: K)
    requires BfsSets(g, visited, first, second, [])
    requires BfsLayers(g, visited, first, [], seeds, parent, depth, root)
    requires key in g && key !in visited
    ensures BfsLayers(g, visited + {key}, first + {key}, [key], seeds + {key}, parent,
                      depth[key := 0], root[key := key])
  {
    var visited', depth', root' := visited + {key}, depth[key := 0], root[key := key];
    SeedLabels(visited, first, seeds, parent, depth, root, key);
    assert LayerAdjacent(g, visited', depth', root') by {
      assert LayerAdjacent(g, visited, depth, root);
      forall u, w | u in visited' && w in visited' && Adjacent(g, u, w)
        ensures root'[u] == root'[w] && depth'[u] <= depth'[w] + 1
      {
        if u == key && w != key {
          assert w !in [] && Adjacent(g, w, u);
        }
      }
    }
  }

  /** A fresh seed at depth 0, its own root, in the first set. */
  lemma SeedLabels<K>(visited: set<K>, first: set<K>, seeds: set<K>, parent: map<K, K>,
                      depth: map<K, nat>, root: map<K, K>, key: K)
    requires LayerLabels(visited, first, seeds, parent, depth, root) && key !in visited
    ensures LayerLabels(visited + {key}, first + {key}, seeds + {key}, parent, depth[key := 0], root[key := key])
  {
    forall v | v in parent
      ensures depth[key := 0][v] == depth[key := 0][parent[v]] + 1 && root[key := key][v] == root[key := key][parent[v]]
    {
      assert v in visited && parent[v] in visited;
    }
  }

  /**
   * One draining step gives the nodes it discovers the depth after that of
   * `next` and its root: the queue stays ordered, and a discovered node's
   * visited neighbours are still queued, hence within one level of it.
   */
  lemma DrainLayers<K(!new)>(g: Graph<K>, next: K, toFirst: bool,
                             visited0: set<K>, first0: set<K>, second0: set<K>,
                             queue0: seq<K>, parent0: map<K, K>, depth0: map<K, nat>, root0: map<K, K>,
                             found1: set<K>, pushed1: seq<K>, found2: set<K>, pushed2: seq<K>,
                             visited: set<K>, first: set<K>, second: set<K>,
                             queue: seq<K>, parent: map<K, K>, depth: map<K, nat>, root: map<K, K>, seeds: set<K>)
    requires BfsSets(g, visited0, first0, second0, queue0)
    requires BfsLayers(g, visited0, first0, queue0, seeds, parent0, depth0, root0)
    requires StepFacts(g, next, toFirst, visited0, first0, second0, queue0, parent0, found1 + found2,
                       visited, first, second, queue, parent)
    requires queue == queue0[1..] + pushed1 + pushed2
    requires (forall x :: x in pushed1 ==> x in found1) && (forall x :: x in pushed2 ==> x in found2)
    requires next in depth0 && next in root0
    requires Relabelled(found1 + found2, depth0, root0, depth, root, depth0[next], root0[next])
    ensures BfsLayers(g, visited, first, queue, seeds, parent, depth, root)
  {
    var pushed := pushed1 + pushed2;
    QueueConcat(queue0[1..], pushed1, pushed2);
    StepLayers(g, next, toFirst, visited0, first0, second0, queue0, parent0, depth0, root0, found1 + found2,
               pushed, visited, first, second, queue, parent, depth, root, seeds, depth0[next], root0[next]);
  }

  /** Queueing two batches in turn queues their concatenation. */
  lemma QueueConcat<K>(rest: seq<K>, pushed1: seq<K>, pushed2: seq<K>)
    ensures rest + pushed1 + pushed2 == rest + (pushed1 + pushed2)
  {
  }

  /** The discovered nodes get depth dn + 1 and root rn; the other nodes keep theirs. */
  ghost predicate Relabelled<K>(found: set<K>, depth0: map<K, nat>, root0: map<K, K>,
                                depth: map<K, nat>, root: map<K, K>, dn: nat, rn: K)
  {
    && depth.Keys == depth0.Keys + found && root.Keys == root0.Keys + found
    && (forall x :: x in found ==> depth[x] == dn + 1 && root[x] == rn)
    && (forall x :: x in depth0 && x !in found ==> depth[x] == depth0[x])
    && (forall x :: x in root0 && x !in found ==> root[x] == root0[x])
  }

  lemma Relabel<K>(next: K, found: set<K>, depth0: map<K, nat>, root0: map<K, K>,
                   depth: map<K, nat>, root: map<K, K>)
    requires next in depth0 && next in root0
    requires depth == depth0 + (map w | w in found :: depth0[next] + 1)
    requires root == root0 + (map w | w in found :: root0[next])
    ensures Relabelled(found, depth0, root0, depth, root, depth0[next], root0[next])
  {
  }

  /** The layering after a draining step, in terms of the nodes it discovered. */
  lemma StepLayers<K(!new)>(g: Graph<K>, next: K, toFirst: bool,
                            visited0: set<K>, first0: set<K>, second0: set<K>,
                            queue0: seq<K>, parent0: map<K, K>, depth0: map<K, nat>, root0: map<K, K>,
                            found: set<K>, pushed: seq<K>, visited: set<K>, first: set<K>, second: set<K>,
                            queue: seq<K>, parent: map<K, K>, depth: map<K, nat>, root: map<K, K>,
                            seeds: set<K>, dn: nat, rn: K)
    requires BfsSets(g, visited0, first0, second0, queue0)
    requires BfsLayers(g, visited0, first0, queue0, seeds, parent0, depth0, root0)
    requires StepFacts(g, next, toFirst, visited0, first0, second0, queue0, parent0, found,
                       visited, first, second, queue, parent)
    requires queue == queue0[1..] + pushed && forall x :: x in pushed ==> x in found
    requires dn == depth0[next] && rn == root0[next]
    requires Relabelled(found, depth0, root0, depth, root, dn, rn)
    ensures BfsLayers(g, visited, first, queue, seeds, parent, depth, root)
  {
    assert next in visited0;
    assert Discovery(next, toFirst, visited0, first0, second0, parent0, found, visited, first, second, parent);
    StepLabels(next, toFirst, visited0, first0, second0, parent0, depth0, root0, found,
               visited, first, second, parent, depth, root, seeds, dn, rn);
    forall k | 0 <= k < |queue0| ensures queue0[k] in depth && dn <= depth[queue0[k]] <= dn + 1
                                       && queue0[k] in root && root[queue0[k]] == rn {
      assert queue0[k] in visited0 && queue0[0] == next;
      assert queue0[k] !in found;
    }
    forall i, j | 0 <= i <= j < |queue0| ensures depth[queue0[i]] <= depth[queue0[j]] {
      assert queue0[i] !in found && queue0[j] !in found;
    }
    DrainLayersQueue(queue0, queue, pushed, found, depth, root, dn, rn);
    StepAdjacent(g, next, toFirst, visited0, first0, second0, queue0, parent0, depth0, root0, found,
                 visited, first, second, queue, parent, depth, root, seeds, dn, rn);
  }

  /**
   * What a step does to the labels: the nodes `found`, none of them
   * visited before, are visited, put in the set not holding `next` and
   * given `next` as parent.
   */
  ghost predicate Discovery<K>(next: K, toFirst: bool, visited0: set<K>, first0: set<K>, second0: set<K>,
                               parent0: map<K, K>, found: set<K>,
                               visited: set<K>, first: set<K>, second: set<K>, parent: map<K, K>)
  {
    && toFirst == (next !in first0)
    && found !! visited0 && visited == visited0 + found
    && (toFirst ==> first == first0 + found && second == second0)
    && (!toFirst ==> first == first0 && second == second0 + found)
    && parent == parent0 + (map w | w in found :: next)
  }

  /** After a step the seeds, the parents and the parity still match the depths and roots. */
  lemma StepLabels<K>(next: K, toFirst: bool, visited0: set<K>, first0: set<K>, second0: set<K>,
                      parent0: map<K, K>, depth0: map<K, nat>, root0: map<K, K>,
                      found: set<K>, visited: set<K>, first: set<K>, second: set<K>,
                      parent: map<K, K>, depth: map<K, nat>, root: map<K, K>,
                      seeds: set<K>, dn: nat, rn: K)
    requires LayerLabels(visited0, first0, seeds, parent0, depth0, root0) && first0 <= visited0
    requires Discovery(next, toFirst, visited0, first0, second0, parent0, found, visited, first, second, parent)
    requires next in visited0 && dn == depth0[next] && rn == root0[next]
    requires Relabelled(found, depth0, root0, depth, root, dn, rn)
    ensures LayerLabels(visited, first, seeds, parent, depth, root)
  {
    assert next in first0 <==> dn % 2 == 0;
    forall v | v in visited ensures v in first <==> depth[v] % 2 == 0 {
      if v in found {
        assert depth[v] == dn + 1 && v !in first0;
      } else {
        assert v in visited0 && depth[v] == depth0[v];
      }
    }
    forall v | v in parent
      ensures parent[v] in visited && depth[v] == depth[parent[v]] + 1 && root[v] == root[parent[v]]
    {
      if v in found {
        assert (map w | w in found :: next)[v] == next;
        assert parent[v] == next;
      } else {
        assert v in parent0 && parent[v] == parent0[v];
      }
    }
  }

  /** After a step adjacent visited nodes still share their root and lie within one level. */
  lemma StepAdjacent<K(!new)>(g: Graph<K>, next: K, toFirst: bool,
                              visited0: set<K>, first0: set<K>, second0: set<K>,
                              queue0: seq<K>, parent0: map<K, K>, depth0: map<K, nat>, root0: map<K, K>,
                              found: set<K>, visited: set<K>, first: set<K>, second: set<K>,
                              queue: seq<K>, parent: map<K, K>, depth: map<K, nat>, root: map<K, K>,
                              seeds: set<K>, dn: nat, rn: K)
    requires BfsSets(g, visited0, first0, second0, queue0)
    requires depth0.Keys == visited0 && root0.Keys == visited0
    requires LayerQueue(queue0, depth0, root0) && LayerAdjacent(g, visited0, depth0, root0)
    requires StepFacts(g, next, toFirst, visited0, first0, second0, queue0, parent0, found,
                       visited, first, second, queue, parent)
    requires dn == depth0[next] && rn == root0[next]
    requires Relabelled(found, depth0, root0, depth, root, dn, rn)
    ensures LayerAdjacent(g, visited, depth, root)
  {
    forall u, w | u in visited && w in visited && Adjacent(g, u, w)
      ensures root[u] == root[w] && depth[u] <= depth[w] + 1
    {
      if u in found && w !in found {
        DiscoveredNeighbour(g, visited0, first0, second0, queue0, found, u, w);
        var k :| 0 <= k < |queue0| && queue0[k] == w;
        assert queue0[0] == next;
      } else if w in found && u !in found {
        DiscoveredNeighbour(g, visited0, first0, second0, queue0, found, w, u);
        var k :| 0 <= k < |queue0| && queue0[k] == u;
        assert queue0[0] == next;
      }
    }
  }

  /** A visited neighbour of a newly discovered node is still queued. */
  lemma DiscoveredNeighbour<K(!new)>(g: Graph<K>, visited0: set<K>, first0: set<K>, second0: set<K>,
                                     queue0: seq<K>, found: set<K>, x: K, y: K)
    requires BfsSets(g, visited0, first0, second0, queue0)
    requires found !! visited0 && x in found && y in visited0 && Adjacent(g, x, y)
    ensures exists k :: 0 <= k < |queue0| && queue0[k] == y
  {
    assert Adjacent(g, y, x);
    assert y in queue0;
  }

  /**
   * Dropping the front of a queue ordered within one level of depth dn,
   * all from root rn, and appending nodes at depth dn + 1 from rn keeps it
   * ordered within one level and from the one root.
   */
  lemma DrainLayersQueue<K>(queue0: seq<K>, queue: seq<K>, pushed: seq<K>, found: set<K>,
                            depth: map<K, nat>, root: map<K, K>, dn: nat, rn: K)
    requires queue0 != [] && queue == queue0[1..] + pushed
    requires forall x :: x in pushed ==> x in found
    requires forall x :: x in found ==> x in depth && depth[x] == dn + 1 && x in root && root[x] == rn
    requires forall k :: 0 <= k < |queue0| ==>
               queue0[k] in depth && dn <= depth[queue0[k]] <= dn + 1 && queue0[k] in root && root[queue0[k]] == rn
    requires forall i, j :: 0 <= i <= j < |queue0| ==> depth[queue0[i]] <= depth[queue0[j]]
    ensures LayerQueue(queue, depth, root)
  {
    var n := |queue0| - 1;
    forall i, j | 0 <= i <= j < |queue|
      ensures queue[i] in depth && queue[j] in depth && depth[queue[i]] <= depth[queue[j]] <= depth[queue[i]] + 1
      ensures queue[i] in root && queue[j] in root && root[queue[j]] == root[queue[i]]
    {
      if j < n {
        assert queue[i] == queue0[i + 1] && queue[j] == queue0[j + 1];
      } else if i < n {
        assert queue[i] == queue0[i + 1] && queue[j] == pushed[j - n];
      } else {
        assert queue[i] == pushed[i - n] && queue[j] == pushed[j - n];
      }
    }
  }

  /** Seeding an unvisited key while the queue is empty keeps the invariant. */
  lemma SeedPreserves<K(!new)>(g: Graph<K>, visited: set<K>, first: set<K>, second: set<K>,
                         seeds: set<K>, parent: map<K, K>, key: K)
    requires BfsInv(g, visited, first, second, [], seeds, parent)
    requires key in g && key !in visited
    ensures BfsInv(g, visited + {key}, first + {key}, second, [key], seeds + {key}, parent)
  {
    var v1, q1, s1 := visited + {key}, [key], seeds + {key};
    forall u, w | u in v1 && u !in q1 && Adjacent(g, u, w) ensures w in v1 {
      assert u in visited && u !in [];
    }
    forall s, u | s in s1 && s in q1 && Adjacent(g, s, u) && u != s ensures u !in v1 {
      assert s == key;
      if u in visited {
        assert u !in [] && Adjacent(g, u, key);
      }
    }
    forall s, u | s in s1 && s !in q1 && Adjacent(g, s, u) && u != s ensures u in second {
      assert s in seeds && s !in [];
    }
  }

  /**
   * The nodes the two neighbour lists of `next` bring in are neighbours of
   * `next`, and afterwards every neighbour of `next` is visited.
   */
  lemma NeighboursOfNext<K(!new)>(g: Graph<K>, preds: map<K, seq<K>>, next: K,
                                  visited0: set<K>, found1: set<K>, found2: set<K>)
    requires Closed(g) && IsPredecessorIndex(g, preds) && next in g
    requires found1 == Elems(g[next]) - visited0
    requires found2 == Elems(PredsOf(preds, next)) - (visited0 + found1)
    ensures forall w :: Adjacent(g, next, w) ==> w in visited0 + found1 + found2
    ensures forall w :: w in found1 + found2 ==> Adjacent(g, next, w) && w in g
  {
    forall w | Adjacent(g, next, w) ensures w in visited0 + found1 + found2 {
      if Edge(g, next, w) {
        assert w in Elems(g[next]);
      } else {
        EdgeIsPredecessor(g, preds, next, w);
        assert w in Elems(PredsOf(preds, next));
      }
    }
    forall w | w in found1 + found2 ensures Adjacent(g, next, w) && w in g {
      if w in found1 {
        assert Edge(g, next, w);
      } else {
        PredecessorIsEdge(g, preds, next, w);
      }
    }
  }

  /**
   * One step of the draining loop: `next` was taken off `queue0`, and the
   * nodes `found1` (from its successor list) then `found2` (from its
   * predecessor list) were visited, put in the set not holding `next`,
   * queued as `pushed1` then `pushed2`, and given `next` as parent.
   */
  ghost predicate DrainStep<K(!new)>(g: Graph<K>, preds: map<K, seq<K>>, next: K, toFirst: bool,
                                     visited0: set<K>, first0: set<K>, second0: set<K>,
                                     queue0: seq<K>, parent0: map<K, K>,
                                     found1: set<K>, pushed1: seq<K>, found2: set<K>, pushed2: seq<K>,
                                     visited: set<K>, first: set<K>, second: set<K>,
                                     queue: seq<K>, parent: map<K, K>)
  {
    && queue0 != [] && next == queue0[0] && toFirst == (next !in first0) && next in g
    && found1 == Elems(g[next]) - visited0
    && found2 == Elems(PredsOf(preds, next)) - (visited0 + found1)
    && (forall x :: x in pushed1 <==> x in found1)
    && (forall x :: x in pushed2 <==> x in found2)
    && (pushed1 == [] <==> found1 == {}) && (pushed2 == [] <==> found2 == {})
    && visited == visited0 + found1 + found2
    && (toFirst ==> first == first0 + found1 + found2 && second == second0)
    && (!toFirst ==> first == first0 && second == second0 + found1 + found2)
    && queue == queue0[1..] + pushed1 + pushed2
    && parent == parent0 + (map w | w in found1 + found2 :: next)
  }

  /** Processing the queue front with its two neighbour lists keeps the invariant. */
  lemma DrainPreserves<K(!new)>(g: Graph<K>, preds: map<K, seq<K>>, next: K, toFirst: bool,
                                visited0: set<K>, first0: set<K>, second0: set<K>,
                                queue0: seq<K>, parent0: map<K, K>,
                                found1: set<K>, pushed1: seq<K>, found2: set<K>, pushed2: seq<K>,
                                visited: set<K>, first: set<K>, second: set<K>,
                                queue: seq<K>, parent: map<K, K>, seeds: set<K>)
    requires Closed(g) && IsPredecessorIndex(g, preds)
    requires BfsInv(g, visited0, first0, second0, queue0, seeds, parent0)
    requires DrainStep(g, preds, next, toFirst, visited0, first0, second0, queue0, parent0,
                       found1, pushed1, found2, pushed2, visited, first, second, queue, parent)
    ensures BfsInv(g, visited, first, second, queue, seeds, parent)
    ensures StepFacts(g, next, toFirst, visited0, first0, second0, queue0, parent0, found1 + found2,
                      visited, first, second, queue, parent)
    ensures |g.Keys - visited| < |g.Keys - visited0|
            || (g.Keys - visited == g.Keys - visited0 && |queue| < |queue0|)
  {
    var found := found1 + found2;
    DrainFacts(g, preds, next, toFirst, visited0, first0, second0, queue0, parent0,
               found1, pushed1, found2, pushed2, visited, first, second, queue, parent);
    DrainSets(g, next, toFirst, visited0, first0, second0, queue0, parent0, found,
              visited, first, second, queue, parent);
    DrainParents(g, next, toFirst, visited0, first0, second0, queue0, parent0, found,
                 visited, first, second, queue, parent, seeds);
    DrainSeeds(g, next, toFirst, visited0, first0, second0, queue0, parent0, found,
               visited, first, second, queue, parent, seeds);
    DrainShrinks(g, next, toFirst, visited0, first0, second0, queue0, parent0, found,
                 visited, first, second, queue, parent);
  }

  /** A draining step visits a new node or shortens the queue. */
  lemma DrainShrinks<K(!new)>(g: Graph<K>, next: K, toFirst: bool,
                              visited0: set<K>, first0: set<K>, second0: set<K>,
                              queue0: seq<K>, parent0: map<K, K>, found: set<K>,
                              visited: set<K>, first: set<K>, second: set<K>,
                              queue: seq<K>, parent: map<K, K>)
    requires StepFacts(g, next, toFirst, visited0, first0, second0, queue0, parent0, found,
                       visited, first, second, queue, parent)
    ensures |g.Keys - visited| < |g.Keys - visited0|
            || (g.Keys - visited == g.Keys - visited0 && |queue| < |queue0|)
  {
    if found != {} {
      var w :| w in found;
      assert w in g.Keys - visited0 && w !in g.Keys - visited;
      ProperSubsetSmaller(g.Keys - visited, g.Keys - visited0);
    }
  }

  /**
   * One draining step in terms of the set `found` of nodes it discovered:
   * they are the new visited nodes, all neighbours of `next`, placed in
   * the set not holding `next`, queued behind the old queue's tail, and
   * given `next` as parent; afterwards every neighbour of `next` is visited.
   */
  ghost predicate StepFacts<K(!new)>(g: Graph<K>, next: K, toFirst: bool,
                                     visited0: set<K>, first0: set<K>, second0: set<K>,
                                     queue0: seq<K>, parent0: map<K, K>, found: set<K>,
                                     visited: set<K>, first: set<K>, second: set<K>,
                                     queue: seq<K>, parent: map<K, K>)
  {
    && queue0 != [] && next == queue0[0] && toFirst == (next !in first0)
    && found !! visited0 && visited == visited0 + found
    && (toFirst ==> first == first0 + found && second == second0)
    && (!toFirst ==> first == first0 && second == second0 + found)
    && (forall x :: x in queue <==> x in queue0[1..] || x in found)
    && (forall w :: Adjacent(g, next, w) ==> w in visited)
    && (forall w :: w in found ==> Adjacent(g, next, w) && w in g)
    && parent == parent0 + (map w | w in found :: next)
    && (found == {} ==> |queue| < |queue0|)
  }

  lemma DrainFacts<K(!new)>(g: Graph<K>, preds: map<K, seq<K>>, next: K, toFirst: bool,
                            visited0: set<K>, first0: set<K>, second0: set<K>,
                            queue0: seq<K>, parent0: map<K, K>,
                            found1: set<K>, pushed1: seq<K>, found2: set<K>, pushed2: seq<K>,
                            visited: set<K>, first: set<K>, second: set<K>,
                            queue: seq<K>, parent: map<K, K>)
    requires Closed(g) && IsPredecessorIndex(g, preds)
    requires DrainStep(g, preds, next, toFirst, visited0, first0, second0, queue0, parent0,
                       found1, pushed1, found2, pushed2, visited, first, second, queue, parent)
    ensures StepFacts(g, next, toFirst, visited0, first0, second0, queue0, parent0, found1 + found2,
                      visited, first, second, queue, parent)
  {
    NeighboursOfNext(g, preds, next, visited0, found1, found2);
    assert queue0 == [next] + queue0[1..];
  }

  lemma DrainSets<K(!new)>(g: Graph<K>, next: K, toFirst: bool,
                           visited0: set<K>, first0: set<K>, second0: set<K>,
                           queue0: seq<K>, parent0: map<K, K>, found: set<K>,
                           visited: set<K>, first: set<K>, second: set<K>,
                           queue: seq<K>, parent: map<K, K>)
    requires BfsSets(g, visited0, first0, second0, queue0)
    requires StepFacts(g, next, toFirst, visited0, first0, second0, queue0, parent0, found,
                       visited, first, second, queue, parent)
    ensures BfsSets(g, visited, first, second, queue)
  {
    forall u, w | u in visited && u !in queue && Adjacent(g, u, w) ensures w in visited {
      if u != next {
        assert u in visited0 && u !in queue0;
      }
    }
  }

  lemma DrainParents<K(!new)>(g: Graph<K>, next: K, toFirst: bool,
                              visited0: set<K>, first0: set<K>, second0: set<K>,
                              queue0: seq<K>, parent0: map<K, K>, found: set<K>,
                              visited: set<K>, first: set<K>, second: set<K>,
                              queue: seq<K>, parent: map<K, K>, seeds: set<K>)
    requires BfsSets(g, visited0, first0, second0, queue0)
    requires BfsParents(g, visited0, first0, second0, seeds, parent0)
    requires StepFacts(g, next, toFirst, visited0, first0, second0, queue0, parent0, found,
                       visited, first, second, queue, parent)
    ensures BfsParents(g, visited, first, second, seeds, parent)
  {
    assert next in visited0;
    forall v | v in parent
      ensures parent[v] in visited
      ensures Adjacent(g, parent[v], v) && (parent[v] in first <==> v in second)
    {
      if v in found {
        assert (map w | w in found :: next)[v] == next;
        assert parent[v] == next;
      } else {
        assert v in parent0 && parent[v] == parent0[v];
      }
    }
  }

  lemma DrainSeeds<K(!new)>(g: Graph<K>, next: K, toFirst: bool,
                            visited0: set<K>, first0: set<K>, second0: set<K>,
                            queue0: seq<K>, parent0: map<K, K>, found: set<K>,
                            visited: set<K>, first: set<K>, second: set<K>,
                            queue: seq<K>, parent: map<K, K>, seeds: set<K>)
    requires BfsSets(g, visited0, first0, second0, queue0)
    requires BfsParents(g, visited0, first0, second0, seeds, parent0)
    requires BfsSeeds(g, visited0, second0, queue0, seeds)
    requires StepFacts(g, next, toFirst, visited0, first0, second0, queue0, parent0, found,
                       visited, first, second, queue, parent)
    ensures BfsSeeds(g, visited, second, queue, seeds)
  {
    assert forall x :: x in queue0[1..] ==> x in queue0;
    forall s | s in seeds ensures s !in queue {
      if s in queue0[1..] {
        assert false;
      }
    }
    forall s, u | s in seeds && s !in queue && Adjacent(g, s, u) && u != s
      ensures u in second
    {
      if s in queue0 {
        assert queue0 == [s] && s == next;
        assert u !in visited0;
      }
    }
  }

  // ---------------------------------------------------------------------
  // Consequences
  // ---------------------------------------------------------------------

  /** With no edges nobody is discovered: every node seeds the first set. */
  lemma EdgelessAllFirst<K(!new)>(g: Graph<K>, first: set<K>, second: set<K>,
                            seeds: set<K>, parent: map<K, K>,
                                 depth: map<K, nat>, root: map<K, K>)
    requires Edgeless(g)
    requires IsBfsPartition(g, first, second, seeds, parent, depth, root)
    ensures first == g.Keys && second == {}
  {

  }

  /** An empty graph gives two empty sets. */
  lemma EmptyGraphEmptySets<K(!new)>(g: Graph<K>, first: set<K>, second: set<K>,
                               seeds: set<K>, parent: map<K, K>,
                                 depth: map<K, nat>, root: map<K, K>)
    requires g == map[]
    requires IsBfsPartition(g, first, second, seeds, parent, depth, root)
    ensures first == {} && second == {}
  {
    assert first + second == {};
  }

  /** Every neighbour of u other than u itself is v. */
  ghost predicate OnlyNeighbour<K(!new)>(g: Graph<K>, u: K, v: K)
  {
    forall w :: Adjacent(g, u, w) && w != u ==> w == v
  }

  /**
   * A node whose only neighbour is v lies in the set not holding v: it is
   * either a seed (and v was discovered from it) or was discovered from v.
   */
  lemma SoleNeighbourOpposite<K(!new)>(g: Graph<K>, first: set<K>, second: set<K>,
                                 seeds: set<K>, parent: map<K, K>, depth: map<K, nat>, root: map<K, K>,
                                 u: K, v: K)
    requires Closed(g) && IsBfsPartition(g, first, second, seeds, parent, depth, root)
    requires u in g && u != v && Adjacent(g, u, v) && OnlyNeighbour(g, u, v)
    ensures v in g
    ensures u in first <==> v in second
  {
    if u in seeds {
      assert v in second;
    } else {
      assert u in parent;
      assert Adjacent(g, u, parent[u]);
    }
  }

  /**
   * Two nodes joined only to each other end up in different sets; this is
   * why the pairs i <-> i+n split evenly.
   */
  lemma PairSplits<K(!new)>(g: Graph<K>, first: set<K>, second: set<K>,
                      seeds: set<K>, parent: map<K, K>, depth: map<K, nat>, root: map<K, K>,
                      a: K, b: K)
    requires Closed(g) && IsBfsPartition(g, first, second, seeds, parent, depth, root)
    requires a in g && a != b && Edge(g, a, b) && OnlyNeighbour(g, a, b)
    ensures (a in first && b in second) || (a in second && b in first)
  {
    SoleNeighbourOpposite(g, first, second, seeds, parent, depth, root, a, b);
  }

  /**
   * In a star whose centre points at every node and whose leaves have no
   * successors, the centre is alone in its set and the leaves fill the
   * other one.
   */
  lemma StarSplits<K(!new)>(g: Graph<K>, first: set<K>, second: set<K>,
                      seeds: set<K>, parent: map<K, K>, depth: map<K, nat>, root: map<K, K>,
                      c: K)
    requires Closed(g) && IsBfsPartition(g, first, second, seeds, parent, depth, root)
    requires c in g && forall v :: v in g ==> v in g[c]
    requires forall v :: v in g && v != c ==> g[v] == []
    ensures (first == {c} && second == g.Keys - {c}) || (second == {c} && first == g.Keys - {c})
  {
    forall v | v in g && v != c ensures v in first <==> c in second {
      assert Edge(g, c, v);
      assert OnlyNeighbour(g, v, c);
      SoleNeighbourOpposite(g, first, second, seeds, parent, depth, root, v, c);
    }
  }

  /**
   * In a complete graph the first seed is alone in the first set and
   * every other node is in the second.
   */
  lemma CompleteGraphSplits<K(!new)>(g: Graph<K>, first: set<K>, second: set<K>,
                               seeds: set<K>, parent: map<K, K>,
                                 depth: map<K, nat>, root: map<K, K>)
    requires IsBfsPartition(g, first, second, seeds, parent, depth, root)
    requires g.Keys != {} && forall u, v :: u in g && v in g ==> v in g[u]
    ensures exists s :: s in g && first == {s} && second == g.Keys - {s}
  {
    var s :| s in seeds;
    forall v | v in g && v != s ensures v in second {
      assert Edge(g, s, v);
    }
    assert first == {s};
  }

  /** The directed 5-cycle 0 -> 1 -> 2 -> 3 -> 4 -> 0. */
  ghost predicate FiveCycle(g: Graph<int>)
  {
    g.Keys == {0, 1, 2, 3, 4} && g[0] == [1] && g[1] == [2] && g[2] == [3] && g[3] == [4] && g[4] == [0]
  }

  /**
   * On the 5-cycle seeded at 0 the split is by distance from 0 ignoring
   * direction: 1 and 4 at distance one are in the second set, 2 and 3 at
   * distance two in the first.
   */
  lemma FiveCycleSplit(g: Graph<int>, first: set<int>, second: set<int>,
                       seeds: set<int>, parent: map<int, int>, depth: map<int, nat>, root: map<int, int>)
    requires FiveCycle(g)
    requires IsBfsPartition(g, first, second, seeds, parent, depth, root) && 0 in seeds
    ensures first == {0, 2, 3} && second == {1, 4}
  {
    FiveCycleDepths(g, first, second, seeds, parent, depth, root);
    assert 0 in first && 2 in first && 3 in first && 1 in second && 4 in second;
    FiveSplit(first, second);
  }

  /** Splitting 0..4 with 0, 2, 3 on one side and 1, 4 on the other fixes both sides. */
  lemma FiveSplit(first: set<int>, second: set<int>)
    requires first + second == {0, 1, 2, 3, 4} && first !! second
    requires 0 in first && 2 in first && 3 in first && 1 in second && 4 in second
    ensures first == {0, 2, 3} && second == {1, 4}
  {
  }

  /** The depths on the 5-cycle seeded at 0 are the undirected distances from 0. */
  lemma FiveCycleDepths(g: Graph<int>, first: set<int>, second: set<int>,
                        seeds: set<int>, parent: map<int, int>, depth: map<int, nat>, root: map<int, int>)
    requires FiveCycle(g)
    requires IsBfsPartition(g, first, second, seeds, parent, depth, root) && 0 in seeds
    ensures depth[0] == 0 && depth[1] == 1 && depth[2] == 2 && depth[3] == 2 && depth[4] == 1
  {
    FiveCycleOneSeed(g, first, second, seeds, parent, depth, root);
    assert Adjacent(g, 1, 0) && Adjacent(g, 4, 0) && Adjacent(g, 2, 1) && Adjacent(g, 3, 4);
    assert depth[1] == 1 && depth[4] == 1;
    assert depth[2] == 2 by {
      assert Adjacent(g, parent[2], 2);
    }
    assert depth[3] == 2 by {
      assert Adjacent(g, parent[3], 3);
    }
  }

  /** The 5-cycle is connected, so 0 is its only seed. */
  lemma FiveCycleOneSeed(g: Graph<int>, first: set<int>, second: set<int>,
                         seeds: set<int>, parent: map<int, int>, depth: map<int, nat>, root: map<int, int>)
    requires FiveCycle(g)
    requires IsBfsPartition(g, first, second, seeds, parent, depth, root) && 0 in seeds
    ensures 1 in parent && 2 in parent && 3 in parent && 4 in parent
  {
    assert Adjacent(g, 0, 1) && Adjacent(g, 1, 2) && Adjacent(g, 2, 3) && Adjacent(g, 3, 4);
    assert root[1] == 0 && root[2] == 0 && root[3] == 0 && root[4] == 0;
  }
}
