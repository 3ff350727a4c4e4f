/**
 * The older copy of the internal helpers (include/pprInternal.h): a
 * bipartitioner whose BFS follows successor edges only, and a keepTop
 * without the size guard. Its norm1 is the same loop as the maintained
 * one and is modelled once, by Baskets.Norm1.
 */
module LegacyInternal {
  import opened Common
  import Baskets
  import Partitions

  /**
   * The outcome of the successor-only traversal. `seeds` are the keys the
   * outer loop found unvisited; `parent` maps every other node to the node
   * whose successor list discovered it; `depth` is the number of
   * discoveries from the seed and `root` the seed the node was reached from.
   *  - the two sets split the keys, and seeds are in the first set;
   *  - every other node was discovered along an edge from its parent and
   *    lies in the set not holding it;
   *  - a seed is at depth 0 and is its own root, a discovered node one
   *    deeper than its parent with the same root, every root is a seed, and
   *    the first set holds exactly the nodes at even depth;
   *  - `rank` numbers the seeds in the order the outer loop took them, and
   *    no edge leads into the tree of a later seed: a seed's tree holds
   *    every node reachable from it that no earlier seed took;
   *  - an edge between two nodes reached from the same seed goes at most
   *    one level deeper: the depth is the breadth-first distance along
   *    successor edges from the seed, among the nodes no earlier seed took.
   */
  ghost predicate IsSuccessorPartition<K(!new)>(g: Graph<K>, first: set<K>, second: set<K>,
                                                seeds: set<K>, parent: map<K, K>,
                                                depth: map<K, nat>, root: map<K, K>, rank: map<K, nat>)
  {
    && first + second == g.Keys
    && first !! second
    && seeds <= first
    && (g.Keys != {} ==> seeds != {})
    && parent.Keys == g.Keys - seeds
    && (forall v :: v in parent ==>
          Edge(g, parent[v], v) && (parent[v] in first <==> v in second))
    && depth.Keys == g.Keys && root.Keys == g.Keys
    && (forall s :: s in seeds ==> depth[s] == 0 && root[s] == s)
    && (forall v :: v in parent ==>
          parent[v] in g && depth[v] == depth[parent[v]] + 1 && root[v] == root[parent[v]])
    && (forall v :: v in g ==> root[v] in seeds && (v in first <==> depth[v] % 2 == 0))
    && rank.Keys == seeds
    && (forall s, t {:trigger rank[s], rank[t]} :: s in seeds && t in seeds && rank[s] == rank[t] ==> s == t)
    && (forall u, w :: u in g && w in g && Edge(g, u, w) ==> rank[root[w]] <= rank[root[u]])
    && (forall u, w :: u in g && w in g && Edge(g, u, w) && root[u] == root[w] ==> depth[w] <= depth[u] + 1)
  }

  /** The state of the traversal at the head of the queue-draining loop. */
  ghost predicate SuccessorBfsInv<K(!new)>(g: Graph<K>, visited: set<K>, first: set<K>,
                                           second: set<K>, queue: seq<K>,
                                           seeds: set<K>, parent: map<K, K>)
  {
    && SuccessorBfsSets(g, visited, first, second, queue)
    && SuccessorBfsParents(g, visited, first, second, seeds, parent)
  }

  /** The two sets split the visited nodes, which include the queued ones. */
  ghost predicate SuccessorBfsSets<K(!new)>(g: Graph<K>, visited: set<K>, first: set<K>,
                                            second: set<K>, queue: seq<K>)
  {
    && visited == first + second
    && first !! second
    && visited <= g.Keys
    && (forall x :: x in queue ==> x in visited)
  }

  /** Every visited node is a seed or was discovered from the other set. */
  ghost predicate SuccessorBfsParents<K(!new)>(g: Graph<K>, visited: set<K>, first: set<K>,
                                               second: set<K>, seeds: set<K>, parent: map<K, K>)
  {
    && seeds <= first
    && (visited != {} ==> seeds != {})
    && parent.Keys == visited - seeds
    && (forall v :: v in parent ==>
          && parent[v] in visited
          && Edge(g, parent[v], v)
          && (parent[v] in first <==> v in second))
  }

  /**
   * The depths and roots at the head of the queue-draining loop: labelled
   * as in IsSuccessorPartition, the queue ordered by depth within one level
   * of its front and from one root.
   */
  ghost predicate SuccessorLayers<K(!new)>(g: Graph<K>, visited: set<K>, first: set<K>, queue: seq<K>,
                                           seeds: set<K>, parent: map<K, K>,
                                           depth: map<K, nat>, root: map<K, K>)
  {
    && Partitions.LayerLabels(visited, first, seeds, parent, depth, root)
    && Partitions.LayerQueue(queue, depth, root)
    && SuccessorTrees(visited, queue, seeds, depth, root)
    && SuccessorEdges(g, visited, queue, depth, root)
  }

  /**
   * Every root is a seed, and a node already taken off the queue is no
   * deeper than the queue front when both were reached from one seed.
   */
  ghost predicate SuccessorTrees<K>(visited: set<K>, queue: seq<K>, seeds: set<K>,
                                    depth: map<K, nat>, root: map<K, K>)
  {
    && depth.Keys == visited && root.Keys == visited
    && (forall v {:trigger root[v]} :: v in visited ==> root[v] in seeds)
    && (queue != [] ==>
          && queue[0] in visited
          && forall u :: u in visited && u !in queue && root[u] == root[queue[0]] ==> depth[u] <= depth[queue[0]])
  }

  /**
   * A node already taken off the queue has all its successors visited, and
   * those reached from the same seed are at most one level deeper.
   */
  ghost predicate SuccessorEdges<K(!new)>(g: Graph<K>, visited: set<K>, queue: seq<K>,
                                          depth: map<K, nat>, root: map<K, K>)
  {
    && depth.Keys == visited && root.Keys == visited
    && (forall u, w :: u in visited && u !in queue && Edge(g, u, w) ==> w in visited)
    && (forall u, w :: u in visited && u !in queue && w in visited && Edge(g, u, w) && root[u] == root[w] ==>
          depth[w] <= depth[u] + 1)
  }

  /**
   * The seeds taken so far are numbered below n, and no edge between
   * visited nodes leads into the tree of a later seed.
   */
  ghost predicate SuccessorRanks<K(!new)>(g: Graph<K>, visited: set<K>, seeds: set<K>,
                                          root: map<K, K>, rank: map<K, nat>, n: nat)
  {
    && rank.Keys == seeds
    && (forall s :: s in seeds ==> rank[s] < n)
    && root.Keys == visited
    && (forall v {:trigger root[v]} :: v in visited ==> root[v] in seeds)
    && (forall u, w :: u in visited && w in visited && Edge(g, u, w) ==> rank[root[w]] <= rank[root[u]])
  }

  /**
   * `order` lists the seeds in the order the outer loop took them, and a
   * seed's rank is its place in that list, so no two seeds share a rank.
   */
  ghost predicate SeedOrder<K>(seeds: set<K>, rank: map<K, nat>, order: seq<K>)
  {
    forall s :: s in seeds ==> s in rank && rank[s] < |order| && order[rank[s]] == s
  }

  /** The queued nodes belong to the latest seed, the one of rank n - 1. */
  ghost predicate QueueRanked<K>(queue: seq<K>, root: map<K, K>, rank: map<K, nat>, n: nat)
  {
    forall x :: x in queue ==> x in root && root[x] in rank && rank[root[x]] == n - 1
  }

  /** The state between two rounds of the outer loop, with the queue empty. */
  ghost predicate Explored<K(!new)>(g: Graph<K>, visited: set<K>, first: set<K>, second: set<K>,
                                    seeds: set<K>, parent: map<K, K>, depth: map<K, nat>,
                                    root: map<K, K>, rank: map<K, nat>, order: seq<K>)
  {
    && SuccessorBfsInv(g, visited, first, second, [], seeds, parent)
    && SuccessorLayers(g, visited, first, [], seeds, parent, depth, root)
    && SuccessorRanks(g, visited, seeds, root, rank, |order|)
    && SeedOrder(seeds, rank, order)
  }

  /**
   * findPartitions, successor-only: each key the outer loop finds
   * unvisited seeds the first set, and the queue is drained putting each
   * unvisited successor of `next` into the set not holding `next`.
   */
  method FindPartitions<K(!new)>(g: Graph<K>)
    returns (first: set<K>, second: set<K>, ghost seeds: set<K>, ghost parent: map<K, K>,
             ghost depth: map<K, nat>, ghost root: map<K, K>, ghost rank: map<K, nat>)
    requires Closed(g)
    ensures IsSuccessorPartition(g, first, second, seeds, parent, depth, root, rank)
  {
    first, second := {}, {};
    seeds, parent, depth, root, rank := {}, map[], map[], map[], map[];
    ghost var order: seq<K> := [];
    var visited: set<K> := {};
    var rest := g.Keys;
    while rest != {}
      invariant rest <= g.Keys
      invariant g.Keys - rest <= visited
      invariant Explored(g, visited, first, second, seeds, parent, depth, root, rank, order)
      decreases |rest|
    {
      var key :| key in rest;
      visited, first, second, seeds, parent, depth, root, rank, order :=
        Explore(g, key, visited, first, second, seeds, parent, depth, root, rank, order);
      rest := rest - {key};
    }
    Finished(g, visited, first, second, seeds, parent, depth, root, rank, order);
  }

  /**
   * One round of the outer loop: key, unless already visited, seeds the
   * first set with the next rank, and the queue is drained.
   */
  method Explore<K(!new)>(g: Graph<K>, key: K, visited: set<K>, first: set<K>, second: set<K>,
                          ghost seeds: set<K>, ghost parent: map<K, K>, ghost depth: map<K, nat>,
                          ghost root: map<K, K>, ghost rank: map<K, nat>, ghost order: seq<K>)
    returns (visited': set<K>, first': set<K>, second': set<K>, ghost seeds': set<K>,
             ghost parent': map<K, K>, ghost depth': map<K, nat>, ghost root': map<K, K>,
             ghost rank': map<K, nat>, ghost order': seq<K>)
    requires Closed(g) && key in g
    requires Explored(g, visited, first, second, seeds, parent, depth, root, rank, order)
    ensures Explored(g, visited', first', second', seeds', parent', depth', root', rank', order')
    ensures visited + {key} <= visited'
  {
    var queue: seq<K> := [];
    visited', first', seeds', depth', root', rank', order' := visited, first, seeds, depth, root, rank, order;
    if key !in visited {
      SeedPreserves(g, visited, first, second, seeds, parent, key);
      SeedLayers(g, visited, first, second, seeds, parent, depth, root, key);
      SeedRanks(g, visited, seeds, depth, root, rank, order, key);
      visited' := visited + {key};
      queue := [key];
      first' := first + {key};
      seeds' := seeds + {key};
      depth', root' := depth[key := 0], root[key := key];
      rank', order' := rank[key := |order|], order + [key];
    }
    visited', first', second', parent', depth', root' :=
      DrainSuccessors(g, visited', first', second, queue, seeds', parent, depth', root', rank', |order'|);
  }

  /**
   * The inner loop: takes nodes off the queue front and discovers their
   * unvisited successors until the queue is empty.
   */
  method DrainSuccessors<K(!new)>(g: Graph<K>, visited: set<K>, first: set<K>, second: set<K>,
                                  start: seq<K>, ghost seeds: set<K>, ghost parent: map<K, K>,
                                  ghost depth: map<K, nat>, ghost root: map<K, K>,
                                  ghost rank: map<K, nat>, ghost n: nat)
    returns (visited': set<K>, first': set<K>, second': set<K>, ghost parent': map<K, K>,
             ghost depth': map<K, nat>, ghost root': map<K, K>)
    requires Closed(g)
    requires SuccessorBfsInv(g, visited, first, second, start, seeds, parent)
    requires SuccessorLayers(g, visited, first, start, seeds, parent, depth, root)
    requires SuccessorRanks(g, visited, seeds, root, rank, n) && QueueRanked(start, root, rank, n)
    ensures SuccessorBfsInv(g, visited', first', second', [], seeds, parent')
    ensures SuccessorLayers(g, visited', first', [], seeds, parent', depth', root')
    ensures SuccessorRanks(g, visited', seeds, root', rank, n)
    ensures visited <= visited'
  {
    visited', first', second', parent', depth', root' := visited, first, second, parent, depth, root;
    var queue := start;
    while queue != []
      invariant SuccessorBfsInv(g, visited', first', second', queue, seeds, parent')
      invariant SuccessorLayers(g, visited', first', queue, seeds, parent', depth', root')
      invariant SuccessorRanks(g, visited', seeds, root', rank, n) && QueueRanked(queue, root', rank, n)
      invariant visited <= visited'
      decreases |g.Keys - visited'|, |queue|
    {
      var next := queue[0];
      assert next in depth' && next in root';
      ghost var visited0, first0, second0, queue0, parent0 := visited', first', second', queue, parent';
      ghost var depth0, root0 := depth', root';
      queue := queue[1..];
      var toFirst := next !in first';
      ghost var found, pushed;
      visited', first', second', queue, found, pushed :=
        Partitions.Discover(g[next], toFirst, visited', first', second', queue);
      parent' := parent' + (map w | w in found :: next);
      depth' := depth' + (map w | w in found :: depth'[next] + 1);
      root' := root' + (map w | w in found :: root'[next]);
      Partitions.Relabel(next, found, depth0, root0, depth', root');
      SuccessorStepPreserves(g, next, toFirst, visited0, first0, second0, queue0, parent0,
                             found, pushed, visited', first', second', queue, parent', seeds);
      SuccessorStepLayers(g, next, toFirst, visited0, first0, second0, queue0, parent0, depth0, root0,
                          found, pushed, visited', first', second', queue, parent', depth', root', seeds);
      SuccessorStepRanks(g, next, toFirst, visited0, first0, second0, queue0, parent0, depth0, root0,
                         found, pushed, visited', first', second', queue, parent', depth', root', seeds, rank, n);
      SuccessorStepShrinks(g, next, toFirst, visited0, first0, second0, queue0, parent0,
                           found, pushed, visited', first', second', queue, parent');
    }
  }

  /** Once every key is visited and the queue is empty the traversal's outcome is reached. */
  lemma Finished<K(!new)>(g: Graph<K>, visited: set<K>, first: set<K>, second: set<K>,
                          seeds: set<K>, parent: map<K, K>, depth: map<K, nat>, root: map<K, K>,
                          rank: map<K, nat>, order: seq<K>)
    requires Explored(g, visited, first, second, seeds, parent, depth, root, rank, order)
    requires visited == g.Keys
    ensures IsSuccessorPartition(g, first, second, seeds, parent, depth, root, rank)
  {
    forall s, t | s in seeds && t in seeds && rank[s] == rank[t] ensures s == t {
      assert order[rank[s]] == s && order[rank[t]] == t;
    }
    assert Partitions.LayerLabels(visited, first, seeds, parent, depth, root);
    assert SuccessorTrees(visited, [], seeds, depth, root);
    assert SuccessorEdges(g, visited, [], depth, root);
  }

  /** Seeding an unvisited key at depth 0 as its own root keeps the layering. */
  lemma SeedLayers<K(!new)>(g: Graph<K>, visited: set<K>, first: set<K>, second: set<K>,
                            seeds: set<K>, parent: map<K, K>, depth: map<K, nat>, root: map<K, K>, key: K)
    requires SuccessorLayers(g, visited, first, [], seeds, parent, depth, root)
    requires key !in visited
    ensures SuccessorLayers(g, visited + {key}, first + {key}, [key], seeds + {key}, parent,
                            depth[key := 0], root[key := key])
  {
    var visited', depth', root' := visited + {key}, depth[key := 0], root[key := key];
    Partitions.SeedLabels(visited, first, seeds, parent, depth, root, key);
    assert Partitions.LayerLabels(visited, first, seeds, parent, depth, root);
    assert SuccessorTrees(visited, [], seeds, depth, root);
    assert SuccessorEdges(g, visited, [], depth, root);
    // the nodes visited before belong to earlier seeds
    forall u | u in visited' && u !in [key] ensures root'[u] != key {
      assert u in visited && root[u] in seeds;
    }
  }

  /**
   * Seeding an unvisited key with the next rank: an edge into it from a
   * visited node would have made it visited, since the queue is empty.
   */
  lemma SeedRanks<K(!new)>(g: Graph<K>, visited: set<K>, seeds: set<K>, depth: map<K, nat>, root: map<K, K>,
                           rank: map<K, nat>, order: seq<K>, key: K)
    requires SuccessorEdges(g, visited, [], depth, root)
    requires SuccessorRanks(g, visited, seeds, root, rank, |order|) && SeedOrder(seeds, rank, order)
    requires key !in seeds && key !in visited
    ensures SuccessorRanks(g, visited + {key}, seeds + {key}, root[key := key], rank[key := |order|], |order| + 1)
    ensures SeedOrder(seeds + {key}, rank[key := |order|], order + [key])
    ensures QueueRanked([key], root[key := key], rank[key := |order|], |order| + 1)
  {
    var root', rank' := root[key := key], rank[key := |order|];
    forall u, w | u in visited + {key} && w in visited + {key} && Edge(g, u, w)
      ensures rank'[root'[w]] <= rank'[root'[u]]
    {
      if u != key {
        assert w != key && root'[w] == root[w] && root'[u] == root[u];
        assert root[w] != key && root[u] != key;
      }
    }
  }

  /** Seeding an unvisited key while the queue is empty keeps the invariant. */
  lemma SeedPreserves<K(!new)>(g: Graph<K>, visited: set<K>, first: set<K>, second: set<K>,
                               seeds: set<K>, parent: map<K, K>, key: K)
    requires SuccessorBfsInv(g, visited, first, second, [], seeds, parent)
    requires key in g && key !in visited
    ensures SuccessorBfsInv(g, visited + {key}, first + {key}, second, [key], seeds + {key}, parent)
  {
  }

  /**
   * One draining step: `next` was taken off `queue0`, and the unvisited
   * successors `found` of `next` were visited, put in the set not holding
   * `next`, queued as `pushed` and given `next` as parent.
   */
  ghost predicate SuccessorStep<K(!new)>(g: Graph<K>, next: K, toFirst: bool,
                                         visited0: set<K>, first0: set<K>, second0: set<K>,
                                         queue0: seq<K>, parent0: map<K, K>,
                                         found: set<K>, pushed: seq<K>,
                                         visited: set<K>, first: set<K>, second: set<K>,
                                         queue: seq<K>, parent: map<K, K>)
  {
    && queue0 != [] && next == queue0[0] && toFirst == (next !in first0) && next in g
    && found == Elems(g[next]) - visited0
    && (forall x :: x in pushed <==> x in found)
    && (pushed == [] <==> found == {})
    && visited == visited0 + found
    && (toFirst ==> first == first0 + found && second == second0)
    && (!toFirst ==> first == first0 && second == second0 + found)
    && queue == queue0[1..] + pushed
    && parent == parent0 + (map w | w in found :: next)
  }

  /** Processing the queue front with its successor list keeps the invariant. */
  lemma SuccessorStepPreserves<K(!new)>(g: Graph<K>, next: K, toFirst: bool,
                                        visited0: set<K>, first0: set<K>, second0: set<K>,
                                        queue0: seq<K>, parent0: map<K, K>,
                                        found: set<K>, pushed: seq<K>,
                                        visited: set<K>, first: set<K>, second: set<K>,
                                        queue: seq<K>, parent: map<K, K>, seeds: set<K>)
    requires Closed(g)
    requires SuccessorBfsInv(g, visited0, first0, second0, queue0, seeds, parent0)
    requires SuccessorStep(g, next, toFirst, visited0, first0, second0, queue0, parent0,
                           found, pushed, visited, first, second, queue, parent)
    ensures SuccessorBfsInv(g, visited, first, second, queue, seeds, parent)
  {
    assert next in visited0;
    assert found <= g.Keys;
    forall x | x in queue ensures x in visited {
      if x in queue0[1..] {
        assert x in queue0;
      }
    }
    forall v | v in parent
      ensures parent[v] in visited && Edge(g, parent[v], v)
      ensures parent[v] in first <==> v in second
    {
      if v in found {
        assert (map w | w in found :: next)[v] == next;
      } else {
        assert v in parent0 && parent[v] == parent0[v];
      }
    }
  }

  /** The depths and roots after a draining step. */
  lemma SuccessorStepLayers<K(!new)>(g: Graph<K>, next: K, toFirst: bool,
                                     visited0: set<K>, first0: set<K>, second0: set<K>,
                                     queue0: seq<K>, parent0: map<K, K>, depth0: map<K, nat>, root0: map<K, K>,
                                     found: set<K>, pushed: seq<K>,
                                     visited: set<K>, first: set<K>, second: set<K>,
                                     queue: seq<K>, parent: map<K, K>, depth: map<K, nat>, root: map<K, K>,
                                     seeds: set<K>)
    requires SuccessorBfsSets(g, visited0, first0, second0, queue0)
    requires SuccessorLayers(g, visited0, first0, queue0, seeds, parent0, depth0, root0)
    requires SuccessorStep(g, next, toFirst, visited0, first0, second0, queue0, parent0,
                           found, pushed, visited, first, second, queue, parent)
    requires next in depth0 && next in root0
    requires Partitions.Relabelled(found, depth0, root0, depth, root, depth0[next], root0[next])
    ensures SuccessorLayers(g, visited, first, queue, seeds, parent, depth, root)
  {
    var dn, rn := depth0[next], root0[next];
    assert next in visited0;
    assert Partitions.Discovery(next, toFirst, visited0, first0, second0, parent0, found,
                                visited, first, second, parent);
    Partitions.StepLabels(next, toFirst, visited0, first0, second0, parent0, depth0, root0, found,
                          visited, first, second, parent, depth, root, seeds, dn, rn);
    assert Partitions.LayerQueue(queue0, depth0, root0);
    forall k | 0 <= k < |queue0| ensures queue0[k] in depth && dn <= depth[queue0[k]] <= dn + 1
                                       && queue0[k] in root && root[queue0[k]] == rn {
      assert queue0[k] in visited0 && queue0[0] == next;
      assert queue0[k] !in found;
    }
    forall i, j | 0 <= i <= j < |queue0| ensures depth[queue0[i]] <= depth[queue0[j]] {
      assert queue0[i] !in found && queue0[j] !in found;
    }
    Partitions.DrainLayersQueue(queue0, queue, pushed, found, depth, root, dn, rn);
    SuccessorStepTrees(g, next, toFirst, visited0, first0, second0, queue0, parent0, depth0, root0,
                       found, pushed, visited, first, second, queue, parent, depth, root, seeds);
    SuccessorStepEdges(g, next, toFirst, visited0, first0, second0, queue0, parent0, depth0, root0,
                       found, pushed, visited, first, second, queue, parent, depth, root);
  }

  /**
   * After a step the roots are still seeds, and a node taken off the queue
   * from the front's tree is no deeper than the new front.
   */
  lemma SuccessorStepTrees<K(!new)>(g: Graph<K>, next: K, toFirst: bool,
                                    visited0: set<K>, first0: set<K>, second0: set<K>,
                                    queue0: seq<K>, parent0: map<K, K>, depth0: map<K, nat>, root0: map<K, K>,
                                    found: set<K>, pushed: seq<K>,
                                    visited: set<K>, first: set<K>, second: set<K>,
                                    queue: seq<K>, parent: map<K, K>, depth: map<K, nat>, root: map<K, K>,
                                    seeds: set<K>)
    requires SuccessorBfsSets(g, visited0, first0, second0, queue0)
    requires SuccessorTrees(visited0, queue0, seeds, depth0, root0)
    requires Partitions.LayerQueue(queue0, depth0, root0)
    requires SuccessorStep(g, next, toFirst, visited0, first0, second0, queue0, parent0,
                           found, pushed, visited, first, second, queue, parent)
    requires Partitions.Relabelled(found, depth0, root0, depth, root, depth0[next], root0[next])
    ensures SuccessorTrees(visited, queue, seeds, depth, root)
  {
    var dn, rn := depth0[next], root0[next];
    if queue != [] {
      var f := queue[0];
      assert f in found || f == queue0[1];
      assert f in visited && root[f] == rn && dn <= depth[f];
      forall u | u in visited && u !in queue && root[u] == root[f] ensures depth[u] <= depth[f] {
        assert u !in found;
        if u != next {
          assert u !in queue0[1..] && u !in queue0;
        }
      }
    }
  }

  /**
   * After a step the nodes taken off the queue still have their successors
   * visited, at most one level deeper within their tree.
   */
  lemma SuccessorStepEdges<K(!new)>(g: Graph<K>, next: K, toFirst: bool,
                                    visited0: set<K>, first0: set<K>, second0: set<K>,
                                    queue0: seq<K>, parent0: map<K, K>, depth0: map<K, nat>, root0: map<K, K>,
                                    found: set<K>, pushed: seq<K>,
                                    visited: set<K>, first: set<K>, second: set<K>,
                                    queue: seq<K>, parent: map<K, K>, depth: map<K, nat>, root: map<K, K>)
    requires SuccessorBfsSets(g, visited0, first0, second0, queue0)
    requires SuccessorEdges(g, visited0, queue0, depth0, root0)
    requires queue0 != [] && forall u :: u in visited0 && u !in queue0 && root0[u] == root0[queue0[0]] ==>
               depth0[u] <= depth0[queue0[0]]
    requires Partitions.LayerQueue(queue0, depth0, root0)
    requires SuccessorStep(g, next, toFirst, visited0, first0, second0, queue0, parent0,
                           found, pushed, visited, first, second, queue, parent)
    requires Partitions.Relabelled(found, depth0, root0, depth, root, depth0[next], root0[next])
    ensures SuccessorEdges(g, visited, queue, depth, root)
  {
    var dn, rn := depth0[next], root0[next];
    forall u, w | u in visited && u !in queue && Edge(g, u, w) ensures w in visited {
      assert u !in found;
      if u == next {
        assert w in Elems(g[next]);
      } else {
        assert u !in queue0[1..] && u !in queue0;
      }
    }
    forall u, w | u in visited && u !in queue && w in visited && Edge(g, u, w) && root[u] == root[w]
      ensures depth[w] <= depth[u] + 1
    {
      assert u !in found;
      if u != next {
        assert u !in queue0[1..] && u !in queue0;
        assert w in visited0 && w !in found;
      } else if w !in found {
        assert w in visited0 && root0[w] == rn;
        if w in queue0 {
          var k :| 0 <= k < |queue0| && queue0[k] == w;
        }
      }
    }
  }

  /**
   * After a step the found nodes belong to the front's seed, the latest
   * one; an edge into a found node comes from a node still queued before
   * the step, since the others had all their successors visited, and so
   * from the latest seed's tree too.
   */
  lemma SuccessorStepRanks<K(!new)>(g: Graph<K>, next: K, toFirst: bool,
                                    visited0: set<K>, first0: set<K>, second0: set<K>,
                                    queue0: seq<K>, parent0: map<K, K>, depth0: map<K, nat>, root0: map<K, K>,
                                    found: set<K>, pushed: seq<K>,
                                    visited: set<K>, first: set<K>, second: set<K>,
                                    queue: seq<K>, parent: map<K, K>, depth: map<K, nat>, root: map<K, K>,
                                    seeds: set<K>, rank: map<K, nat>, n: nat)
    requires SuccessorBfsSets(g, visited0, first0, second0, queue0)
    requires SuccessorEdges(g, visited0, queue0, depth0, root0)
    requires SuccessorRanks(g, visited0, seeds, root0, rank, n) && QueueRanked(queue0, root0, rank, n)
    requires SuccessorStep(g, next, toFirst, visited0, first0, second0, queue0, parent0,
                           found, pushed, visited, first, second, queue, parent)
    requires next in depth0 && next in root0
    requires Partitions.Relabelled(found, depth0, root0, depth, root, depth0[next], root0[next])
    ensures SuccessorRanks(g, visited, seeds, root, rank, n) && QueueRanked(queue, root, rank, n)
  {
    var rn := root0[next];
    assert next in queue0 && rank[rn] == n - 1;
    forall x | x in queue ensures x in root && root[x] in rank && rank[root[x]] == n - 1 {
      if x !in found {
        assert x in queue0[1..] && x in queue0;
      }
    }
    forall u, w | u in visited && w in visited && Edge(g, u, w) ensures rank[root[w]] <= rank[root[u]] {
      if u !in found && w in found {
        assert u in visited0 && u in queue0;
      }
    }
  }

  /** A draining step visits a new node or shortens the queue. */
  lemma SuccessorStepShrinks<K(!new)>(g: Graph<K>, next: K, toFirst: bool,
                                      visited0: set<K>, first0: set<K>, second0: set<K>,
                                      queue0: seq<K>, parent0: map<K, K>,
                                      found: set<K>, pushed: seq<K>,
                                      visited: set<K>, first: set<K>, second: set<K>,
                                      queue: seq<K>, parent: map<K, K>)
    requires Closed(g)
    requires SuccessorStep(g, next, toFirst, visited0, first0, second0, queue0, parent0,
                           found, pushed, visited, first, second, queue, parent)
    ensures |g.Keys - visited| < |g.Keys - visited0|
            || (g.Keys - visited == g.Keys - visited0 && |queue| < |queue0|)
  {
    if found != {} {
      var w :| w in found;
      assert w in g[next];
      assert w in g.Keys - visited0 && w !in g.Keys - visited;
      Partitions.ProperSubsetSmaller(g.Keys - visited, g.Keys - visited0);
    }
  }

  /** A node without incoming edges is never discovered: it seeds the first set. */
  lemma NoInEdgeInFirst<K(!new)>(g: Graph<K>, first: set<K>, second: set<K>,
                                 seeds: set<K>, parent: map<K, K>, depth: map<K, nat>, root: map<K, K>,
                                 rank: map<K, nat>, v: K)
    requires IsSuccessorPartition(g, first, second, seeds, parent, depth, root, rank)
    requires v in g && forall u :: !Edge(g, u, v)
    ensures v in first && v !in second
  {
  }

  /**
   * Unlike the maintained bipartitioner, this one may put both ends of an
   * edge into the first set: with a -> b and the outer loop reaching b
   * first, b and then a seed the first set (b takes rank 0, a rank 1).
   */
  lemma EdgeWithinFirst<K(!new)>(a: K, b: K)
    requires a != b
    ensures IsSuccessorPartition(map[a := [b], b := []], {a, b}, {}, {a, b}, map[],
                                 map[a := 0, b := 0], map[a := a, b := b], map[a := 1, b := 0])
    ensures forall depth, root ::
              !Partitions.IsBfsPartition(map[a := [b], b := []], {a, b}, {}, {a, b}, map[], depth, root)
  {
    var g := map[a := [b], b := []];
    assert Adjacent(g, a, b);
  }

  /**
   * With 0 -> 1, 0 -> 2 and 1 -> 2 and the outer loop reaching 0 first,
   * 1 and 2 are both discovered from 0 and go to the second set, although
   * 2 is also a successor of 1.
   */
  lemma FanSplit(g: Graph<int>, first: set<int>, second: set<int>, seeds: set<int>,
                 parent: map<int, int>, depth: map<int, nat>, root: map<int, int>, rank: map<int, nat>)
    requires g == map[0 := [1, 2], 1 := [2], 2 := []]
    requires IsSuccessorPartition(g, first, second, seeds, parent, depth, root, rank) && seeds == {0}
    ensures first == {0} && second == {1, 2}
  {
    assert Edge(g, 0, 1) && Edge(g, 0, 2);
    assert 1 in parent && 2 in parent && root[1] == 0 && root[2] == 0;
    assert parent[1] == 0;
    assert depth[1] == 1 && depth[2] == 1;
    assert g.Keys == {0, 1, 2};
  }

  /**
   * On the cycle 0 -> 1 -> 0 whichever key the outer loop takes first
   * discovers the other: the two nodes never both seed the first set,
   * since the later seed would have an edge into its tree from the earlier.
   */
  lemma TwoCycleSplits(g: Graph<int>, first: set<int>, second: set<int>, seeds: set<int>,
                       parent: map<int, int>, depth: map<int, nat>, root: map<int, int>, rank: map<int, nat>)
    requires g == map[0 := [1], 1 := [0]]
    requires IsSuccessorPartition(g, first, second, seeds, parent, depth, root, rank)
    ensures (first == {0} && second == {1}) || (first == {1} && second == {0})
  {
    assert Edge(g, 0, 1) && Edge(g, 1, 0);
    assert g.Keys == {0, 1};
    // both seeds would give each other's trees an edge from a later seed
    assert seeds != {0, 1};
    var s :| s in seeds;
    var o := 1 - s;
    assert seeds == {s} && o in parent && parent[o] == s;
  }

  /**
   * keepTop without the size guard: the caller must not ask for more
   * entries than the basket holds. Then exactly n entries remain, each
   * with its weight, none worse than an entry removed.
   */
  method KeepTopUnguarded<K>(n: nat, m: Basket<K>) returns (r: Basket<K>)
    requires n <= |m|
    ensures |r| == n
    ensures Baskets.IsTopOf(n, m, r)
  {
    r := Baskets.KeepTop(n, m);
  }
}
