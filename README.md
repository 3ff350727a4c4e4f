# Approximated personalized PageRank: a Dafny model

This project models the C++ library *approximated_personalized_pagerank*.
The library computes, for every node of a directed graph, a small "basket"
holding its top-K personalized PageRank scores. The graph is a map from
each node to the list of its successors. The model covers these parts of
the library:

- **grank** (`include/grank.h`, `header-only/grank.h`). It splits the
  graph into two sets with a breadth-first bipartition. It starts every
  node with a basket holding 1 - d for itself and d / outdeg for each
  successor, trimmed to the L best entries. Each round rebuilds the
  baskets of one of the two sets from the baskets of their successors, and
  the rounds alternate between the sets. The run stops after `iterations`
  rounds, or earlier once the largest norm-1 change of the last two rounds
  falls below the tolerance. Every basket is then trimmed to its K best
  entries.
- **grankMulti**, in two copies (`include/grankMulti.h` and
  `header-only/grankMulti.h`). The same engine, with each round's rebuild
  split into contiguous index ranges of a vector, one range per worker.
  The header-only copy also splits the initialisation and the final trim.
- **mccompletepathv2** (`header-only/mccompletepathv2.h`). This is the
  Monte-Carlo engine:
  - it computes nodes in a dependency order;
  - each node folds in the baskets of its successors;
  - a successor that has no basket yet gets one from round-robin random
    walks.
- **The internal helpers**, in their copies:
  - keepTop, norm1 and jaccard;
  - the bipartition findPartitions: the maintained one in
    `include/internal/pprInternal.h`, which uses successors and
    predecessors, and the legacy one in `include/pprInternal.h`, which
    uses successors only;
  - Kendall's tau-b (`include/internal/kendall.h`).
- **The exact single-source oracle** `pprSingleSource`
  (`include/pprSingleSource.h`).
- **benchmarkAlgorithm** (`include/benchmarkAlgorithm.h`). It compares a
  table of baskets with the oracle.

How the model stands in for the source:

- `double` is `real`. No rounding is modelled.
- Iteration over an `unordered_map` or `unordered_set` is a choice of any
  remaining key (`:|`). Every property holds whatever order is chosen.
- Multi-threaded loops run their worker ranges one after another. Each
  worker writes only the baskets of its own range and reads a snapshot
  that no worker writes, so the order of the ranges does not matter.
- `exit(EXIT_FAILURE)` after a message becomes an `Err` result carrying
  that message.
- The engines are proved against one shared specification, `Grank.IsRun`.
  It fixes the initial table, what each round does, the stop rule and the
  final trim. The three engines (grank and both grankMulti copies) are
  proved to return a result that satisfies it on the same inputs.
- keepTop is specified by the relation `Baskets.IsTopOf(n, m, r)`:
  - r is a sub-basket of m with the same weights;
  - r has min(n, |m|) entries;
  - every kept weight is at least every removed one.

  Ties make the result non-unique; `Baskets.TopOfUnique` shows it is
  unique without ties.

Copies of the same helper code:

- The helpers of `header-only/grank.h` (findPartitions 79-148, keepTop
  159-186, norm1 197-214) and of `header-only/grankMulti.h` (findPartitions
  83-149, keepTop 160-187, norm1 198-214) are the same code as in
  `include/internal/pprInternal.h`. They are modelled once, by
  `Partitions.FindPartitions`, `Baskets.KeepTop` and `Baskets.Norm1`.
- The same goes for the keepTop of `header-only/mccompletepathv2.h`
  (221-249) and for the norm1 of the legacy `include/pprInternal.h`
  (117-134).
- `header-only/grank.h`'s grank (217-326) is the same algorithm as
  `include/grank.h`'s, and both are `Grank.Grank`.

## Model

| member | source | states |
|---|---|---|
| Baskets.KeepTop | include/internal/pprInternal.h:110-137 | the result is a top-n of the basket (IsTopOf: the same weights on a subset of min(n, \|m\|) keys, none smaller than a removed one); a basket of at most n entries is returned unchanged |
| Baskets.TopOfUnique | include/internal/pprInternal.h:110-137 | when no two weights are equal, the top-n basket is unique |
| Baskets.TopOfSmall | include/internal/pprInternal.h:112 | when the basket has at most n entries, its only top-n is itself |
| Baskets.TopOfIdempotent | include/internal/pprInternal.h:110-137 | trimming an already trimmed basket again to n keeps it as it is |
| Baskets.TopOfCompose | include/grank.h:119 | a top-n2 of a top-n1 (n2 <= n1) is a top-n2 of the original basket, as the trim to L then to K relies on |
| Baskets.Norm1 | include/internal/pprInternal.h:148-165 | returns the sum over m1's keys of the absolute differences, plus the weights of m2's keys missing from m1 |
| Baskets.SumDifferences | include/internal/pprInternal.h:152-158 | the first loop sums \|m1[k] - m2[k]\| (0 when k is missing) over m1's keys |
| Baskets.SumMissing | include/internal/pprInternal.h:161-162 | the second loop sums the weights of m2's keys that m1 lacks |
| Baskets.Norm1Self | test/internal/norm1Test.cc:27-34 | the norm-1 distance of a basket from itself is 0 |
| Baskets.Norm1IsL1 | include/internal/pprInternal.h:140-147 | when m2 is non-negative, norm1 is the L1 distance of the two baskets read as vectors that are 0 off their keys, and is non-negative |
| Baskets.Norm1Symmetric | test/internal/norm1Test.cc:52-84 | on non-negative baskets, norm1 does not depend on the order of its arguments |
| Baskets.Norm1ZeroIff | include/internal/pprInternal.h:148-165 | when m2 is non-negative, norm1 is 0 exactly when the two baskets agree on every key |
| Baskets.Norm1NegativeWeight | include/internal/pprInternal.h:161-162 | the second loop adds a missing weight without its absolute value: a lone weight -1 gives -1 in one order and 1 in the other |
| Baskets.Jaccard | include/internal/pprInternal.h:174-186 | returns 1 for two empty sets, otherwise \|a ∩ b\| / \|a ∪ b\| |
| Baskets.JaccardRange | test/internal/jaccardTest.cc:48-79 | the index lies in [0, 1] and is 1 exactly when the sets are equal |
| Baskets.JaccardSymmetric | include/internal/pprInternal.h:174-186 | the index does not depend on the order of the sets |
| Baskets.JaccardDisjoint | test/internal/jaccardTest.cc:70-79 | two disjoint sets that are not both empty have index 0 |
| Partitions.Predecessors | include/internal/pprInternal.h:33-43 | the predecessor index lists every node, and each p appears in v's list once for each edge p -> v |
| Partitions.AppendPredecessor | include/internal/pprInternal.h:40-41 | one node's successors append the node to each successor's predecessor list |
| Partitions.PredecessorIsEdge | include/internal/pprInternal.h:40-41 | every predecessor listed for v has an edge to v |
| Partitions.EdgeIsPredecessor | include/internal/pprInternal.h:40-41 | every edge p -> v lists p among v's predecessors |
| Partitions.Discover | include/internal/pprInternal.h:76-94 | the not yet visited candidates are marked visited, added to the chosen set and queued, and nothing else changes |
| Partitions.FindPartitions | include/internal/pprInternal.h:30-99 | the two sets split the nodes. Every node other than a seed has a parent adjacent to it (by an edge in either direction) in the other set. Every neighbour of a seed lies in the second set. There is a seed whenever the graph is not empty. The split is breadth-first: each node has a depth (0 at a seed, its parent's plus 1 otherwise) and a root seed, the first set holds exactly the even depths, and adjacent nodes share their root and differ in depth by at most one |
| Partitions.FiveCycleSplit | include/internal/pprInternal.h:44-99 | on the 5-cycle 0 -> 1 -> 2 -> 3 -> 4 -> 0 seeded at 0, the sets are exactly {0, 2, 3} and {1, 4} |
| Partitions.FiveCycleDepths | include/internal/pprInternal.h:44-99 | on that 5-cycle the depths are the distances from 0 ignoring direction: 0, 1, 2, 2, 1 |
| Partitions.EdgelessAllFirst | test/internal/findPartitionsTest.cc:20-31 | without edges every node is in the first set |
| Partitions.EmptyGraphEmptySets | test/internal/findPartitionsTest.cc:12-18 | the empty graph gives two empty sets |
| Partitions.SoleNeighbourOpposite | include/internal/pprInternal.h:76-94 | a node whose only neighbour is v lies in the other set from v |
| Partitions.PairSplits | test/internal/findPartitionsTest.cc:51-64 | two nodes joined only to each other end up in different sets |
| Partitions.StarSplits | test/internal/findPartitionsTest.cc:33-49 | when a centre has an edge to every node (itself included) and no other node has edges, the centre lies alone in one of the sets and the rest fill the other |
| Partitions.CompleteGraphSplits | test/internal/findPartitionsTest.cc:84-97 | in a complete graph one node lies alone in the first set and the rest fill the second |
| LegacyInternal.FindPartitions | include/pprInternal.h:26-72 | the two sets split the nodes, and every node other than a seed has a parent with an edge to it in the other set (successors only). Each node has a depth (0 at a seed, its parent's plus 1 otherwise) and a root seed, and the first set holds exactly the even depths. The seeds carry distinct ranks, and no edge leads into the tree of a later seed, so a seed's tree holds every node reachable from it that no earlier seed took. An edge between nodes of one root goes at most one level deeper, so the depths are breadth-first distances within each tree |
| LegacyInternal.Explore | include/pprInternal.h:37-67 | one round of the outer loop: an unvisited key becomes a seed with the next rank, the queue is drained, and the invariant (sets, parents, layering, ranks) holds again with the key visited |
| LegacyInternal.TwoCycleSplits | include/pprInternal.h:37-67 | on the 2-cycle 0 -> 1 -> 0 every legacy result puts one node in each set: whichever node the outer loop takes first discovers the other (the paired-nodes split that test/internal/findPartitionsTest.cc:51-64 expects) |
| LegacyInternal.FanSplit | include/pprInternal.h:49-67 | with 0 -> 1, 0 -> 2, 1 -> 2 seeded at 0 alone, 1 and 2 are both discovered from 0: the sets are exactly {0} and {1, 2} |
| LegacyInternal.NoInEdgeInFirst | include/pprInternal.h:37-47 | a node that no edge enters lies in the first set |
| LegacyInternal.EdgeWithinFirst | include/pprInternal.h:26-72 | the legacy split a -> b with both in the first set is a legal legacy result that the maintained bipartition cannot produce |
| LegacyInternal.KeepTopUnguarded | include/pprInternal.h:82-106 | the legacy keepTop, which lacks the size check, keeps exactly n entries forming a top-n, for n at most the basket's size |
| Oracle.PprSingleSource | include/pprSingleSource.h:30-76 | fails with the source's messages, in its order: iterations, then damping, then an unknown source. It succeeds otherwise, and then returns the scores after the number of power-iteration rounds the stop rule runs |
| Oracle.PowerIteration | include/pprSingleSource.h:43-75 | the loop's result is Iterate(n), for the n that obeys the stop rule on the round distances |
| Oracle.Advance | include/pprSingleSource.h:52-72 | one round moves from Iterate(i) to Iterate(i + 1) and returns the norm-1 distance of round i |
| Oracle.Round | include/pprSingleSource.h:54-67 | the next map is 1 - d at the source plus score * d / outdeg from each node to each successor |
| Oracle.SpreadFather | include/pprSingleSource.h:60-66 | one node's scores are added along its edges, and a node without edges adds nothing |
| Oracle.AddShare | include/pprSingleSource.h:65-66 | the inner loop adds the share once per occurrence of a successor |
| Oracle.NextScoresMeaning | include/pprSingleSource.h:54-67 | the next map's keys are the source and the successors of the current keys, each holding its teleport part plus what it receives |
| Oracle.IterateZero | include/pprSingleSource.h:47 | before any round the source alone holds 1 |
| Oracle.IterateStep | include/pprSingleSource.h:54-72 | each iterate is the next-score map of the one before |
| Oracle.IterateKeys | include/pprSingleSource.h:50-73 | after n rounds the keys are the nodes reachable from the source in at most n steps |
| Oracle.IterateInGraph | include/pprSingleSource.h:62 | every scored key is a node of the graph |
| Oracle.IterateNonNegative | include/pprSingleSource.h:55-66 | for damping in [0, 1] every score is non-negative |
| Oracle.StopsAfterOnce | include/pprSingleSource.h:50 | the stop rule fixes the number of rounds |
| Oracle.NegativeToleranceRunsAll | include/pprSingleSource.h:40-41 | a negative tolerance runs all the iterations |
| Oracle.IsolatedSource | test/internal/pprSingleSourceTest.cc:22-54 | a source without edges ends with only itself at 1 - d |
| Oracle.SelfLoopSource | include/pprSingleSource.h:54-67 | a source whose only edge is to itself keeps score 1 in every round |
| Oracle.SelfLoopStopsAtOnce | include/pprSingleSource.h:50-70 | with a positive tolerance that source stops after one round |
| Kendall.ZipPairs | include/internal/kendall.h:25-28 | the pair vector is (x[i], y[i]) for every index of x |
| Kendall.SortXY | include/internal/kendall.h:29-35 | the pairs sorted by x, then by y: a permutation, ordered |
| Kendall.InsertXYSorted | include/internal/kendall.h:29-35 | inserting into a sorted vector keeps it sorted |
| Kendall.InsertXY | include/internal/kendall.h:29-35 | inserting one pair adds exactly that pair to the multiset of the vector |
| Kendall.MergeHeads | include/internal/kendall.h:108-130 | the merge of the two heads takes the smaller y first, and each pair taken from the right block adds the left elements still waiting to the count, until one block runs out |
| Kendall.CopyRight | include/internal/kendall.h:136-137 | the rest of the right block is copied with no change to the count |
| Kendall.CopyLeft | include/internal/kendall.h:142-143 | the rest of the left block is copied with no change to the count |
| Kendall.MergeBlockPair | include/internal/kendall.h:97-143 | merging one pair of neighbouring blocks carries the pass invariant two blocks further |
| Kendall.PassCounts | include/internal/kendall.h:29-35 | the counts on the two sorted copies equal those on the input pairs, and the y-inversions of the (x, y)-sorted copy are the discordant pairs |
| Kendall.CountTiesXY | include/internal/kendall.h:39-79 | the run scan counts exactly the pairs of indices tied in x, and those tied in both x and y |
| Kendall.MergeRuns | include/internal/kendall.h:97-143 | merging two sorted blocks gives a sorted permutation of them, and counts exactly the cross pairs whose left element has the larger y |
| Kendall.MergePass | include/internal/kendall.h:92-145 | one pass doubles the sorted block length, keeps the multiset of pairs, and its count plus the inversions left equals the inversions before |
| Kendall.SortByY | include/internal/kendall.h:86-146 | the merge sort returns a permutation sorted by y, and `discording` is the number of y-inversions of the input |
| Kendall.CountTiesY | include/internal/kendall.h:150-162 | on the y-sorted vector the scan counts exactly the pairs tied in y |
| Kendall.InversionsAreDiscordant | include/internal/kendall.h:82-85 | on a vector sorted by (x, y), the y-inversions are exactly the discordant pairs |
| Kendall.CountPermutation | include/internal/kendall.h:29-35 | symmetric pair counts do not change under permutation, so the counts on sorted copies are those of the input |
| Kendall.TauBOfCounts | include/internal/kendall.h:165-179 | the closing formula gives tau-b of the input pairs: num / sqrt(den2), or 1 or 0 when den2 is 0 depending on whether the x and y tie counts are equal |
| Kendall.KendallCorrelation | include/internal/kendall.h:22-180 | returns tau-b of the pairs (x[i], y[i]), for y at least as long as x |
| Kendall.TauBIdentical | include/internal/kendall.h:165-179 | a vector against itself has tau-b 1: either the degenerate 1, or num > 0 with num² = den2 |
| Kendall.TauBReversed | include/internal/kendall.h:165-179 | a vector against its negation has tau-b -1, or the degenerate 1 when everything is tied |
| Kendall.TauBShort | include/internal/kendall.h:165-179 | at most one pair gives the degenerate value 1 |
| Kendall.TauBRatioPositive | include/internal/kendall.h:178 | a non-degenerate tau-b has a positive den2 |
| Grank.CheckParams | include/grank.h:51-55 | the parameter checks fail, in the source's order and with its messages, exactly when not 0 < K <= L, iterations > 0 and d in [0, 1] |
| Grank.InitBasketMeaning | include/grank.h:70-80 | the initial basket holds v and its successors: 1 - d at v plus d / outdeg for each edge |
| Grank.InitScores | include/grank.h:64-83 | every node's initial basket is a top-L of its initial scores |
| Grank.NewBasketMeaning | include/grank.h:100-116 | a rebuilt basket holds v and the keys of its successors' baskets, with 1 - d at v plus d / outdeg times the successors' total weight |
| Grank.BuildBasket | include/grank.h:100-116 | the loop over the successors' baskets builds exactly that basket |
| Grank.AddBasket | include/grank.h:114-115 | adding one successor's basket times the factor gives the basket plus w times each of its weights |
| Grank.UpdateOne | include/grank.h:100-123 | v's new basket is a top-L of the rebuilt one, and diff is its norm-1 distance from the old basket |
| Grank.UpdateActive | include/grank.h:94-126 | every node of the active set gets its trimmed rebuilt basket, and every other entry is untouched. maxDiff is the largest distance, or 0 |
| Grank.CarryOver | include/grank.h:133-134 | every idle node's basket is carried into the next table |
| Grank.Round | include/grank.h:94-140 | one round satisfies IsRound: active baskets rebuilt from the current table, idle ones carried, diff the largest change |
| Grank.ActiveAlternates | include/grank.h:129 | the rebuilt set alternates with period two |
| Grank.ActivePair | include/grank.h:129 | two consecutive rounds together rebuild every node exactly once |
| Grank.FinalTrim | include/grank.h:143-147 | every basket is cut to a top-K |
| Grank.RunRounds | include/grank.h:85-141 | the loop produces a run: the initial table, alternating rounds, and the stop rule on the larger of the last two distances |
| Grank.OneRound | include/grank.h:92-141 | one pass through the loop body keeps the loop invariant (the run so far, the table, the two partitions and the two distances) and adds one round |
| Grank.SlotsTest | include/grank.h:90-92 | the loop test max(maxDiff[0], maxDiff[1]) is the tolerance before any round, and afterwards the larger of the last two rounds' distances |
| Grank.SlotsShift | include/grank.h:94-140 | resetting maxDiff[0], raising it and swapping the two slots keeps that meaning |
| Grank.RunExtend | include/grank.h:92-141 | a round taken while the loop test holds extends the run by one table and one distance |
| Grank.Grank | include/grank.h:43-150 | invalid parameters give the checks' error. Otherwise the result is a top-K trim of the last table of a run from a bipartition the bipartitioner can produce |
| GrankFacts.ResultShape | test/grankTest.cc:31-68 | the result has a basket for every node, each of at most K entries, and the empty graph gives the empty result |
| GrankFacts.TableSizes | include/grank.h:82 | every basket of every table in the run has at most L entries |
| GrankFacts.AtLeastTwoRounds | include/grank.h:86-92 | with two or more iterations at least two rounds run, so both sets are rebuilt |
| GrankFacts.EarlyStopSettled | include/grank.h:92 | stopping early means both of the last two rounds moved less than the tolerance |
| GrankFacts.GoingOnUnsettled | include/grank.h:92 | every round that led to another had one of its last two distances at or above the tolerance |
| GrankFacts.NegativeToleranceRunsAll | include/grank.h:56-57 | a negative tolerance runs all the iterations |
| GrankFacts.ResultNonNegative | include/grank.h:76-115 | for d in [0, 1] every returned score is non-negative |
| GrankFacts.SinkTables | include/grank.h:76-101 | a node without successors holds exactly itself at 1 - d throughout |
| GrankFacts.EdgelessResult | test/grankTest.cc:38-50 | without edges every node's result is itself at 1 - d |
| GrankFacts.StarResult | test/grankTest.cc:154-167 | a leaf i -> c of a sink c ends with {i: 1 - d, c: d(1 - d)}, and c with {c: 1 - d} |
| GrankFacts.NodeCarried | include/grank.h:133-134 | a node not rebuilt in a round keeps its basket |
| GrankFacts.NodeRebuilt | include/grank.h:96-125 | a node rebuilt in a round gets a top-L of its rebuilt basket over the previous table |
| GrankMulti.CheckMultiParams | include/grankMulti.h:101-106 | grank's checks, then a positive thread count, with the source's message |
| GrankMulti.MaintainedRanges | include/grankMulti.h:157-176 | the workers' index ranges are the chunks size / n apart, the last one running to the end |
| GrankMulti.HeaderOnlyRanges | header-only/grankMulti.h:377-384 | the header-only range computation gives the same chunks |
| GrankMulti.ChunksPartition | include/grankMulti.h:157-176 | every index of the vector lies in exactly one worker's range |
| GrankMulti.CutMonotone | include/grankMulti.h:160-171 | the range bounds grow from 0 to the vector's size |
| GrankMulti.Ranges | include/grankMulti.h:157-176 | either copy's computation gives the chunk ranges |
| GrankMulti.ToVector | include/grankMulti.h:142-145 | copying a set into a vector lists each element once |
| GrankMulti.CombineMaps | include/grankMulti.h:32-71 | a worker writes only its range's baskets, rebuilds each as grank does, and raises its maximum to their largest distance |
| GrankMulti.RunThreads | include/grankMulti.h:158-179 | all the workers together rebuild the whole active vector, and the per-worker maxima reduce to its largest distance |
| GrankMulti.ReduceMax | include/grankMulti.h:189-190 | the reduction is the maximum of the workers' maxima and 0 |
| GrankMulti.MaxOfMeaning | include/grankMulti.h:189-190 | that maximum bounds every entry and is one of them, or 0 |
| GrankMulti.CarryVector | include/grankMulti.h:186-187 | idle nodes' baskets are carried over from the current table |
| GrankMulti.MultiRound | include/grankMulti.h:155-196 | a chunked round satisfies the same IsRound as a sequential one |
| GrankMulti.MultiOneRound | include/grankMulti.h:150-197 | one pass through the chunked loop body keeps grank's loop invariant and adds one round |
| GrankMulti.RunMultiRounds | include/grankMulti.h:150-197 | the chunked loop produces a run in the sense of grank |
| GrankMulti.MultiInit | include/grankMulti.h:117-140 | the initial table is grank's, and every node also gets an empty next basket |
| GrankMulti.MaintainedGrankMulti | include/grankMulti.h:91-203 | the checks' error, or a result that grank itself can return on the same inputs |
| GrankMultiHeader.Prefill | header-only/grankMulti.h:308-320 | the key vector lists every node once, and both tables hold an empty basket for every node |
| GrankMultiHeader.DoJob | header-only/grankMulti.h:335-352 | one node's work in a worker: the initial basket trimmed to L, or its basket trimmed to K |
| GrankMultiHeader.ChunkJob | header-only/grankMulti.h:333-353 | one worker's range gets the job's result, and only that range is written |
| GrankMultiHeader.RunJob | header-only/grankMulti.h:323-358 | all the workers together apply the job to every node of the vector, and nothing else changes |
| GrankMultiHeader.JobJoin | header-only/grankMulti.h:356-357 | the results of two workers over disjoint ranges combine |
| GrankMultiHeader.InitFromBlank | header-only/grankMulti.h:323-358 | the initialising job applied to every blank basket gives grank's initial table |
| GrankMultiHeader.TrimmedFrom | header-only/grankMulti.h:414-431 | the trimming job applied to every basket gives a top-K trim |
| GrankMultiHeader.ChunkedInit | header-only/grankMulti.h:323-358 | the chunked initialisation yields grank's initial table |
| GrankMultiHeader.ChunkedTrim | header-only/grankMulti.h:414-431 | the chunked final step cuts every basket to a top-K |
| GrankMultiHeader.HeaderOnlyGrankMulti | header-only/grankMulti.h:287-434 | the checks' error, or a result that grank itself can return on the same inputs |
| MonteCarlo.SortByDegree | header-only/mccompletepathv2.h:95-110 | the nodes listed once each, by decreasing in-degree, ties by increasing out-degree |
| MonteCarlo.SortsBeforeOrder | header-only/mccompletepathv2.h:95-110 | the sort order is irreflexive and transitive |
| MonteCarlo.InitWaitFor | header-only/mccompletepathv2.h:119-122 | each node's counter is the number of its out-edges into nodes not yet emitted |
| MonteCarlo.Release | header-only/mccompletepathv2.h:146-155 | after a node is emitted, each predecessor's counter drops once per edge. Those reaching 0 are queued once each, unless already visited |
| MonteCarlo.Drain | header-only/mccompletepathv2.h:130-157 | draining the queue from a seed emits nodes that each come after all their successors, and stops only when no unemitted node with successors has all of them emitted |
| MonteCarlo.SeedAll | header-only/mccompletepathv2.h:128-158 | the order lists every node once. A node that was queued comes after all its successors. A seed comes after every node sorting before it, and only once the queue is drained |
| MonteCarlo.ExecutionOrder | header-only/mccompletepathv2.h:78-160 | the order is an emission order (Emits) over all nodes: each seed is the first unemitted node in degree order, taken only when no node is ready. Every other node has successors (a dead end is never released from the queue, only seeded) and follows all of them |
| MonteCarlo.SeedNext | header-only/mccompletepathv2.h:128-158 | one round of the outer loop: the k-th node of the degree order, if still unvisited, is emitted as a seed and the queue drained; the emission order and the counters stay consistent and no node is left ready |
| MonteCarlo.InDegreeFrom | header-only/mccompletepathv2.h:95-110 | a node whose incoming edges come exactly from the list `from` has in-degree `|from|` in the predecessor index |
| MonteCarlo.ForkChainDegrees | header-only/mccompletepathv2.h:95-110 | on the graph 0 -> 2, 1 -> 2, 2 -> 3 -> 4 the in-degrees are 0, 0, 2, 1, 1 |
| MonteCarlo.ForkChainNext | header-only/mccompletepathv2.h:128-158 | on that graph, given the nodes emitted so far, the next node is forced: 2 first, then 0 or 1, then the other, then the dead end 4 as a seed, then 3 |
| MonteCarlo.ForkChainSteps | header-only/mccompletepathv2.h:128-158 | on that graph an emission order has five positions, each holding the node ForkChainNext forces |
| MonteCarlo.ForkChainOrder | header-only/mccompletepathv2.h:78-160 | on that graph the emission order is [2, 0, 1, 4, 3] or [2, 1, 0, 4, 3] |
| MonteCarlo.ReadyBeforeSeed | header-only/mccompletepathv2.h:128-158 | the queue is drained before the next seed: a node with successors, all emitted by position i, is emitted before any seed after position i |
| MonteCarlo.EmitsAt | header-only/mccompletepathv2.h:128-158 | each position of an emission order holds a node not emitted earlier, after all its successors unless a seed, and a seed only when no node is ready |
| MonteCarlo.Walk | header-only/mccompletepathv2.h:183-203 | the counts, round-robin indexes and draws left are exactly those of WalkFrom: hop along the next successor of the current node, count the node reached if counted already or below the cap, stop at a dead end or a failed draw. The walk only raises counts, keeps capped counts capped and valid indexes valid, and uses up draws |
| MonteCarlo.WalkHop | header-only/mccompletepathv2.h:186-203 | away from a dead end a walk makes one hop, then goes on from the node reached exactly when the draw passes |
| MonteCarlo.HopKept | header-only/mccompletepathv2.h:186-203 | one hop keeps the counts raised and capped, the indexes valid and the draws used up |
| MonteCarlo.CountHop | header-only/mccompletepathv2.h:199-200 | counting the node reached (when counted already or below the cap) keeps the counts capped and never lowers a count |
| MonteCarlo.WalkUsesEveryDraw | header-only/mccompletepathv2.h:186-203 | in a graph without dead ends and with every draw passing, a walk stops only when the draws run out |
| MonteCarlo.WalkNode | header-only/mccompletepathv2.h:163-212 | a dead end gets itself at 1 and draws nothing. Otherwise the node counted `walks` times, then WalkCount(walks, d) walks in a row, then every count divided by `walks`; the indexes and draws are where those walks leave them. Either way a walk result: at most `cap` positive entries, the node itself at least 1 |
| MonteCarlo.WalkCountBound | header-only/mccompletepathv2.h:179 | the walks actually run are at most those asked for, and all of them when d is 1 |
| MonteCarlo.DivideAll | header-only/mccompletepathv2.h:206-207 | every count is divided by the number of walks |
| MonteCarlo.CountsToMeans | header-only/mccompletepathv2.h:171-207 | dividing the counts of a node with successors by the walks run gives a result that satisfies the walk result's properties |
| MonteCarlo.McFactor | header-only/mccompletepathv2.h:299 | the factor is 1 for a dead end and non-zero for a non-zero damping |
| MonteCarlo.FoldSuccessors | header-only/mccompletepathv2.h:311-327 | the start basket plus each successor's basket, walking the successors that have none yet |
| MonteCarlo.ScaleAll | header-only/mccompletepathv2.h:331-332 | every kept weight is multiplied by the factor |
| MonteCarlo.InitIndex | header-only/mccompletepathv2.h:287-291 | every node's round-robin index starts at 0 |
| MonteCarlo.ComputeNode | header-only/mccompletepathv2.h:297-334 | a node's basket is a top-L of the fold, times its factor |
| MonteCarlo.DoneStep | header-only/mccompletepathv2.h:295-334 | recording the nodes computed before the node at position i keeps the records of the earlier positions |
| MonteCarlo.ComputeAll | header-only/mccompletepathv2.h:295-335 | along the order every node is settled: its basket is the scaled top-L of its start basket plus one basket per successor, which is the successor's final basket when the successor comes earlier in the order and a walk result from the successor otherwise |
| MonteCarlo.MonteCarloPpr | header-only/mccompletepathv2.h:266-344 | the checks' error, or a run: an emission order, every node settled along it (final baskets of earlier successors, walk results for the others), and the trim to top-K |
| MonteCarlo.DeadEndSettled | header-only/mccompletepathv2.h:209-210 | a dead end's computed basket is itself at 1 |
| MonteCarlo.McResultShape | test/mccompletepathv2HeaderOnlyTest.cc:31-68 | every node has a result of at most K entries, and a dead end's is itself at 1 |
| MonteCarlo.ReleasedUsesFinal | header-only/mccompletepathv2.h:313-334 | a node released from the queue folded in exactly the final baskets of its successors |
| MonteCarlo.OverDeadEnds | test/mccompletepathv2HeaderOnlyTest.cc:154-205 | a node whose fewer than K successors are distinct dead ends other than itself holds itself at 1 and each successor at d / outdeg |
| MonteCarlo.FanOut | header-only/mccompletepathv2.h:311-332 | folding unit baskets of distinct successors and scaling gives that same basket |
| MonteCarlo.DeadEndInputs | header-only/mccompletepathv2.h:311-334 | a node whose successors are all dead ends folds in exactly their unit baskets, whether they were computed before it or walked |
| MonteCarlo.FanScale | header-only/mccompletepathv2.h:311-332 | scaling the start 1 / factor and the unit successors by the factor gives 1 for the node and d / outdeg for each successor |
| Benchmark.SelectNodes | include/benchmarkAlgorithm.h:57-73 | fails, naming the key, exactly when a key of the table is not a node. Otherwise it lists the selected keys once each: all of them, or in strict mode those with successors |
| Benchmark.Column | include/benchmarkAlgorithm.h:111-119 | the vector holds the basket's score for each key, and 0 for a key it lacks |
| Benchmark.ScoreVectors | include/benchmarkAlgorithm.h:111-119 | for each basket key, its score and the untrimmed oracle's score (0 when missing), in one key order |
| Benchmark.EvaluateNode | include/benchmarkAlgorithm.h:83-123 | one node is compared with the oracle (100 rounds, 0.85, 0.0001). The Jaccard index of the basket's keys and the oracle's top of the same size is computed, and so is tau-b of the two score vectors |
| Benchmark.EvaluateAll | include/benchmarkAlgorithm.h:81-126 | every selected node is evaluated, and the sums, minima and size total accumulate |
| Benchmark.EvaluateNext | include/benchmarkAlgorithm.h:83-125 | one pass through the loop body evaluates the next node and adds its results to the sums and minima |
| Benchmark.EvaluateAt | include/benchmarkAlgorithm.h:83-123 | the next node's evaluation extends the list of evaluations |
| Benchmark.Accumulate | include/benchmarkAlgorithm.h:103-125 | the sums, minima and size total grow by the node's results |
| Benchmark.Sizes | include/benchmarkAlgorithm.h:125 | the size of each selected node's basket |
| Benchmark.Report | include/benchmarkAlgorithm.h:128-135 | the result holds exactly the five statistics' keys |
| Benchmark.BenchmarkAlgorithm | include/benchmarkAlgorithm.h:48-137 | the not-found failure, or the five statistics of the evaluated nodes: averages over their count (NaN for none), minima started at 1 |
| Benchmark.JaccardStatistics | include/benchmarkAlgorithm.h:103-105 | the Jaccard minimum lies in [0, 1]. The average is NaN exactly when no node is selected, and otherwise lies between the minimum and 1 |
| Benchmark.NoNodeSelected | include/benchmarkAlgorithm.h:128-135 | with nothing selected the averages are NaN and the minima 1 |
| Benchmark.LeastBounds | include/benchmarkAlgorithm.h:77-123 | a running minimum started at 1 is at most 1 and each entry, and is one of them or 1 |
| Benchmark.AverageBounds | include/benchmarkAlgorithm.h:128-131 | an average over a positive count of values within [lo, hi] is a number within [lo, hi] |
| Benchmark.JaccardsInRange | include/benchmarkAlgorithm.h:94-105 | every node's Jaccard index lies in [0, 1] |
| Benchmark.UnitStatistics | include/benchmarkAlgorithm.h:128-135 | values in [0, 1] have a minimum in [0, 1] and, when there are some, an average between the minimum and 1 |
| Benchmark.SizesSum | include/benchmarkAlgorithm.h:125 | the size total is the sum of the selected baskets' sizes, whatever the order |
| Benchmark.AverageMapSize | include/benchmarkAlgorithm.h:125-130 | the size statistic is the mean basket size of the selected nodes |
| Benchmark.SelfEvaluation | test/benchmarkAlgorithmTest.cc:66-82 | a basket that is the oracle's own result scores Jaccard 1 and Kendall 1 |
| Benchmark.OracleUnique | include/benchmarkAlgorithm.h:86 | the oracle's result is unique, so comparing with it is well defined |
| Benchmark.KendallOfNegated | include/benchmarkAlgorithm.h:111-121 | a basket against its negation gives Kendall -1, unless every score is tied |
| Benchmark.DeadEndOracle | include/pprSingleSource.h:54-67 | the oracle's result for a dead end holds only the node |
| Benchmark.NegatedEvaluation | test/benchmarkAlgorithmTest.cc:117-137 | a basket with the oracle's keys and negated scores scores Jaccard 1 and Kendall -1, unless every score is tied |
| Benchmark.DeadEndEvaluation | test/benchmarkAlgorithmTest.cc:55-64 | a dead end whose basket is itself scores 1 and 1 |
| Benchmark.OracleAgainstItself | test/benchmarkAlgorithmTest.cc:66-82 | when every basket is the oracle's result, all four statistics are 1 |
| Benchmark.AllOnes | include/benchmarkAlgorithm.h:128-135 | values all 1 have average 1 and minimum 1 |
| Benchmark.PerfectStatistics | include/benchmarkAlgorithm.h:128-135 | when every node scores 1 and 1, all four statistics are 1 |
| Benchmark.EdgelessGraph | test/benchmarkAlgorithmTest.cc:55-64 | without edges, with every basket being its node alone, all four statistics are 1 |
| Benchmark.KendallOfItself | include/benchmarkAlgorithm.h:111-121 | a basket correlated with itself gives Kendall 1 |

## Left out

- Output and process control. The messages written to `cout`/`cerr` and
  `exit(EXIT_FAILURE)` are modelled as `Err` values. `src/main.cc` (file
  reading and the command line) is not part of this model.
- Threads. Worker ranges run one after another; the argument that this is
  safe is given above. Thread creation and joining are not modelled.
- Floating point. `double` is `real`, without rounding, NaN or infinities.
  The one exception is the benchmark's averages over zero nodes, which are
  an explicit `NaN` value. `sqrt` in the Kendall formula is a parameter
  `root` required to be a square root.
- Randomness:
  - the continuation draws of the Monte-Carlo walks are a parameter
    `coins` (true = go on), and an exhausted stream stops the walk;
  - `std::random_device`/`mt19937` are not modelled;
  - the benchmark's `shuffle` is left out, because every selected node is
    evaluated and the statistics do not depend on the order.
- Benchmark.BenchmarkAlgorithm: `testNodes` is never read by the code, and
  the model follows that. The tests at test/benchmarkAlgorithmTest.cc:21-31
  expect a "testNodes must be positive" failure, and those at 33-53 expect
  -1 for empty selections. The code gives NaN averages and minima of 1
  instead, and the model follows the code.
- Benchmark.NegatedEvaluation: allows the degenerate value 1 when every
  score is tied, because the source returns 1 there, not -1.
- Kendall.KendallCorrelation: returns the exact rational tau-b. The range
  [-1, 1] of num / sqrt(den2) is not proved. The 64-bit counters are
  unbounded here (no wrap-around on more than about 6·10^9 pairs).
- Kendall.SortXY: `std::sort`'s unstable order is modelled as a sorted
  permutation; which of several equal pairs comes first does not matter
  to any count.
- keepTop's internals:
  - `nth_element`, the choice between erasing and rebuilding, `reserve`
    and `rehash` are left out;
  - among tied weights, which keys survive is left open (IsTopOf).
- Partitions.FindPartitions: the copy in header-only/grankMulti.h:83-149
  has no `return` statement, so a call is undefined behaviour. The model
  gives it the intended result of the other copies.
- include/grankMulti.h includes `<pprInternal.h>`. Which copy that resolves
  to depends on the include path. The model uses the maintained copy
  (include/internal/pprInternal.h); the legacy keepTop and findPartitions
  are modelled separately in LegacyInternal.
- GrankMulti.MaintainedGrankMulti and
  GrankMultiHeader.HeaderOnlyGrankMulti: both require nThreads < 2^64
  because the thread count is a `size_t`.
- MonteCarlo.MonteCarloPpr: requires d != 0, because with d = 0 the
  code's `1.0 / factor` divides by zero.
- MonteCarlo.Walk: the continuation draws are a finite sequence of
  booleans, so a model walk always stops. In the code a draw from [0, 1)
  passes when it is at most d; with d = 1 every draw passes, and a walk that
  reaches a cycle without dead ends never stops (WalkUsesEveryDraw: such a
  walk uses every draw it is given).
- MonteCarlo.ComputeAll: a successor that comes later in the order is fed
  some walk result (IsWalk). Which one depends on the round-robin indexes
  and draws that earlier walks left behind, and the run's contract does not
  carry those across nodes.
- MonteCarlo.MonteCarloPpr: the same as for ComputeAll. The seeds follow
  the degree sort, each waits for the queue to drain, and a dead end is
  only ever a seed (Emits). Two orders are left open: among the nodes that
  are ready at once, the first-in first-out order in which the queue
  releases them; and among the nodes tied in the sort, their order
  (`std::sort` is not stable). ForkChainOrder shows the first on one
  graph: 0 and 1 are released together, and either may come first.
- include/mccompletepathv2.h is a stub (its body is in the header-only
  file) and is not part of this model.
- Convergence. That the power iteration or grank converge to PageRank is
  not proved: the test-file comparisons with the oracle on random graphs
  rely on numerics.
