# Customized paths and rank diffusion in HugeGraph, modelled in Dafny

This project models three pieces of HugeGraph's traversal layer.

**`CustomizePathTraverser`** walks a graph level by level from a set of
source vertices, one `Step` per level. A step holds a direction, edge labels,
properties, a weight property or default weight, a degree cap and a sample
size.
- The frontier is a multivalued map from a vertex id to the parent-linked
  `Node`s that end there.
- A target already on a node's path is skipped.
- Every new node counts against a `capacity` budget.
- On the last level of an unsorted walk, every new node counts against the
  path `limit`.
- A step with `sample > 0` keeps a random subset of each vertex's new nodes.
- The last frontier becomes `Path`s, or `WeightPath`s that carry per-edge
  weights and their total.
- `topNPath` sorts weighted paths by total weight and keeps the first `limit`.

**`RankAlgorithm`** runs `maxDepth` rounds of rank diffusion over one edge
label. In each round, every seed spreads `rank * alpha / degree` to each of
its neighbours.
- `personalRank` keeps two growing seed sets, OUT and IN, and gives the source
  `1 - alpha` back after every round.
- `neighborRank` replaces the seeds by the vertices reached, flips the
  direction, adds the increments to the ranks, and attenuates the seeds' ranks
  by `1 - alpha`.

**`CustomizedPathsAPI`** sits in front of the traverser. It checks the request
body, selects the source vertices, and turns each JSON step into a traverser
step, with its degree and sample checks. `sort_by` decides whether the walk is
sorted and whether `topNPath` runs, in increasing or decreasing order.

The modules follow the source:
- `Base` holds ids, `Direction`, `Result` and the errors.
- `Nodes` holds `Node`, `WeightNode.weights`, `Path` and `WeightPath`.
- `Multivalued` holds the frontier map.
- `Sampling` holds `randomSet` and `sample`.
- `Traverser` holds `customizedPaths`, with its loop bodies as methods.
- `TopN` holds `topNPath`, working in place on an array.
- `Rank` holds the `RankAlgorithm` class.
- `PathsApi` holds the request layer.

Graph storage enters as functions passed in:
- `EdgeOracle`: the edges of a vertex for a step.
- `RankGraph`: adjacency, degree and vertex labels.
- `Store`: vertex lookups and edge label ids.

Correctness is stated against reference definitions:
- `Traverser.ValidPath`: a simple walk of exactly one edge per step, from a
  source vertex.
- `TopN.IsTopN`: the chosen paths.
- `Rank.RankAlgorithm.IncrFrom`, `OneIncr`, `BothIncr`, `Combined`,
  `PersonalRounds` and `NeighborRounds`: the rank rounds, defined as functions.

## Model

Source paths are relative to the repository root.

| member | source | states |
|---|---|---|
| Nodes.Contains | hugegraph-core/src/main/java/com/baidu/hugegraph/traversal/algorithm/CustomizePathTraverser.java:84-87 | the cycle guard holds exactly when the target is one of the ids on the node's root-to-node path |
| Nodes.PathOf | hugegraph-core/src/main/java/com/baidu/hugegraph/traversal/algorithm/CustomizePathTraverser.java:135-137 | a node's path has one id more than the node has edges, starts at the root's id and ends at the node's own id |
| Nodes.Weights | hugegraph-core/src/main/java/com/baidu/hugegraph/traversal/algorithm/CustomizePathTraverser.java:203-212 | the collect-then-reverse loop returns the chain's edge weights in root-to-node order, one per edge, without the root's weight |
| Nodes.CalcTotalWeight | hugegraph-core/src/main/java/com/baidu/hugegraph/traversal/algorithm/CustomizePathTraverser.java:253-259 | the loop's total is the sum of the weights |
| Nodes.NewWeightPath | hugegraph-core/src/main/java/com/baidu/hugegraph/traversal/algorithm/CustomizePathTraverser.java:220-225 | a new WeightPath keeps the given vertices and weights, and its total is their sum |
| Nodes.Reverse | hugegraph-core/src/main/java/com/baidu/hugegraph/traversal/algorithm/CustomizePathTraverser.java:235-239 | reversing puts vertex k at position n-1-k and reverses a weighted path's weights along with it; the total weight and the kind of path are kept |
| Nodes.ReversePreservesWellFormed | hugegraph-core/src/main/java/com/baidu/hugegraph/traversal/algorithm/CustomizePathTraverser.java:235-239 | after reversal the total is still the sum of the weights |
| Nodes.ReverseTwice | hugegraph-core/src/main/java/com/baidu/hugegraph/traversal/algorithm/CustomizePathTraverser.java:235-239 | reversing a path twice gives it back |
| Nodes.SumReversed | hugegraph-core/src/main/java/com/baidu/hugegraph/traversal/algorithm/CustomizePathTraverser.java:253-259 | the order of the weights does not change their total |
| Multivalued.AddFiles | hugegraph-core/src/main/java/com/baidu/hugegraph/traversal/algorithm/CustomizePathTraverser.java:113-114 | adding a node files it under its own id; the frontier then holds exactly the old nodes plus the new one, each under its own id |
| Multivalued.SizeAdd | hugegraph-core/src/main/java/com/baidu/hugegraph/traversal/algorithm/CustomizePathTraverser.java:113-118 | adding one node grows the number of nodes in the frontier by exactly one |
| Sampling.RandomSet | hugegraph-core/src/main/java/com/baidu/hugegraph/traversal/algorithm/CustomizePathTraverser.java:183-192 | with the corrected guard: the empty set when max < min or count > max - min; otherwise exactly max(count, 0) distinct values, all in [min, max) |
| Sampling.RejectsAsWrittenAdmitsEndlessDraw | hugegraph-core/src/main/java/com/baidu/hugegraph/traversal/algorithm/CustomizePathTraverser.java:184-190 | the guard as written lets count = max - min + 1 through, but no set drawn from [min, max) ever reaches that size: for min < max the draw loop never ends (for min = max the first draw throws instead) |
| Sampling.RandomSetZeroOneTwoNeverFinishes | hugegraph-core/src/main/java/com/baidu/hugegraph/traversal/algorithm/CustomizePathTraverser.java:184-190 | randomSet(0, 1, 2) gets past the guard as written, is rejected by the corrected guard, and can never draw two values |
| Sampling.Sample | hugegraph-core/src/main/java/com/baidu/hugegraph/traversal/algorithm/CustomizePathTraverser.java:171-180 | a list of at most `sample` nodes comes back unchanged; a longer one gives exactly `sample` nodes taken at distinct positions, a sub-multiset of the list |
| Sampling.GatherSub | hugegraph-core/src/main/java/com/baidu/hugegraph/traversal/algorithm/CustomizePathTraverser.java:176-178 | the elements at pairwise-distinct positions form a sub-multiset of the list |
| Traverser.Roots | hugegraph-core/src/main/java/com/baidu/hugegraph/traversal/algorithm/CustomizePathTraverser.java:58-64 | one root node per listed source vertex, filed under its id, and nothing else: the frontier holds exactly the roots of the listed ids, and as many nodes as sources are listed, a repeated id filed once per listing; the roots' first-step candidates add up to FirstLevel |
| Traverser.CandidatesAppend | hugegraph-core/src/main/java/com/baidu/hugegraph/traversal/algorithm/CustomizePathTraverser.java:82-104 | one more node at a vertex adds exactly the edges whose target is not on its path to the capacity count |
| Traverser.CustomizedPaths | hugegraph-core/src/main/java/com/baidu/hugegraph/traversal/algorithm/CustomizePathTraverser.java:52-142 | see the list below the table |
| Traverser.CrossEdge | hugegraph-core/src/main/java/com/baidu/hugegraph/traversal/algorithm/CustomizePathTraverser.java:84-104 | for one edge: a new node for exactly each node whose path does not hold the target (Open of them), each counted against capacity, stopping once the count reaches it |
| Traverser.ExpandVertex | hugegraph-core/src/main/java/com/baidu/hugegraph/traversal/algorithm/CustomizePathTraverser.java:75-105 | see the list below the table |
| Traverser.InsertAdjacency | hugegraph-core/src/main/java/com/baidu/hugegraph/traversal/algorithm/CustomizePathTraverser.java:112-122 | see the list below the table |
| Traverser.ExpandLevel | hugegraph-core/src/main/java/com/baidu/hugegraph/traversal/algorithm/CustomizePathTraverser.java:69-126 | see the list below the table |
| Traverser.ToPaths | hugegraph-core/src/main/java/com/baidu/hugegraph/traversal/algorithm/CustomizePathTraverser.java:130-141 | one path per node of the last frontier: as many paths as nodes, each built from a node in the frontier, and every node's path present (weighted when sorted) |
| Traverser.ReachedIsWalk | hugegraph-core/src/main/java/com/baidu/hugegraph/traversal/algorithm/CustomizePathTraverser.java:83-97 | a node built over k levels has depth k, and its path and weights spell a simple walk from a source, edge i taken by step i |
| Traverser.WalkIsReached | hugegraph-core/src/main/java/com/baidu/hugegraph/traversal/algorithm/CustomizePathTraverser.java:83-97 | every such walk is the path of a node the levels build, and its weights are that node's weights |
| Traverser.UnsortedWeightsAreZero | hugegraph-core/src/main/java/com/baidu/hugegraph/traversal/algorithm/CustomizePathTraverser.java:94-96 | an unsorted walk carries no weights (all 0) |
| Traverser.LastLevelIsValid | hugegraph-core/src/main/java/com/baidu/hugegraph/traversal/algorithm/CustomizePathTraverser.java:130-139 | the path built from a last-level node is a valid result: |steps|+1 distinct vertices, and when sorted one weight per step with the sum as its total |
| Traverser.ValidIsLastLevel | hugegraph-core/src/main/java/com/baidu/hugegraph/traversal/algorithm/CustomizePathTraverser.java:69-139 | every valid path is built from some last-level node |
| Traverser.ExpansionComplete | hugegraph-core/src/main/java/com/baidu/hugegraph/traversal/algorithm/CustomizePathTraverser.java:75-105 | a full expansion of a vertex yields every node of the next level whose parent ends at that vertex |
| Traverser.ExpansionReaches | hugegraph-core/src/main/java/com/baidu/hugegraph/traversal/algorithm/CustomizePathTraverser.java:75-105 | every node an expansion yields belongs to the next level |
| Traverser.SampledFrom | hugegraph-core/src/main/java/com/baidu/hugegraph/traversal/algorithm/CustomizePathTraverser.java:107-110 | sampling keeps only nodes the expansion produced |
| Base.IntCast | hugegraph-core/src/main/java/com/baidu/hugegraph/traversal/algorithm/CustomizePathTraverser.java:168 | the `(int)` cast of a long: a 32-bit value congruent to the input modulo 2^32, equal to it when it fits |
| TopN.TopNPath | hugegraph-core/src/main/java/com/baidu/hugegraph/traversal/algorithm/CustomizePathTraverser.java:144-169 | see the list below the table |
| TopN.SortPaths | hugegraph-core/src/main/java/com/baidu/hugegraph/traversal/algorithm/CustomizePathTraverser.java:150-166 | the sort leaves a permutation of the array, ordered by total weight as the comparator says (ascending when incr, descending otherwise) |
| TopN.SortedPrefixIsTopK | hugegraph-core/src/main/java/com/baidu/hugegraph/traversal/algorithm/CustomizePathTraverser.java:150-168 | the first k entries of an ordered permutation, for any k up to its length, are a top-k selection: a sub-multiset, ordered, and no worse than any path left out |
| TopN.IsTopNBounds | hugegraph-core/src/main/java/com/baidu/hugegraph/traversal/algorithm/CustomizePathTraverser.java:146-168 | a selection is a sub-multiset of the input of at most max(limit, 0) weighted paths |
| TopN.IsTopNIdempotent | hugegraph-core/src/main/java/com/baidu/hugegraph/traversal/algorithm/CustomizePathTraverser.java:146-148 | selecting again from a selection returns it unchanged |
| TopN.HeaviestFirst | hugegraph-core/src/main/java/com/baidu/hugegraph/traversal/algorithm/CustomizePathTraverser.java:150-168 | from paths of total 1 and 2, decreasing with limit 1, the only admissible result is the path of total 2 |
| Rank.StartDirection | hugegraph-core/src/main/java/com/baidu/hugegraph/traversal/algorithm/RankAlgorithm.java:184-199 | fails exactly when the vertex label is at neither end of the edge label; otherwise OUT exactly when it is the source end (also when both ends match), IN otherwise; the failure carries the "doesn't link with edge label" message |
| Rank.RankAlgorithm.CompensateSourceVertex | hugegraph-core/src/main/java/com/baidu/hugegraph/traversal/algorithm/RankAlgorithm.java:76-82 | the source's entry becomes its old increment (0 when absent) plus 1 - alpha; the keys grow by the source only, and every other entry is unchanged |
| Rank.RankAlgorithm.CombineIncrement | hugegraph-core/src/main/java/com/baidu/hugegraph/traversal/algorithm/RankAlgorithm.java:107-124 | the keys are the old ranks' and the increments' together; a non-seed gets old (0 when absent) plus increment; a seed gets that sum times 1 - alpha |
| Rank.RankAlgorithm.AddIncrements | hugegraph-core/src/main/java/com/baidu/hugegraph/traversal/algorithm/RankAlgorithm.java:109-115 | after the first loop every key holds its old rank plus its increment, either one 0 when absent |
| Rank.RankAlgorithm.Attenuate | hugegraph-core/src/main/java/com/baidu/hugegraph/traversal/algorithm/RankAlgorithm.java:117-122 | after the second loop exactly the seeds' ranks are scaled by 1 - alpha, and the keys are unchanged |
| Rank.RankAlgorithm.SpreadToNeighbours | hugegraph-core/src/main/java/com/baidu/hugegraph/traversal/algorithm/RankAlgorithm.java:143-150 | every neighbour is recorded and gets the seed's spread added to its increment, starting from 0 |
| Rank.RankAlgorithm.Collect | hugegraph-core/src/main/java/com/baidu/hugegraph/traversal/algorithm/RankAlgorithm.java:133-152 | the lambda adds to each vertex the sum over adjacent seeds of rank * alpha / degree, and records exactly the seeds' neighbours |
| Rank.RankAlgorithm.GetIncrRanksBoth | hugegraph-core/src/main/java/com/baidu/hugegraph/traversal/algorithm/RankAlgorithm.java:126-160 | see the list below the table |
| Rank.RankAlgorithm.GetIncrRanks | hugegraph-core/src/main/java/com/baidu/hugegraph/traversal/algorithm/RankAlgorithm.java:162-182 | the keys are exactly the seeds' neighbours along dir, and each value is the sum of what its adjacent seeds spread |
| Rank.RankAlgorithm.IncrFromRemove | hugegraph-core/src/main/java/com/baidu/hugegraph/traversal/algorithm/RankAlgorithm.java:135-150 | the increment does not depend on the order in which the seeds are visited |
| Rank.RankAlgorithm.IncrFromOutside | hugegraph-core/src/main/java/com/baidu/hugegraph/traversal/algorithm/RankAlgorithm.java:165-180 | a vertex adjacent to no seed receives nothing |
| Rank.RankAlgorithm.IncrFromNonNegative | hugegraph-core/src/main/java/com/baidu/hugegraph/traversal/algorithm/RankAlgorithm.java:165-180 | with non-negative ranks and alpha, no increment is negative |
| Rank.RankAlgorithm.AccumulatedStep | hugegraph-core/src/main/java/com/baidu/hugegraph/traversal/algorithm/RankAlgorithm.java:135-150 | visiting one more seed adds its spread to exactly its neighbours' entries |
| Rank.RankAlgorithm.ReachedHasDegree | hugegraph-core/src/main/java/com/baidu/hugegraph/traversal/algorithm/RankAlgorithm.java:136-137 | in a consistent store, a vertex reached along one direction has degree at least 1 in the other |
| Rank.RankAlgorithm.PersonalInvPreserved | hugegraph-core/src/main/java/com/baidu/hugegraph/traversal/algorithm/RankAlgorithm.java:136-139 | one personalRank round keeps the invariant: every seed is ranked ("Must be exist") and has degree > 0 in its direction, and every seed other than the source was reached from the other seed set |
| Rank.RankAlgorithm.PersonalRoundsInv | hugegraph-core/src/main/java/com/baidu/hugegraph/traversal/algorithm/RankAlgorithm.java:68-72 | the invariant holds after any number of personalRank rounds |
| Rank.RankAlgorithm.PersonalStartInv | hugegraph-core/src/main/java/com/baidu/hugegraph/traversal/algorithm/RankAlgorithm.java:58-67 | the start state, with the source alone in its direction's seeds and rank 1.0, meets the invariant |
| Rank.RankAlgorithm.PersonalStep | hugegraph-core/src/main/java/com/baidu/hugegraph/traversal/algorithm/RankAlgorithm.java:68-72 | one pass of the loop produces the next state of the round function |
| Rank.RankAlgorithm.PersonalLoop | hugegraph-core/src/main/java/com/baidu/hugegraph/traversal/algorithm/RankAlgorithm.java:58-73 | the loop yields the ranks after max(maxDepth, 0) rounds |
| Rank.RankAlgorithm.PersonalRank | hugegraph-core/src/main/java/com/baidu/hugegraph/traversal/algorithm/RankAlgorithm.java:50-74 | see the list below the table |
| Rank.RankAlgorithm.PersonalSourceRank | hugegraph-core/src/main/java/com/baidu/hugegraph/traversal/algorithm/RankAlgorithm.java:68-82 | with 0 <= alpha <= 1 ranks stay non-negative, and after at least one round the source's rank is at least 1 - alpha |
| Rank.RankAlgorithm.PersonalSeedsGrow | hugegraph-core/src/main/java/com/baidu/hugegraph/traversal/algorithm/RankAlgorithm.java:157-158 | personalRank's OUT and IN seed sets only grow from round to round |
| Rank.RankAlgorithm.NeighborInvPreserved | hugegraph-core/src/main/java/com/baidu/hugegraph/traversal/algorithm/RankAlgorithm.java:166-169 | one neighborRank round keeps every seed ranked with degree > 0 in the (flipped) direction |
| Rank.RankAlgorithm.NeighborRoundsInv | hugegraph-core/src/main/java/com/baidu/hugegraph/traversal/algorithm/RankAlgorithm.java:97-103 | that invariant holds after any number of neighborRank rounds |
| Rank.RankAlgorithm.NeighborStep | hugegraph-core/src/main/java/com/baidu/hugegraph/traversal/algorithm/RankAlgorithm.java:97-103 | one pass replaces the seeds by exactly the vertices reached, flips the direction, and combines the increments into the ranks |
| Rank.RankAlgorithm.NeighborLoop | hugegraph-core/src/main/java/com/baidu/hugegraph/traversal/algorithm/RankAlgorithm.java:92-104 | the loop yields the ranks after max(maxDepth, 0) rounds |
| Rank.RankAlgorithm.NeighborRank | hugegraph-core/src/main/java/com/baidu/hugegraph/traversal/algorithm/RankAlgorithm.java:84-105 | see the list below the table |
| Rank.RankAlgorithm.NeighborRanksNonNegative | hugegraph-core/src/main/java/com/baidu/hugegraph/traversal/algorithm/RankAlgorithm.java:107-124 | with 0 <= alpha <= 1, neighborRank's ranks stay non-negative round after round |
| PathsApi.CheckRequest | hugegraph-api/src/main/java/com/baidu/hugegraph/api/traversers/CustomizedPathsAPI.java:80-92 | see the list below the table |
| PathsApi.Sources | hugegraph-api/src/main/java/com/baidu/hugegraph/api/traversers/CustomizedPathsAPI.java:124-168 | with the null test corrected: "No source vertices provided" exactly when no ids, no properties (null or empty) and no label are given; success is never an empty list; given the `Store` abstraction, in which a lookup of an unknown label or vertex is not a failure, every failure is an argument error |
| PathsApi.SourcesAsWritten | hugegraph-api/src/main/java/com/baidu/hugegraph/api/traversers/CustomizedPathsAPI.java:127-130 | as written: the same no-source rejection, but an absent id set is dereferenced at line 130 |
| PathsApi.SourcesAsWrittenDiffers | hugegraph-api/src/main/java/com/baidu/hugegraph/api/traversers/CustomizedPathsAPI.java:127-133 | the written and corrected versions differ exactly on a spec that names a label or properties but no id set at all, and there the written one fails with a null dereference |
| PathsApi.SourcesByLabelOnly | hugegraph-api/src/main/java/com/baidu/hugegraph/api/traversers/CustomizedPathsAPI.java:130 | a spec with only the label "person" fails with a null dereference as written, and goes to the label query when corrected |
| PathsApi.FetchSources | hugegraph-api/src/main/java/com/baidu/hugegraph/api/traversers/CustomizedPathsAPI.java:133-167 | the lookup by ids or by label and properties either yields a non-empty list or fails with an argument error |
| PathsApi.ParseDirection | hugegraph-api/src/main/java/com/baidu/hugegraph/api/traversers/CustomizedPathsAPI.java:257 | null fails with a null dereference; succeeds exactly on OUT, IN, BOTH; the result's name is the input; any other name fails with IllegalArgument "No enum constant com.baidu.hugegraph.type.define.Directions." followed by the name |
| PathsApi.ParseDirectionName | hugegraph-api/src/main/java/com/baidu/hugegraph/api/traversers/CustomizedPathsAPI.java:257 | every direction parses back from its name |
| PathsApi.StepError | hugegraph-api/src/main/java/com/baidu/hugegraph/api/traversers/CustomizedPathsAPI.java:248-258 | see the list below the table |
| PathsApi.JsonToStep | hugegraph-api/src/main/java/com/baidu/hugegraph/api/traversers/CustomizedPathsAPI.java:247-271 | see the list below the table |
| PathsApi.StepsOf | hugegraph-api/src/main/java/com/baidu/hugegraph/api/traversers/CustomizedPathsAPI.java:170-178 | succeeds exactly when every step is valid, then with one converted step per request step, in order; otherwise fails with the first invalid step's error |
| PathsApi.Post | hugegraph-api/src/main/java/com/baidu/hugegraph/api/traversers/CustomizedPathsAPI.java:80-107 | see the list below the table |

Contracts too long for a table cell:

- **Traverser.CustomizedPaths**:
  - an empty source list and an empty step list are rejected with the source's messages, and any other input succeeds;
  - every returned path is a simple walk from a source with one edge per step (`|steps| + 1` distinct vertices); when sorted, it is a WeightPath with one weight per step (the edge's `weightBy` value or the default) and their sum as total;
  - with no capacity, no sampling, and sorted or no limit, every such walk is returned;
  - unsorted with a limit, at most max(limit, 1) paths come back;
  - with a capacity, at most capacity - 1 paths come back;
  - with at least two steps and a capacity, when the first level alone creates at least max(capacity, 1) new nodes (`FirstLevel`: for each listed source, its edges of the first step that do not lead back to it), the walk breaks off and the result is the empty list.
- **Traverser.ExpandVertex**:
  - every new node extends a node ending at the vertex by one of its edges, to a target not already on that node's path;
  - without a break, every such extension is produced;
  - each new node counts against capacity, and a break happens only once the count reaches capacity;
  - without a break, exactly `Candidates` new nodes are produced (one per edge and node whose path the edge's target is not on).
- **Traverser.InsertAdjacency**:
  - the frontier grows by the inserted nodes and keeps every old one;
  - without a break, all the nodes are inserted;
  - only on the last level of an unsorted walk with a limit are paths counted, and then the count equals the nodes inserted and the break comes at the limit.
- **Traverser.ExpandLevel**:
  - every node of the new frontier belongs to level s+1;
  - the new frontier holds the whole level when nothing limits or samples it;
  - the capacity and limit counters are bounded as the loop promises;
  - a break before the last step happens only under a capacity;
  - without a break, the capacity count grows by the candidates of every entry of the frontier.
- **TopN.TopNPath**:
  - leaves the list unchanged when limit is NO_LIMIT or the list fits;
  - otherwise, for limit >= 0, returns exactly limit paths, ordered by total weight in the requested direction, each no worse than every path left out;
  - for limit below -1, subList gets `(int) limit`: a negative bound fails with IllegalArgument ("fromIndex(%s) > toIndex(%s)"), a bound past the list fails with IndexOutOfBounds, and any other bound k (e.g. 1 for -4294967295) gives the top k paths;
  - the array stays a permutation of its old contents.
- **Rank.RankAlgorithm.GetIncrRanksBoth**:
  - the increments' keys are exactly the OUT-neighbours of the OUT seeds together with the IN-neighbours of the IN seeds;
  - each value is the sum of both spreads;
  - the OUT seeds grow by the vertices reached IN, and the IN seeds by those reached OUT.
- **Rank.RankAlgorithm.PersonalRank** and **Rank.RankAlgorithm.NeighborRank** (each as its own algorithm):
  - a vertex whose label is at neither end of the edge label fails;
  - a source with degree < 1 in its direction, or maxDepth <= 0, gives `{source: 1.0}`;
  - otherwise the result is the ranks after max(maxDepth, 0) rounds of the round function.
- **PathsApi.CheckRequest**: a null body (a null dereference in the debug log call, lines 80-84), null sources, null steps (a null dereference), an empty step list and a null sort_by are rejected in that order, and nothing else is.
- **PathsApi.StepError**:
  - accepts exactly a degree > 0 or = -1, a sample >= 0, a degree of -1 or >= sample, a known direction and a label list;
  - reports the first failure in the source's order, with its message.
- **PathsApi.JsonToStep**:
  - succeeds exactly on a valid step, and otherwise reports StepError's failure;
  - the new step carries the request's direction, properties, weight property, default weight, degree and sample unchanged;
  - its label map has exactly the ids of the listed labels, each mapped to a listed name with that id.
- **PathsApi.Post**:
  - the body checks come first, then the sources' failure, then the first invalid step's error;
  - a valid request fails only when sorted with a limit below -1 whose `(int)` cast is negative (IllegalArgument) or exceeds the number of walked paths (IndexOutOfBounds);
  - on success the traverser walks sorted exactly when sort_by is not NONE, and every path it returns is a valid walk over the converted steps;
  - whenever every step is valid, `WalkedAsTraversed` holds, including when the final top-N cut then fails. It carries what `customizedPaths` promises to the walk made with the request's capacity and limit. The steps are the request's steps converted in order. The walked paths are sound. They are complete with no capacity, no sampling, and sorted or no limit. There are at most max(limit, 1) of them when unsorted with a limit, and at most max(capacity - 1, 0) with a capacity. There are none when the capacity runs out on the first of several levels;
  - on success the response is the walk itself when sort_by is NONE, and otherwise its top-limit selection (top `(int) limit` for a limit below -1), increasing exactly when sort_by is INCR.

## Left out

- Floating point: ranks and weights are `real`. Rounding, NaN, infinities and ties in the comparator are not modelled.
- Storage calls are inputs, not code:
  - `edgesOfVertex` is `EdgeOracle`, with its degree cap applied inside the oracle. The model does not assume any relation between the cap and the number of edges.
  - `adjacentVertices`, `degreeOfVertex` and the vertex's label are `RankGraph`.
  - The vertex lookups by id and by query (including `checkAndParseVertexId` and the `Condition` building) are `Store`.
  - `graph.edgeLabel(name)` is `Store.edgeLabelId`, and an unknown label name is not modelled as a failure.
  - The weight property is kept by name, without `graph.propertyKey` resolution.
- `RankAlgorithm` receives the edge label's schema (`EdgeLabel`) rather than its name. Looking up a vertex that does not exist is not modelled.
- Randomness: `ThreadLocalRandom` draws are a nondeterministic choice of a value not yet drawn. Repeated draws, which leave the set unchanged, are not modelled one by one, and uniformity is not claimed.
- Hash iteration order (`MultivaluedMap`, `HashMap`, `HashSet`) is a nondeterministic choice. Results are stated as sets, multisets and membership, and the order of `customizedPaths`' output is unspecified.
- Traverser.CustomizedPaths: completeness (every valid walk is returned) is stated only with no capacity, no sampling, and sorted or no limit. Under a budget or sampling, which walks survive depends on hash order and randomness, so only soundness and the bounds are stated.
- TopN.TopNPath: `List.sort` is a stable merge sort, while the model sorts by adjacent swaps. Only an ordered permutation is stated, not the order among equal totals.
- TopN.TopNPath: after a capacity break, `customizedPaths` returns Guava's immutable empty list, not an `ArrayList`. For a limit below -1, how its `sort` and `subList` fail depends on Guava, and the model treats it as an ordinary empty list.
- Traverser.CustomizedPaths: an edge always carries a value for the step's `weightBy` property. When an edge lacks it, `edge.value(name)` (CustomizePathTraverser.java line 91) throws; the model does not express that failure, so "any other input succeeds" holds only for stores whose weighted edges all carry the property.
- Traverser.CustomizedPaths: the empty result of a break is stated for a break on the first level. A break on a later level depends on which nodes earlier levels sampled and in what order, so for it only the bounds are stated.
- PathsApi.Post: composes the corrected `Sources`. As written, a source spec with a label or properties but no ids throws NullPointerException at CustomizedPathsAPI.java line 130 (see Findings); `PathsApi.SourcesAsWritten` models that behaviour.
- Nodes.Reverse: `reverse()` mutates the path object and its weight list in place. The model returns the reversed value, so aliasing of those lists is not captured.
- Rank.RankAlgorithm.PersonalRank: requires `Consistent`, a property of the store. The Java code assumes it without checking: an edge seen OUT from one end is seen IN from the other, and a vertex with a neighbour has degree >= 1. Without it, a round could read an absent rank or divide by a zero degree.
- Rank.RankAlgorithm.NeighborRank: requires `Consistent`, for the same reason.
- Rank.RankAlgorithm.GetIncrRanksBoth: returns the grown seed sets instead of growing the caller's sets in place with `addAll`.
- Rank.RankAlgorithm.GetIncrRanks: the one-sided loop is the same loop as the two-sided lambda, so both are modelled by `Collect`.
- Integer widths: `long` counters and `maxDepth` and the `int` `pathCount` are unbounded integers. The `(int)` cast in `sample` sees a value below a list's size and is left out. The cast in `topNPath` is `Base.IntCast` for a negative limit, and left out for a non-negative one, which is below the list's size there.
- The request's JSON defaults (`DEFAULT_CAPACITY`, `DEFAULT_PATHS_LIMIT`, `DEFAULT_DEGREE`, `DEFAULT_SAMPLE`, `DEFAULT_WEIGHT`) are defined in `HugeTraverser`, which is not part of this model. A request carries the values after binding.
- Step and source property values are strings. The list-valued `Condition.in` case belongs to the query oracle.
- Error messages are kept as their format templates (for the JDK's `subList` check, with its concatenated values written as `%s`). The `%s` arguments are not filled in.
- The REST and JAX-RS plumbing, logging, the serializer and the `with_vertex` vertex fetch (CustomizedPathsAPI.java lines 109-121) are output formatting and I/O.
- `WeightPath.toMap` and the crosspoint are serialization only.

## Findings

| source | as written | input that shows it | evidently intended | confidence | as-written member | corrected member |
|---|---|---|---|---|---|---|
| hugegraph-core/src/main/java/com/baidu/hugegraph/traversal/algorithm/CustomizePathTraverser.java:184 | `count > (max - min + 1)` lets count = max - min + 1 through, but `nextInt(min, max)` yields only max - min distinct values, so for min < max the `while` loop never ends (for min = max, `nextInt(min, min)` throws). `sample` always calls it with count below max - min, so that caller never hits this | randomSet(0, 1, 2) | reject when count > max - min | not executed | Sampling.RandomSetZeroOneTwoNeverFinishes | Sampling.RandomSet |
| hugegraph-api/src/main/java/com/baidu/hugegraph/api/traversers/CustomizedPathsAPI.java:130 | `sources.ids.size()` runs before the null test at line 133, so a source spec that gives only a label or properties throws NullPointerException | sources = {label: "person"}, with no ids | absent ids count as none, and the vertices come from the label/properties query (lines 142-163) | not executed | PathsApi.SourcesByLabelOnly | PathsApi.Sources |
