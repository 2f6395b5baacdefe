# qn-exp topology core in Dafny

This project models the topology code of qn-exp, a set of quantum-network
experiments. The code does two things:

- **Synthesis.** It builds a ring of quantum routers: a cycle graph plus
  random shortcut edges. Every link is weighted by the chord of the circle
  that it spans. It then writes the topology descriptor that the network
  simulator reads:
  - one router per node;
  - one quantum link per edge;
  - one classical link per pair of routers, whose delay is their
    shortest-path distance.
- **Analysis.** It ranks the routers of a ring by centrality. It then
  scores every choice of four end nodes by two things: how evenly their
  Voronoi cells split the ring, and how central the four nodes are. It
  shows the ten best choices.

Modules, one per file:

| module | file | models |
|---|---|---|
| `Options` | options.dfy | `Option` (a missing key, an unparsable name) |
| `Decimal` | decimal.dfy | `f"{i}"` for node indices, and its inverse |
| `Graphs` | graphs.dfy | networkx's `Graph`: insertion-ordered adjacency, `add_edge`, `has_edge`, the `g.edges` order, `cycle_graph` |
| `Ring` | ring.dfy | the shortcut rejection loop; the circular offset of an edge |
| `Descriptor` | descriptor.dfy | the `Node`/`QConnection`/`CConnection`/`Top` records; `__generate_json` |
| `Generator` | generator.dfy | `generate_cycle`, and the same ring as `generate` in `topology.py` builds it |
| `Sorting` | sorting.dfy | a generic insertion sort by a total preorder |
| `Combinations` | combinations.dfy | `itertools.combinations(range(n), k)` |
| `Stats` | stats.dfy | numpy `mean` and `var` (`ddof = 0`) over exact reals |
| `Voronoi` | voronoi.dfy | `nx.voronoi_cells`: nearest seed by hop distance |
| `Metrics` | metrics.dfy | `metrics` in `topology/metrics.py` |
| `TopologyScript` | script.dfy | `metrics` in `topology.py`: the betweenness ranking over string node ids |

Random draws, centrality scores, shortest-path lengths and the floating-point
chord formula are parameters, as follows.

- **Random draws.** The pairs `rng.integers(0, n)` would produce are given
  as a finite list of samples. When the list runs out before `m` shortcuts
  have been added, the result is `SamplesExhausted`; the source would keep
  drawing.
- **Chord and distance.** `chord(k)` stands for
  `2 * radius * sin(pi / n * k)`. `shortest(g, i, j)` stands for
  `nx.shortest_path_length(g, i, j, weight="length")`.
- **Centrality.** Betweenness and closeness are given maps from node to
  score.
- **Voronoi distances.** They come from a given hop-distance table.
  `voronoi_cells` is called without a weight attribute the written graph
  carries, so it counts hops.

## Model

| member | source | states |
|---|---|---|
| Decimal.ParseFormat | topology/generator.py:46 | reading back the numeral `f"{i}"` gives `i` again |
| Decimal.ParseIffFormat | topology/generator.py:46 | a string is read as `i` exactly when it is the numeral `f"{i}"`: no other spelling, such as a leading zero, is read |
| Decimal.FormatInjective | topology/generator.py:46 | two indices have the same numeral exactly when they are equal |
| Descriptor.RouterNamesRoundTrip | topology/generator.py:46 | the router name `r{i}` identifies node `i`: stripping `r` and parsing gives `i` |
| Descriptor.RouterIndexExact | topology/generator.py:46 | a string names router `i` exactly when it is `f"r{i}"` |
| Descriptor.RouterNamesDistinct | topology/generator.py:46 | two routers have the same name exactly when they are the same node |
| Descriptor.Nodes | topology/generator.py:45-46 | `n` routers; router `i` is named exactly `f"r{i}"` and is read back as `i`, has seed `i`, the given memory size and kind `QuantumRouter`; names are pairwise distinct |
| Descriptor.QConnections | topology/generator.py:47-49 | one quantum link per listed edge, in edge order, naming the edge's endpoints, with attenuation `2e-3`, the edge's length and type `meet_in_the_middle` |
| Descriptor.QConnectionsMatchEdges | topology/generator.py:47-49 | on a simple graph there is a quantum link `r{a}`–`r{b}` exactly when `a < b` and `a`, `b` are adjacent, and no link is listed twice |
| Descriptor.PairsFacts | topology/generator.py:54-55 | the nested loops yield `n(n-1)/2` pairs: exactly the pairs `i < j < n`, each once, in strictly increasing lexicographic order |
| Descriptor.CConnections | topology/generator.py:50-56 | classical link `k` joins the routers of the `k`-th pair, with delay shortest-path length times `1e6`; there are `n(n-1)/2` of them |
| Descriptor.CConnectionsComplete | topology/generator.py:50-56 | every pair `i < j` of routers has its classical link, whether or not an edge joins them |
| Descriptor.CConnectionsSound | topology/generator.py:50-56 | every classical link is the link of some pair `i < j < n`, so there are no self-pairs |
| Descriptor.CConnectionsNoDup | topology/generator.py:50-56 | no classical link is listed twice |
| Descriptor.CConnectionsCoverPairs | topology/generator.py:50-56 | the classical links are exactly the links of the pairs `i < j < n`, each once |
| Descriptor.DelaysNonNegative | topology/generator.py:52 | when every edge length is non-negative and each distance is the summed length of some walk between the two routers, as a shortest-path length is, every delay is non-negative |
| Descriptor.GenerateJson | topology/generator.py:42-64 | the descriptor is never parallel, carries the given stop time, and lists `n` routers, one quantum link per edge and `n(n-1)/2` classical links |
| Descriptor.LinkEndpointsAreRouters | topology/generator.py:46-56 | on a simple graph both endpoints of every quantum and classical link are names of listed routers |
| Graphs.AddEdge | topology/generator.py:82 | after `add_edge(u, v)`, the edges are the old edges plus `{u, v}` |
| Graphs.EdgeListIsEdgeSet | topology/generator.py:86 | on a simple graph, `g.edges` lists every edge exactly once, as `(a, b)` with `a < b` |
| Graphs.AddEdgeCount | topology/generator.py:81-82 | adding an absent edge between distinct nodes keeps the graph simple and adds exactly one edge to `g.edges` |
| Graphs.CycleFacts | topology/generator.py:73 | `cycle_graph(n)` is simple, has `n` edges, and joins `a` and `b` exactly when one is the other's successor modulo `n` |
| Ring.Draw | topology/generator.py:79-83 | one iteration adds one to `temp` exactly when the sample is accepted, and keeps the node count |
| Ring.DrawFacts | topology/generator.py:79-83 | a rejected sample leaves the state unchanged; either way the graph stays simple and gains exactly as many edges as `temp` grew |
| Ring.Run | topology/generator.py:76-83 | the loop never passes `m`, consumes at most the given samples, and stops short of `m` only when the samples run out |
| Ring.RunKeepsSimple | topology/generator.py:77-83 | the loop keeps the graph simple, and `temp` counts exactly the edges it added |
| Ring.RunEdges | topology/generator.py:78-83 | the loop removes no edge, and every edge it adds is one of the pairs it drew |
| Ring.RejectedSampleIsIgnored | topology/generator.py:81 | deleting a sample that the loop rejects from the sample list changes neither the final graph nor `temp` |
| Ring.RunAppend | topology/generator.py:78-83 | running the loop on `a + b` is running it on `a` and resuming on `b` |
| Ring.RunStopsAtTarget | topology/generator.py:78 | the loop exits as soon as `temp` reaches `m`: before its last draw `temp` was below `m` |
| Ring.OffsetFacts | topology/generator.py:87 | for distinct nodes `i`, `j` the offset equals `n - abs(i - j)`, lies in `[1, n-1]` and does not depend on the order of `i` and `j` |
| Ring.OffsetComplementsShortOffset | topology/generator.py:87-89 | the short way round the circle is the smaller of the offset and its complement, so both name the same chord |
| Ring.EdgeOffsets | topology/generator.py:86-89 | every edge of a simple graph has an offset in `[1, n-1]`, the same from either end, so its length is well defined |
| Generator.RingGraph | topology/generator.py:71-83 | the ring graph is simple, has `n` nodes and `n + temp` edges, and keeps every cycle edge |
| Generator.GenerateCycle | topology/generator.py:71-92 | a descriptor is produced exactly when the loop added `m` shortcuts; then the graph is the one the loop built, simple with `n + m` edges, the descriptor has `n` routers, `n + m` quantum links weighted by the chord of their offset in `[1, n-1]`, and `n(n-1)/2` classical links |
| Generator.RingLengthsPositive | topology/generator.py:85-89 | if the chord formula is positive on offsets `1..n-1`, as `sin(pi k / n)` is, every quantum link has positive length |
| Generator.GenerateRing | topology.py:42-84 | the fixed ring: on success 25 edges, routers named exactly `r0..r19` with seed `i` and memory size 20, 25 quantum links and 190 classical links whose endpoints are listed routers, not parallel, stop time `6_000_000_000_000` |
| Sorting.Insert | topology/metrics.py:50 | insertion keeps the elements and the order |
| Sorting.SortBy | topology/metrics.py:50 | the result is a permutation of the input, sorted by the given total preorder |
| Sorting.HeadOfSorted | topology/metrics.py:50 | the head of a sorted permutation is drawn from the input and comes before every element it leaves out |
| Metrics.Lookup | topology/metrics.py:10 | the values are looked up in key order; the result is `None`, standing for `KeyError`, exactly when some key is missing |
| Metrics.Ranking | topology/metrics.py:11-12 | `argsort(values)[::-1]` lists every index exactly once, by non-increasing value |
| Metrics.RankNodes | topology/metrics.py:9-19 | the betweenness and the closeness rankings: defined exactly when every node has a score, and then every node once by non-increasing score |
| Combinations.Choose | topology/metrics.py:25 | `C(n - lo, k)` tuples, each a strictly increasing `k`-tuple of `range(lo, n)` |
| Combinations.ChooseComplete | topology/metrics.py:25 | every strictly increasing `k`-tuple of `range(lo, n)` is enumerated |
| Combinations.ChooseSorted | topology/metrics.py:25 | the tuples come in strictly increasing lexicographic order |
| Combinations.CombinationsFacts | topology/metrics.py:25 | `combinations(range(n), k)` yields exactly the increasing `k`-tuples, each once, in lexicographic order, `C(n, k)` of them |
| Voronoi.Nearest | topology/metrics.py:27 | a node's cell is that of a seed at the least distance, the earliest among equally near seeds; none when no seed reaches it |
| Voronoi.SeedInOwnCell | topology/metrics.py:27-28 | with distinct seeds each seed lies in its own cell, so every cell is non-empty |
| Voronoi.CellsPartitionNodes | topology/metrics.py:27-28 | on a connected graph every node lies in exactly one cell and the cell sizes add up to `n` |
| Voronoi.TotalOfCellSizes | topology/metrics.py:28 | the sizes of cells `0..k-1` add up to the number of nodes assigned to those cells |
| Stats.MeanBetweenExtremes | topology/metrics.py:29 | a mean lies between the smallest and the largest value |
| Stats.VarianceNonNegative | topology/metrics.py:28-30 | a variance is never negative |
| Stats.ConstantZeroVariance | topology/metrics.py:28 | equal values have variance zero |
| Metrics.ScoreCombinations | topology/metrics.py:21-30 | the four lists grow in lock step: `combs` is the combination enumeration, and row `r` of `vcs`, `cc_mean`, `cc_var` scores the `r`-th combination |
| Metrics.ScoredRowBounds | topology/metrics.py:28-30 | in every row `vc` and `cc_var` are non-negative, and `cc_mean` lies between the least and the greatest closeness of the four end nodes |
| Metrics.EvenCellsScoreZero | topology/metrics.py:28 | four equally large cells score `vc` zero |
| Metrics.RowBeforeIsTotalPreorder | topology/metrics.py:50 | ordering by `vc` ascending, then `cc_mean` descending, is a total preorder |
| Metrics.Leaderboard | topology/metrics.py:50 | `min(10, rows)` rows in table order, drawn from the input, none of the rows left out coming strictly before one shown |
| Metrics.AllRows | topology/metrics.py:21-41 | the data frame: `C(n, 4)` rows, row `r` scoring the `r`-th combination |
| Metrics.AllRowsDistinct | topology/metrics.py:25-41 | every 4-combination has a row, and no row appears twice |
| Metrics.CombinationRanked | topology/metrics.py:50 | the row of any 4-combination is shown, or comes after every row shown |
| Metrics.LeaderboardIsBest | topology/metrics.py:50 | the shown rows are distinct, and the row of every 4-combination is shown or comes after every row shown |
| Metrics.ScoreTable | topology/metrics.py:21-50 | the shown table is the sorted head of the whole data frame: `min(10, C(n, 4))` distinct rows in table order, each scoring a 4-combination as the loop does, and any combination not shown comes after every row shown |
| Metrics.Analyse | topology/metrics.py:7-50 | `KeyError` exactly when a node lacks a centrality score; otherwise both rankings, and the sorted head of the data frame scored with the nodes' closeness, each row scoring its combination |
| Metrics.ClosenessTable | topology/metrics.py:16-50 | every node has a closeness score, and the table is the sorted head of the whole data frame scored with the scores looked up for nodes `0..n-1`, each row scoring its combination |
| TopologyScript.NodeIdsDistinct | topology.py:98 | distinct nodes are looked up under distinct ids |
| TopologyScript.RankByBetweenness | topology.py:96-101 | the ranking is defined exactly when every id `f"{i}"` has a score, and then lists every index once by non-increasing betweenness |

## Left out

- `net.py` and `main.py` are not part of this model. They configure and drive the external network simulator.
- `generate_ba` is not modelled. It relies on networkx's Barabási–Albert generator, a spring layout and numpy norms.
- The random generator `default_rng(0)` is not modelled. Its draws are an explicit, finite sample list, so the model ends with `SamplesExhausted` where the source would loop on.
- Generator.GenerateCycle: it is stated for any cycle length `n >= 3` and any number `m` of shortcuts. The fixed ring (`n = 20`, `m = 5`) is `Generator.GenerateRing`.
- Ring.OffsetFacts: measured the short way round the circle, the offset would be `min(d, n - d)` for `d = abs(i - j)`. The code computes `min(i - j, j - i) % n`, which is `n - abs(i - j)` for distinct nodes. The model follows the code. `Ring.OffsetComplementsShortOffset` shows the two name the same chord, since `sin(pi k / n) == sin(pi (n - k) / n)`.
- The chord `2 * radius * sin(pi / n * k)` and all floating-point rounding are not modelled. The chord is a parameter of the offset, and `1e6` and `2e-3` are exact reals.
- Dijkstra's shortest-path lengths and networkx's betweenness and closeness centrality are not modelled. They are parameters.
- Voronoi.Nearest: networkx breaks ties between equally near seeds by its own search order. The model gives a tied node to the earliest seed in combination order, so a cell's size can differ from networkx's on ties.
- Metrics.Ranking: `argsort` leaves the order of equal scores to numpy's quicksort. The model states only the non-increasing order, every index once.
- Metrics.Leaderboard: polars' `sort` does not keep equal rows in their input order by default (`maintain_order=False`), so the model does not state the order of rows with equal `vc` and `cc_mean`.
- Stats.ConstantZeroVariance: it states only that equal values have variance zero. The converse, that zero variance forces equal cell sizes, is not proved. Its proof needs "a sum of squares that is zero has only zero terms", which is nonlinear real arithmetic. The solver behind Dafny 4.11 does not combine hypotheses about a product `x * x` of reals, so the step from a non-zero deviation to a positive squared deviation cannot be closed.
- Metrics.EvenCellsScoreZero: it states only that four equally large Voronoi cells give `vc` zero. The converse, that `vc` zero forces the four cell sizes to be equal, is not proved, for the nonlinear-arithmetic reason given on the `Stats.ConstantZeroVariance` line.
- The JSON text (`json.dumps`), `write_edgelist`/`read_edgelist`, the printed rankings, `print(g.degree)` and the polars table layout are not modelled. The model returns the values these would print or write.
- Reading the edge list back is not modelled. `metrics` receives a graph on nodes `0..n-1` directly.
