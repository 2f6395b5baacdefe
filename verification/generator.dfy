/** `generate_cycle`: the ring topology end to end.  The cycle on `n`
    nodes gets shortcuts from the rejection loop, every edge is weighted by
    the chord its circular offset subtends, and the descriptor is built
    from the weighted graph. */
module Generator {

  import opened Graphs
  import opened Ring
  import opened Descriptor
  import opened Options
  import Decimal

  /** The descriptor is only written once the loop has added all `m`
      shortcuts; with a finite sample list the draws may run out first. */
  datatype Synthesis = Synthesized(graph: Graph, top: Top) | SamplesExhausted(added: nat)

  /** `nx.cycle_graph(n)` followed by the shortcut loop. */
  function RingGraph(n: nat, m: nat, samples: seq<Sample>): (r: Exit)
    requires n >= 3 && InRange(samples, n)
    ensures Simple(r.state.graph) && |r.state.graph.adj| == n
    ensures r.state.added <= m && (r.state.added < m ==> r.drawn == |samples|)
    ensures |EdgeList(r.state.graph)| == n + r.state.added
    ensures forall a: nat, b: nat :: a < n && b < n && b == (a + 1) % n ==> HasEdge(r.state.graph, a, b)
  {
    var start := LoopState(Cycle(n), 0);
    CycleFacts(n);
    RunKeepsSimple(start, m, samples);
    RunEdges(start, m, samples);
    Run(start, m, samples)
  }

  /** The ring topology: on success the graph is simple with `n + m` edges,
      and the descriptor lists `n` routers, `n + m` quantum links weighted
      by the chord of their offset, and `n (n - 1) / 2` classical links.
      `chord(k)` stands for `2 * radius * sin(pi / n * k)` and
      `shortest(g, i, j)` for the weighted shortest-path length. */
  function GenerateCycle(
    n: nat, m: nat, samples: seq<Sample>,
    chord: nat -> real, shortest: (Graph, nat, nat) -> real,
    memoSize: int, stopTime: int): (r: Synthesis)
    requires n >= 3 && InRange(samples, n)
    ensures r.Synthesized? <==> RingGraph(n, m, samples).state.added == m
    ensures r.SamplesExhausted? ==> r.added < m && RingGraph(n, m, samples).drawn == |samples|
    ensures r.Synthesized? ==> r.graph == RingGraph(n, m, samples).state.graph
    ensures r.Synthesized? ==>
              && Simple(r.graph)
              && |r.graph.adj| == n
              && |EdgeList(r.graph)| == n + m
              && !r.top.isParallel && r.top.stopTime == stopTime
              && |r.top.nodes| == n
              && |r.top.qconnections| == n + m
              && |r.top.cconnections| == n * (n - 1) / 2
    ensures r.Synthesized? ==> forall k :: 0 <= k < |r.top.qconnections| ==>
              && 1 <= Offset(EdgeList(r.graph)[k].0, EdgeList(r.graph)[k].1, n) <= n - 1
              && r.top.qconnections[k].distance == chord(Offset(EdgeList(r.graph)[k].0, EdgeList(r.graph)[k].1, n))
    ensures r.Synthesized? ==>
              && (forall k :: 0 <= k < |r.top.qconnections| ==>
                    NamesRouter(r.top.nodes, r.top.qconnections[k].node1) && NamesRouter(r.top.nodes, r.top.qconnections[k].node2))
              && (forall k :: 0 <= k < |r.top.cconnections| ==>
                    NamesRouter(r.top.nodes, r.top.cconnections[k].node1) && NamesRouter(r.top.nodes, r.top.cconnections[k].node2))
  {
    var exit := RingGraph(n, m, samples);
    if exit.state.added < m then SamplesExhausted(exit.state.added)
    else
      var g := exit.state.graph;
      EdgeOffsets(g, chord);
      var top := GenerateJson(g, (i: nat, j: nat) => EdgeLength(n, chord, i, j), (i: nat, j: nat) => shortest(g, i, j), memoSize, stopTime);
      assert forall k :: 0 <= k < |top.qconnections| ==> EdgeList(g)[k] in EdgeList(g);
      LinkEndpointsAreRouters(g, (i: nat, j: nat) => EdgeLength(n, chord, i, j), (i: nat, j: nat) => shortest(g, i, j), memoSize, stopTime);
      Synthesized(g, top)
  }

  /** If the chord formula is positive on offsets `1..n-1` (as
      `sin(pi k / n)` is), every quantum link has a positive length. */
  lemma RingLengthsPositive(
    n: nat, m: nat, samples: seq<Sample>,
    chord: nat -> real, shortest: (Graph, nat, nat) -> real,
    memoSize: int, stopTime: int)
    requires n >= 3 && InRange(samples, n)
    requires forall k: nat :: 1 <= k <= n - 1 ==> chord(k) > 0.0
    ensures var r := GenerateCycle(n, m, samples, chord, shortest, memoSize, stopTime);
            r.Synthesized? ==> forall k :: 0 <= k < |r.top.qconnections| ==> r.top.qconnections[k].distance > 0.0
  {
  }

  /** `generate_cycle` builds the ring on 20 nodes with 5 shortcuts. */
  const RingSize: nat := 20
  const Shortcuts: nat := 5

  /** `generate_cycle()`: on success, 20 routers `r0..r19` with memory
      size 20, 25 quantum links and 190 classical links between them, and
      the default stop time. */
  function GenerateRing(samples: seq<Sample>, chord: nat -> real, shortest: (Graph, nat, nat) -> real): (r: Synthesis)
    requires InRange(samples, RingSize)
    ensures r.Synthesized? <==> RingGraph(RingSize, Shortcuts, samples).state.added == Shortcuts
    ensures r.Synthesized? ==>
              && |EdgeList(r.graph)| == 25
              && |r.top.nodes| == 20
              && |r.top.qconnections| == 25
              && |r.top.cconnections| == 190
              && r.top.stopTime == 6_000_000_000_000
              && !r.top.isParallel
    ensures r.Synthesized? ==> forall i :: 0 <= i < 20 ==>
              && r.top.nodes[i].name == "r" + Decimal.Format(i)
              && RouterIndex(r.top.nodes[i].name) == Some(i)
              && r.top.nodes[i].seed == i && r.top.nodes[i].memoSize == 20
    ensures r.Synthesized? ==>
              && (forall k :: 0 <= k < 25 ==>
                    NamesRouter(r.top.nodes, r.top.qconnections[k].node1) && NamesRouter(r.top.nodes, r.top.qconnections[k].node2))
              && (forall k :: 0 <= k < 190 ==>
                    NamesRouter(r.top.nodes, r.top.cconnections[k].node1) && NamesRouter(r.top.nodes, r.top.cconnections[k].node2))
  {
    GenerateCycle(RingSize, Shortcuts, samples, chord, shortest, DefaultMemoSize, DefaultStopTime)
  }

}
