/** The topology descriptor handed to the network simulator
    (`__generate_json`): one router per node, one quantum link per graph
    edge, and one classical link for every unordered pair of routers, whose
    delay is the weighted shortest-path distance between them scaled to the
    simulator's time unit.  The JSON text itself is not modelled. */
module Descriptor {

  import opened Options
  import opened Graphs
  import Decimal

  const RouterKind: string := "QuantumRouter"
  const LinkKind: string := "meet_in_the_middle"
  /** Attenuation of every quantum link, `2e-3`. */
  const Attenuation: real := 0.002
  /** Shortest-path length to classical delay, `1e6`. */
  const DelayScale: real := 1000000.0
  const DefaultMemoSize: int := 20
  const DefaultStopTime: int := 6_000_000_000_000

  datatype Node = Node(name: string, seed: nat, memoSize: int, kind: string)

  datatype QConnection = QConnection(node1: string, node2: string, attenuation: real, distance: real, kind: string)

  datatype CConnection = CConnection(node1: string, node2: string, delay: real)

  datatype Top = Top(
    isParallel: bool,
    stopTime: int,
    nodes: seq<Node>,
    qconnections: seq<QConnection>,
    cconnections: seq<CConnection>)

  /** `f"r{i}"` */
  function RouterName(i: nat): string {
    "r" + Decimal.Format(i)
  }

  /** The node index a router name stands for. */
  function RouterIndex(s: string): Option<nat> {
    if |s| >= 1 && s[0] == 'r' then Decimal.Parse(s[1..]) else None
  }

  lemma RouterNamesRoundTrip()
    ensures forall i: nat :: RouterIndex(RouterName(i)) == Some(i)
  {
    forall i: nat
      ensures RouterIndex(RouterName(i)) == Some(i)
    {
      Decimal.ParseFormat(i);
      assert RouterName(i)[1..] == Decimal.Format(i);
    }
  }

  /** A router name is read back as node `i` exactly when it is `r{i}`:
      no other string, such as `r05`, names a router. */
  lemma RouterIndexExact(s: string, i: nat)
    ensures RouterIndex(s) == Some(i) <==> s == RouterName(i)
  {
    if s == RouterName(i) {
      assert s[1..] == Decimal.Format(i);
    }
    if RouterIndex(s) == Some(i) {
      Decimal.ParseIffFormat(s[1..], i);
      assert s == "r" + s[1..];
    }
    Decimal.ParseIffFormat(RouterName(i)[1..], i);
  }

  /** Router names identify their nodes. */
  lemma RouterNamesDistinct(i: nat, j: nat)
    ensures RouterName(i) == RouterName(j) <==> i == j
  {
    RouterNamesRoundTrip();
  }

  /** `[Node(f"r{i}", i, memo_size) for i in range(n)]` */
  function Nodes(n: nat, memoSize: int): (nodes: seq<Node>)
    ensures |nodes| == n
    ensures forall i :: 0 <= i < n ==>
              && nodes[i].name == "r" + Decimal.Format(i)
              && RouterIndex(nodes[i].name) == Some(i)
              && nodes[i].seed == i
              && nodes[i].memoSize == memoSize
              && nodes[i].kind == RouterKind
    ensures forall i, j :: 0 <= i < j < n ==> nodes[i].name != nodes[j].name
  {
    RouterNamesRoundTrip();
    seq(n, i requires 0 <= i < n => Node(RouterName(i), i, memoSize, RouterKind))
  }

  /** One quantum link per listed edge, in the same order. */
  function QConnections(edges: seq<(nat, nat)>, length: (nat, nat) -> real): (q: seq<QConnection>)
    ensures |q| == |edges|
    ensures forall k :: 0 <= k < |q| ==>
              && RouterIndex(q[k].node1) == Some(edges[k].0)
              && RouterIndex(q[k].node2) == Some(edges[k].1)
              && q[k].attenuation == Attenuation
              && q[k].distance == length(edges[k].0, edges[k].1)
              && q[k].kind == LinkKind
  {
    RouterNamesRoundTrip();
    seq(|edges|, k requires 0 <= k < |edges| =>
      QConnection(RouterName(edges[k].0), RouterName(edges[k].1), Attenuation, length(edges[k].0, edges[k].1), LinkKind))
  }

  /** The pairs `(i, j)` for `i in range(i0, n - 1)`, `j in range(i + 1, n)`. */
  function PairsFrom(i0: nat, n: nat): seq<(nat, nat)>
    decreases n - i0
  {
    if i0 + 1 >= n then []
    else seq(n - i0 - 1, k requires 0 <= k < n - i0 - 1 => (i0, i0 + 1 + k)) + PairsFrom(i0 + 1, n)
  }

  function Pairs(n: nat): seq<(nat, nat)> {
    PairsFrom(0, n)
  }

  /** Lexicographic order on pairs, as Python compares tuples. */
  predicate PairLess(p: (nat, nat), q: (nat, nat)) {
    p.0 < q.0 || (p.0 == q.0 && p.1 < q.1)
  }

  lemma {:induction false} PairsFromCount(i0: nat, n: nat)
    requires i0 <= n
    ensures |PairsFrom(i0, n)| == (n - i0) * (n - i0 - 1) / 2
    decreases n - i0
  {
    if i0 + 1 < n {
      PairsFromCount(i0 + 1, n);
      var d := n - i0;
      assert d * (d - 1) == 2 * (d - 1) + (d - 1) * (d - 2);
    }
  }

  lemma {:induction false} PairsFromMembers(i0: nat, n: nat)
    ensures forall a: nat, b: nat :: (a, b) in PairsFrom(i0, n) <==> i0 <= a < b < n
    decreases n - i0
  {
    if i0 + 1 < n {
      PairsFromMembers(i0 + 1, n);
      var row := seq(n - i0 - 1, k requires 0 <= k < n - i0 - 1 => (i0, i0 + 1 + k));
      forall a: nat, b: nat | i0 == a < b < n
        ensures (a, b) in row
      {
        assert row[b - i0 - 1] == (a, b);
      }
    }
  }

  lemma {:induction false} PairsFromSorted(i0: nat, n: nat)
    ensures forall x, y :: 0 <= x < y < |PairsFrom(i0, n)| ==> PairLess(PairsFrom(i0, n)[x], PairsFrom(i0, n)[y])
    decreases n - i0
  {
    if i0 + 1 < n {
      PairsFromSorted(i0 + 1, n);
      PairsFromMembers(i0 + 1, n);
      var row := seq(n - i0 - 1, k requires 0 <= k < n - i0 - 1 => (i0, i0 + 1 + k));
      var rest := PairsFrom(i0 + 1, n);
      var all := row + rest;
      forall x, y | 0 <= x < y < |all|
        ensures PairLess(all[x], all[y])
      {
        if y >= |row| {
          assert all[y] == rest[y - |row|];
          assert all[y] in rest;
          if x >= |row| {
            assert all[x] == rest[x - |row|];
          }
        }
      }
    }
  }

  /** The classical-link pairs are exactly the pairs `i < j` below `n`, each
      once, in lexicographic order: `n (n - 1) / 2` of them. */
  lemma PairsFacts(n: nat)
    ensures |Pairs(n)| == n * (n - 1) / 2
    ensures forall a: nat, b: nat :: (a, b) in Pairs(n) <==> a < b < n
    ensures forall x, y :: 0 <= x < y < |Pairs(n)| ==> PairLess(Pairs(n)[x], Pairs(n)[y])
    ensures NoDup(Pairs(n))
  {
    PairsFromCount(0, n);
    PairsFromMembers(0, n);
    PairsFromSorted(0, n);
  }

  /** One classical link per unordered pair of routers, delay
      `nx.shortest_path_length(g, i, j, weight="length") * 1e6`; `dist`
      stands for that shortest-path length. */
  function CConnections(n: nat, dist: (nat, nat) -> real): (c: seq<CConnection>)
    ensures |c| == |Pairs(n)| == n * (n - 1) / 2
    ensures forall k :: 0 <= k < |c| ==>
              && RouterIndex(c[k].node1) == Some(Pairs(n)[k].0)
              && RouterIndex(c[k].node2) == Some(Pairs(n)[k].1)
              && c[k].delay == dist(Pairs(n)[k].0, Pairs(n)[k].1) * DelayScale
  {
    PairsFacts(n);
    RouterNamesRoundTrip();
    var p := Pairs(n);
    seq(|p|, k requires 0 <= k < |p| => CConnection(RouterName(p[k].0), RouterName(p[k].1), dist(p[k].0, p[k].1) * DelayScale))
  }

  /** `c` is the classical link of some pair `i < j` of routers. */
  ghost predicate CConnectionOfPair(n: nat, dist: (nat, nat) -> real, c: CConnection) {
    exists i: nat, j: nat :: i < j < n && c == CConnection(RouterName(i), RouterName(j), dist(i, j) * DelayScale)
  }

  lemma CConnectionAt(n: nat, dist: (nat, nat) -> real, k: nat)
    requires k < |Pairs(n)|
    ensures |CConnections(n, dist)| == |Pairs(n)|
    ensures CConnections(n, dist)[k] == CConnection(RouterName(Pairs(n)[k].0), RouterName(Pairs(n)[k].1), dist(Pairs(n)[k].0, Pairs(n)[k].1) * DelayScale)
  {
  }

  lemma {:induction false} CConnectionsComplete(n: nat, dist: (nat, nat) -> real)
    ensures forall i: nat, j: nat :: i < j < n ==>
              CConnection(RouterName(i), RouterName(j), dist(i, j) * DelayScale) in CConnections(n, dist)
  {
    forall i: nat, j: nat | i < j < n
      ensures CConnection(RouterName(i), RouterName(j), dist(i, j) * DelayScale) in CConnections(n, dist)
    {
      CConnectionListed(n, dist, i, j);
    }
  }

  /** The pair `(i, j)` has its classical connection in the list. */
  lemma CConnectionListed(n: nat, dist: (nat, nat) -> real, i: nat, j: nat)
    requires i < j < n
    ensures CConnection(RouterName(i), RouterName(j), dist(i, j) * DelayScale) in CConnections(n, dist)
  {
    var p := Pairs(n);
    assert (i, j) in p by { PairsFromMembers(0, n); }
    var k :| 0 <= k < |p| && p[k] == (i, j);
    CConnectionAt(n, dist, k);
    assert CConnections(n, dist)[k] == CConnection(RouterName(i), RouterName(j), dist(i, j) * DelayScale);
  }

  lemma CConnectionsSound(n: nat, dist: (nat, nat) -> real)
    ensures forall k :: 0 <= k < |CConnections(n, dist)| ==> CConnectionOfPair(n, dist, CConnections(n, dist)[k])
  {
    var c := CConnections(n, dist);
    var p := Pairs(n);
    PairsFacts(n);
    forall k | 0 <= k < |c|
      ensures CConnectionOfPair(n, dist, c[k])
    {
      var i, j := p[k].0, p[k].1;
      assert p[k] == (i, j) && (i, j) in p;
      CConnectionAt(n, dist, k);
      assert i < j < n && c[k] == CConnection(RouterName(i), RouterName(j), dist(i, j) * DelayScale);
    }
  }

  lemma CConnectionsNoDup(n: nat, dist: (nat, nat) -> real)
    ensures NoDup(CConnections(n, dist))
  {
    var c := CConnections(n, dist);
    var p := Pairs(n);
    PairsFacts(n);
    forall x, y | 0 <= x < y < |c|
      ensures c[x] != c[y]
    {
      CConnectionAt(n, dist, x);
      CConnectionAt(n, dist, y);
      RouterNamesDistinct(p[x].0, p[y].0);
      RouterNamesDistinct(p[x].1, p[y].1);
    }
  }

  /** Every pair of distinct routers gets exactly one classical link, lower
      index first, whether or not a quantum link joins them. */
  lemma CConnectionsCoverPairs(n: nat, dist: (nat, nat) -> real)
    ensures forall i: nat, j: nat :: i < j < n ==>
              CConnection(RouterName(i), RouterName(j), dist(i, j) * DelayScale) in CConnections(n, dist)
    ensures forall k :: 0 <= k < |CConnections(n, dist)| ==> CConnectionOfPair(n, dist, CConnections(n, dist)[k])
    ensures NoDup(CConnections(n, dist))
  {
    CConnectionsComplete(n, dist);
    CConnectionsSound(n, dist);
    CConnectionsNoDup(n, dist);
  }

  /** `w` is a walk from `i` to `j` along edges of `g`. */
  ghost predicate IsWalk(g: Graph, w: seq<nat>, i: nat, j: nat) {
    && |w| >= 1 && w[0] == i && w[|w| - 1] == j
    && forall k :: 0 <= k < |w| - 1 ==> HasEdge(g, w[k], w[k + 1])
  }

  /** The summed edge lengths along a walk. */
  function WalkLength(length: (nat, nat) -> real, w: seq<nat>): real {
    if |w| <= 1 then 0.0
    else WalkLength(length, w[..|w| - 1]) + length(w[|w| - 2], w[|w| - 1])
  }

  /** `dist(i, j)` is the length of some walk from `i` to `j`, as every
      shortest-path length is. */
  ghost predicate WalkLengths(g: Graph, length: (nat, nat) -> real, dist: (nat, nat) -> real) {
    forall i: nat, j: nat :: i < j < |g.adj| ==>
      exists w :: IsWalk(g, w, i, j) && dist(i, j) == WalkLength(length, w)
  }

  lemma {:induction false} WalkLengthNonNegative(g: Graph, length: (nat, nat) -> real, w: seq<nat>)
    requires forall a: nat, b: nat :: HasEdge(g, a, b) ==> length(a, b) >= 0.0
    requires forall k :: 0 <= k < |w| - 1 ==> HasEdge(g, w[k], w[k + 1])
    ensures WalkLength(length, w) >= 0.0
  {
    if |w| > 1 {
      var init := w[..|w| - 1];
      forall k | 0 <= k < |init| - 1
        ensures HasEdge(g, init[k], init[k + 1])
      {
        assert init[k] == w[k] && init[k + 1] == w[k + 1];
      }
      WalkLengthNonNegative(g, length, init);
      assert HasEdge(g, w[|w| - 2], w[|w| - 1]);
    }
  }

  /** When every edge length is non-negative, so is every classical delay,
      including those of routers no edge joins. */
  lemma DelaysNonNegative(g: Graph, length: (nat, nat) -> real, dist: (nat, nat) -> real)
    requires forall a: nat, b: nat :: HasEdge(g, a, b) ==> length(a, b) >= 0.0
    requires WalkLengths(g, length, dist)
    ensures forall k :: 0 <= k < |CConnections(|g.adj|, dist)| ==> CConnections(|g.adj|, dist)[k].delay >= 0.0
  {
    var n := |g.adj|;
    var p := Pairs(n);
    forall k | 0 <= k < |CConnections(n, dist)|
      ensures CConnections(n, dist)[k].delay >= 0.0
    {
      CConnectionAt(n, dist, k);
      var i, j := p[k].0, p[k].1;
      assert i < j < n by {
        PairsFacts(n);
        assert p[k] in p;
      }
      var w :| IsWalk(g, w, i, j) && dist(i, j) == WalkLength(length, w);
      WalkLengthNonNegative(g, length, w);
    }
  }

  /** `__generate_json`: the descriptor of graph `g`, whose edge lengths are
      `length` and whose weighted shortest-path lengths are `dist`. */
  function GenerateJson(g: Graph, length: (nat, nat) -> real, dist: (nat, nat) -> real, memoSize: int, stopTime: int): (top: Top)
    ensures !top.isParallel && top.stopTime == stopTime
    ensures |top.nodes| == |g.adj|
    ensures |top.qconnections| == |EdgeList(g)|
    ensures |top.cconnections| == |g.adj| * (|g.adj| - 1) / 2
  {
    Top(
      isParallel := false,
      stopTime := stopTime,
      nodes := Nodes(|g.adj|, memoSize),
      qconnections := QConnections(EdgeList(g), length),
      cconnections := CConnections(|g.adj|, dist))
  }

  /** `s` is the name of a listed router, the one it names by index. */
  predicate NamesRouter(nodes: seq<Node>, s: string) {
    RouterIndex(s).Some? && RouterIndex(s).value < |nodes| && nodes[RouterIndex(s).value].name == s
  }

  lemma RouterNameListed(n: nat, memoSize: int, a: nat)
    requires a < n
    ensures NamesRouter(Nodes(n, memoSize), RouterName(a))
  {
    RouterIndexExact(RouterName(a), a);
  }

  lemma QEndpointsListed(g: Graph, length: (nat, nat) -> real, memoSize: int)
    requires Simple(g)
    ensures forall k :: 0 <= k < |QConnections(EdgeList(g), length)| ==>
              && NamesRouter(Nodes(|g.adj|, memoSize), QConnections(EdgeList(g), length)[k].node1)
              && NamesRouter(Nodes(|g.adj|, memoSize), QConnections(EdgeList(g), length)[k].node2)
  {
    var es := EdgeList(g);
    var q := QConnections(es, length);
    EdgeListIsEdgeSet(g);
    forall k | 0 <= k < |q|
      ensures NamesRouter(Nodes(|g.adj|, memoSize), q[k].node1) && NamesRouter(Nodes(|g.adj|, memoSize), q[k].node2)
    {
      QConnectionAt(es, length, k);
      assert es[k] in es;
      assert HasEdge(g, es[k].0, es[k].1);
      assert es[k].1 < |g.adj| by {
        var kk :| 0 <= kk < |g.adj[es[k].0]| && g.adj[es[k].0][kk] == es[k].1;
      }
      RouterNameListed(|g.adj|, memoSize, es[k].0);
      RouterNameListed(|g.adj|, memoSize, es[k].1);
    }
  }

  lemma CEndpointsListed(n: nat, dist: (nat, nat) -> real, memoSize: int)
    ensures forall k :: 0 <= k < |CConnections(n, dist)| ==>
              && NamesRouter(Nodes(n, memoSize), CConnections(n, dist)[k].node1)
              && NamesRouter(Nodes(n, memoSize), CConnections(n, dist)[k].node2)
  {
    var c := CConnections(n, dist);
    var p := Pairs(n);
    forall k | 0 <= k < |c|
      ensures NamesRouter(Nodes(n, memoSize), c[k].node1) && NamesRouter(Nodes(n, memoSize), c[k].node2)
    {
      CConnectionAt(n, dist, k);
      assert p[k].0 < p[k].1 < n by {
        PairsFacts(n);
        assert p[k] in p;
      }
      RouterNameListed(n, memoSize, p[k].0);
      RouterNameListed(n, memoSize, p[k].1);
    }
  }

  /** On a simple graph every link of the descriptor joins two listed
      routers: its endpoint names are names in `nodes`. */
  lemma LinkEndpointsAreRouters(g: Graph, length: (nat, nat) -> real, dist: (nat, nat) -> real, memoSize: int, stopTime: int)
    requires Simple(g)
    ensures var top := GenerateJson(g, length, dist, memoSize, stopTime);
            forall k :: 0 <= k < |top.qconnections| ==>
              NamesRouter(top.nodes, top.qconnections[k].node1) && NamesRouter(top.nodes, top.qconnections[k].node2)
    ensures var top := GenerateJson(g, length, dist, memoSize, stopTime);
            forall k :: 0 <= k < |top.cconnections| ==>
              NamesRouter(top.nodes, top.cconnections[k].node1) && NamesRouter(top.nodes, top.cconnections[k].node2)
  {
    QEndpointsListed(g, length, memoSize);
    CEndpointsListed(|g.adj|, dist, memoSize);
  }

  lemma QConnectionAt(es: seq<(nat, nat)>, length: (nat, nat) -> real, k: nat)
    requires k < |es|
    ensures |QConnections(es, length)| == |es|
    ensures QConnections(es, length)[k] == QConnection(RouterName(es[k].0), RouterName(es[k].1), Attenuation, length(es[k].0, es[k].1), LinkKind)
  {
  }

  /** On a simple graph the quantum links are the graph's edges, each
      once, named lower index first. */
  lemma QConnectionsMatchEdges(g: Graph, length: (nat, nat) -> real)
    requires Simple(g)
    ensures forall a: nat, b: nat :: a < b && HasEdge(g, a, b) <==>
              QConnection(RouterName(a), RouterName(b), Attenuation, length(a, b), LinkKind) in QConnections(EdgeList(g), length)
    ensures NoDup(QConnections(EdgeList(g), length))
  {
    var es := EdgeList(g);
    var q := QConnections(es, length);
    EdgeListIsEdgeSet(g);
    forall a: nat, b: nat
      ensures a < b && HasEdge(g, a, b) <==> QConnection(RouterName(a), RouterName(b), Attenuation, length(a, b), LinkKind) in q
    {
      if a < b && HasEdge(g, a, b) {
        assert (a, b) in es;
        var k :| 0 <= k < |es| && es[k] == (a, b);
        QConnectionAt(es, length, k);
      }
      if QConnection(RouterName(a), RouterName(b), Attenuation, length(a, b), LinkKind) in q {
        var k :| 0 <= k < |q| && q[k] == QConnection(RouterName(a), RouterName(b), Attenuation, length(a, b), LinkKind);
        QConnectionAt(es, length, k);
        RouterNamesDistinct(a, es[k].0);
        RouterNamesDistinct(b, es[k].1);
        assert es[k] in es;
      }
    }
    forall x, y | 0 <= x < y < |q|
      ensures q[x] != q[y]
    {
      QConnectionAt(es, length, x);
      QConnectionAt(es, length, y);
      RouterNamesDistinct(es[x].0, es[y].0);
      RouterNamesDistinct(es[x].1, es[y].1);
    }
  }

}
