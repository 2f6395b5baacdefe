/** The undirected graph as networkx's `Graph` stores it for nodes
    `0..n-1`: for every node, its neighbours in the order the edges were
    added.  Edge iteration (`g.edges`) walks the nodes in index order and
    reports a neighbour only if that neighbour's own turn has not come yet,
    so every edge appears once, as `(u, v)` with `u <= v`. */
module Graphs {

  datatype Graph = Graph(adj: seq<seq<nat>>)

  predicate NoDup<T(==)>(s: seq<T>) {
    forall a, b :: 0 <= a < b < |s| ==> s[a] != s[b]
  }

  /** No self-loop, no parallel edge, no dangling neighbour, and every
      adjacency is recorded at both ends. */
  ghost predicate Simple(g: Graph) {
    && (forall u, k :: 0 <= u < |g.adj| && 0 <= k < |g.adj[u]| ==>
          g.adj[u][k] < |g.adj| && g.adj[u][k] != u)
    && (forall u :: 0 <= u < |g.adj| ==> NoDup(g.adj[u]))
    && (forall u, v :: 0 <= u < |g.adj| && 0 <= v < |g.adj| && v in g.adj[u] ==> u in g.adj[v])
  }

  /** `g.has_edge(u, v)` */
  predicate HasEdge(g: Graph, u: nat, v: nat) {
    u < |g.adj| && v in g.adj[u]
  }

  /** Storing a neighbour in an adjacency dict: an existing key keeps its place. */
  function Attach(nbrs: seq<nat>, x: nat): (r: seq<nat>)
    ensures x in r
    ensures forall y :: y in r <==> y in nbrs || y == x
  {
    if x in nbrs then nbrs else nbrs + [x]
  }

  /** `g.add_edge(u, v)` on two existing nodes. */
  function AddEdge(g: Graph, u: nat, v: nat): (h: Graph)
    requires u < |g.adj| && v < |g.adj|
    ensures |h.adj| == |g.adj|
    ensures forall a, b :: HasEdge(h, a, b) <==> HasEdge(g, a, b) || (a == u && b == v) || (a == v && b == u)
  {
    var adj1 := g.adj[u := Attach(g.adj[u], v)];
    Graph(adj1[v := Attach(adj1[v], u)])
  }

  /** The edges reported at node `u`: neighbours whose turn has not come. */
  function Up(u: nat, nbrs: seq<nat>): (es: seq<(nat, nat)>)
  {
    if |nbrs| == 0 then []
    else
      var x := nbrs[|nbrs| - 1];
      Up(u, nbrs[..|nbrs| - 1]) + (if x >= u then [(u, x)] else [])
  }

  function EdgesFrom(g: Graph, u: nat): seq<(nat, nat)>
    decreases |g.adj| - u
  {
    if u >= |g.adj| then [] else Up(u, g.adj[u]) + EdgesFrom(g, u + 1)
  }

  /** `list(g.edges)`, in networkx's iteration order. */
  function EdgeList(g: Graph): seq<(nat, nat)> {
    EdgesFrom(g, 0)
  }

  lemma {:induction false} UpMembers(u: nat, nbrs: seq<nat>)
    ensures forall a, b :: (a, b) in Up(u, nbrs) <==> a == u && b in nbrs && u <= b
  {
    if |nbrs| > 0 {
      UpMembers(u, nbrs[..|nbrs| - 1]);
      assert nbrs == nbrs[..|nbrs| - 1] + [nbrs[|nbrs| - 1]];
    }
  }

  lemma {:induction false} UpNoDup(u: nat, nbrs: seq<nat>)
    requires NoDup(nbrs)
    ensures NoDup(Up(u, nbrs))
  {
    if |nbrs| > 0 {
      var init := nbrs[..|nbrs| - 1];
      var x := nbrs[|nbrs| - 1];
      UpNoDup(u, init);
      UpMembers(u, init);
      assert x !in init;
    }
  }

  lemma {:induction false} UpAppend(u: nat, nbrs: seq<nat>, x: nat)
    ensures |Up(u, nbrs + [x])| == |Up(u, nbrs)| + (if x >= u then 1 else 0)
  {
    assert (nbrs + [x])[..|nbrs + [x]| - 1] == nbrs;
  }

  lemma {:induction false} EdgesFromMembers(g: Graph, u: nat)
    ensures forall a, b :: (a, b) in EdgesFrom(g, u) <==> u <= a < |g.adj| && b in g.adj[a] && a <= b
    decreases |g.adj| - u
  {
    if u < |g.adj| {
      UpMembers(u, g.adj[u]);
      EdgesFromMembers(g, u + 1);
    }
  }

  lemma {:induction false} EdgesFromNoDup(g: Graph, u: nat)
    requires forall w :: 0 <= w < |g.adj| ==> NoDup(g.adj[w])
    ensures NoDup(EdgesFrom(g, u))
    decreases |g.adj| - u
  {
    if u < |g.adj| {
      var head := Up(u, g.adj[u]);
      var tail := EdgesFrom(g, u + 1);
      UpNoDup(u, g.adj[u]);
      UpMembers(u, g.adj[u]);
      EdgesFromNoDup(g, u + 1);
      EdgesFromMembers(g, u + 1);
      var all := head + tail;
      forall a: int, b: int | 0 <= a < b < |all|
        ensures all[a] != all[b]
      {
        if a < |head| && b >= |head| {
          assert head[a] in head && tail[b - |head|] in tail;
        }
      }
    }
  }

  /** `g.edges` lists exactly the edges of `g`, each once, lower end first. */
  lemma EdgeListIsEdgeSet(g: Graph)
    requires Simple(g)
    ensures NoDup(EdgeList(g))
    ensures forall a: nat, b: nat :: (a, b) in EdgeList(g) <==> a < b && HasEdge(g, a, b)
  {
    EdgesFromNoDup(g, 0);
    EdgesFromMembers(g, 0);
  }

  lemma AddEdgeSimple(g: Graph, u: nat, v: nat)
    requires Simple(g) && u < |g.adj| && v < |g.adj| && u != v
    ensures Simple(AddEdge(g, u, v))
  {
    var h := AddEdge(g, u, v);
    forall w | 0 <= w < |h.adj|
      ensures NoDup(h.adj[w])
    {
      if w == u {
        assert h.adj[w] == Attach(g.adj[u], v);
      } else if w == v {
        assert h.adj[w] == Attach(g.adj[v], u);
      }
    }
  }

  lemma AddEdgeAdj(g: Graph, u: nat, v: nat)
    requires u < |g.adj| && v < |g.adj| && u != v && v !in g.adj[u] && u !in g.adj[v]
    ensures AddEdge(g, u, v).adj == g.adj[u := g.adj[u] + [v]][v := g.adj[v] + [u]]
  {
  }

  lemma {:induction false} AddEdgeEdgesFrom(g: Graph, u: nat, v: nat, w: nat)
    requires u < |g.adj| && v < |g.adj| && u != v && v !in g.adj[u] && u !in g.adj[v]
    ensures |EdgesFrom(AddEdge(g, u, v), w)| == |EdgesFrom(g, w)| + (if w <= u && w <= v then 1 else 0)
    decreases |g.adj| - w
  {
    var h := AddEdge(g, u, v);
    AddEdgeAdj(g, u, v);
    if w < |g.adj| {
      AddEdgeEdgesFrom(g, u, v, w + 1);
      assert EdgesFrom(h, w) == Up(w, h.adj[w]) + EdgesFrom(h, w + 1);
      assert EdgesFrom(g, w) == Up(w, g.adj[w]) + EdgesFrom(g, w + 1);
      if w == u {
        UpAppend(w, g.adj[u], v);
      } else if w == v {
        UpAppend(w, g.adj[v], u);
      }
    }
  }

  /** Adding an absent edge between distinct nodes keeps the graph simple
      and grows the edge list by exactly one. */
  lemma AddEdgeCount(g: Graph, u: nat, v: nat)
    requires Simple(g) && u < |g.adj| && v < |g.adj| && u != v && !HasEdge(g, u, v)
    ensures Simple(AddEdge(g, u, v))
    ensures |EdgeList(AddEdge(g, u, v))| == |EdgeList(g)| + 1
  {
    AddEdgeSimple(g, u, v);
    assert u !in g.adj[v];
    AddEdgeEdgesFrom(g, u, v, 0);
  }

  /** Node `u`'s neighbours in `nx.cycle_graph(n)`, which adds the edges
      (0,1), (1,2), ..., (n-2,n-1), (n-1,0) in that order. */
  function CycleNeighbours(n: nat, u: nat): seq<nat>
    requires n >= 3 && u < n
  {
    if u == 0 then [1, n - 1]
    else if u == n - 1 then [n - 2, 0]
    else [u - 1, u + 1]
  }

  function Cycle(n: nat): (g: Graph)
    requires n >= 3
    ensures |g.adj| == n
  {
    Graph(seq(n, u requires 0 <= u < n => CycleNeighbours(n, u)))
  }

  lemma {:induction false} CycleEdgesFrom(n: nat, w: nat)
    requires n >= 3 && 1 <= w <= n
    ensures |EdgesFrom(Cycle(n), w)| == n - 1 - (if w == n then n - 1 else w)
    decreases n - w
  {
    var g := Cycle(n);
    if w < n {
      CycleEdgesFrom(n, w + 1);
      if w == n - 1 {
        assert g.adj[w] == [n - 2, 0];
        assert |Up(w, [n - 2, 0])| == |Up(w, [n - 2])| + 0 by { UpAppend(w, [n - 2], 0); }
        assert |Up(w, [n - 2])| == |Up(w, [])| + 0 by { UpAppend(w, [], n - 2); }
      } else {
        assert g.adj[w] == [w - 1, w + 1];
        assert |Up(w, [w - 1, w + 1])| == |Up(w, [w - 1])| + 1 by { UpAppend(w, [w - 1], w + 1); }
        assert |Up(w, [w - 1])| == |Up(w, [])| + 0 by { UpAppend(w, [], w - 1); }
      }
    }
  }

  lemma CycleSimple(n: nat)
    requires n >= 3
    ensures Simple(Cycle(n))
  {
    var g := Cycle(n);
    forall u, k | 0 <= u < n && 0 <= k < |g.adj[u]|
      ensures g.adj[u][k] < n && g.adj[u][k] != u
    {
      assert g.adj[u] == CycleNeighbours(n, u);
    }
    forall u | 0 <= u < n
      ensures NoDup(g.adj[u])
    {
      assert g.adj[u] == CycleNeighbours(n, u);
    }
    forall u, v | 0 <= u < n && 0 <= v < n && v in g.adj[u]
      ensures u in g.adj[v]
    {
      assert g.adj[u] == CycleNeighbours(n, u);
      assert g.adj[v] == CycleNeighbours(n, v);
    }
  }

  lemma CycleCount(n: nat)
    requires n >= 3
    ensures |EdgeList(Cycle(n))| == n
  {
    var g := Cycle(n);
    CycleEdgesFrom(n, 1);
    assert g.adj[0] == [1, n - 1];
    assert |Up(0, [1, n - 1])| == |Up(0, [1])| + 1 by { UpAppend(0, [1], n - 1); }
    assert |Up(0, [1])| == |Up(0, [])| + 1 by { UpAppend(0, [], 1); }
  }

  /** The successor of `a` on the ring `0..n-1`. */
  lemma SuccessorMod(n: nat, a: nat)
    requires a < n
    ensures (a + 1) % n == if a == n - 1 then 0 else a + 1
  {
  }

  lemma CycleHasEdge(n: nat, a: nat, b: nat)
    requires n >= 3
    ensures HasEdge(Cycle(n), a, b) <==> a < n && b < n && (b == (a + 1) % n || a == (b + 1) % n)
  {
    if a < n {
      assert Cycle(n).adj[a] == CycleNeighbours(n, a);
      SuccessorMod(n, a);
      if b < n {
        SuccessorMod(n, b);
      }
    }
  }

  /** `nx.cycle_graph(n)` is simple, has `n` edges, and joins each node to
      its successor modulo `n`. */
  lemma CycleFacts(n: nat)
    requires n >= 3
    ensures Simple(Cycle(n))
    ensures |EdgeList(Cycle(n))| == n
    ensures forall a: nat, b: nat :: HasEdge(Cycle(n), a, b) <==> a < n && b < n && (b == (a + 1) % n || a == (b + 1) % n)
  {
    CycleSimple(n);
    CycleCount(n);
    forall a: nat, b: nat
      ensures HasEdge(Cycle(n), a, b) <==> a < n && b < n && (b == (a + 1) % n || a == (b + 1) % n)
    {
      CycleHasEdge(n, a, b);
    }
  }

}
