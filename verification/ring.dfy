/** The ring topology: a cycle on `n` nodes plus `m` random shortcuts
    found by rejection sampling, and the circular offset of every edge that
    its chord length is computed from.  The random generator is replaced
    by the explicit list of pairs it would have drawn. */
module Ring {

  import opened Graphs

  /** One draw `(rng.integers(0, n), rng.integers(0, n))`. */
  type Sample = (nat, nat)

  /** The loop's variables: the graph and `temp`, the shortcuts added so far. */
  datatype LoopState = LoopState(graph: Graph, added: nat)

  /** Where the loop stopped, and how many samples it consumed. */
  datatype Exit = Exit(state: LoopState, drawn: nat)

  /** The generator only yields nodes of the graph. */
  predicate InRange(samples: seq<Sample>, n: nat) {
    forall k :: 0 <= k < |samples| ==> samples[k].0 < n && samples[k].1 < n
  }

  /** The loop keeps a sample only if it is a new edge between distinct nodes. */
  predicate Accepts(g: Graph, s: Sample) {
    s.0 != s.1 && !HasEdge(g, s.0, s.1)
  }

  /** One iteration of the loop body. */
  function Draw(st: LoopState, s: Sample): (r: LoopState)
    requires s.0 < |st.graph.adj| && s.1 < |st.graph.adj|
    ensures |r.graph.adj| == |st.graph.adj|
    ensures r.added == st.added + (if Accepts(st.graph, s) then 1 else 0)
  {
    if Accepts(st.graph, s) then LoopState(AddEdge(st.graph, s.0, s.1), st.added + 1) else st
  }

  /** A rejected sample leaves the state as it was; an accepted one keeps
      the graph simple and adds one edge, counted by `temp`. */
  lemma {:induction false} DrawFacts(st: LoopState, s: Sample)
    requires Simple(st.graph) && s.0 < |st.graph.adj| && s.1 < |st.graph.adj|
    ensures !Accepts(st.graph, s) ==> Draw(st, s) == st
    ensures Simple(Draw(st, s).graph)
    ensures |EdgeList(Draw(st, s).graph)| == |EdgeList(st.graph)| + (Draw(st, s).added - st.added)
  {
    if Accepts(st.graph, s) {
      AddEdgeCount(st.graph, s.0, s.1);
    }
  }

  /** `while temp < m:` drawing from `samples` until `m` shortcuts were added
      or the samples run out (the source would keep drawing). */
  function Run(st: LoopState, m: nat, samples: seq<Sample>): (r: Exit)
    requires InRange(samples, |st.graph.adj|) && st.added <= m
    ensures r.drawn <= |samples|
    ensures |r.state.graph.adj| == |st.graph.adj|
    ensures st.added <= r.state.added <= m
    ensures r.state.added < m ==> r.drawn == |samples|
    decreases |samples|
  {
    if st.added >= m || |samples| == 0 then Exit(st, 0)
    else
      var rest := Run(Draw(st, samples[0]), m, samples[1..]);
      Exit(rest.state, rest.drawn + 1)
  }

  /** The loop keeps the graph simple, and `temp` counts exactly the edges
      it added. */
  lemma {:induction false} RunKeepsSimple(st: LoopState, m: nat, samples: seq<Sample>)
    requires Simple(st.graph) && InRange(samples, |st.graph.adj|) && st.added <= m
    ensures Simple(Run(st, m, samples).state.graph)
    ensures |EdgeList(Run(st, m, samples).state.graph)| == |EdgeList(st.graph)| + (Run(st, m, samples).state.added - st.added)
    decreases |samples|
  {
    if st.added < m && |samples| > 0 {
      DrawFacts(st, samples[0]);
      RunKeepsSimple(Draw(st, samples[0]), m, samples[1..]);
    }
  }

  /** The loop only adds edges, and every edge it adds is one of the pairs
      it drew. */
  lemma {:induction false} RunEdges(st: LoopState, m: nat, samples: seq<Sample>)
    requires InRange(samples, |st.graph.adj|) && st.added <= m
    ensures forall a: nat, b: nat :: HasEdge(st.graph, a, b) ==> HasEdge(Run(st, m, samples).state.graph, a, b)
    ensures forall a: nat, b: nat :: HasEdge(Run(st, m, samples).state.graph, a, b) ==>
              || HasEdge(st.graph, a, b)
              || (a, b) in samples[..Run(st, m, samples).drawn]
              || (b, a) in samples[..Run(st, m, samples).drawn]
    decreases |samples|
  {
    if st.added < m && |samples| > 0 {
      var s := samples[0];
      var next := Draw(st, s);
      var rest := Run(next, m, samples[1..]);
      var r := Run(st, m, samples);
      assert r.state == rest.state;
      RunEdges(next, m, samples[1..]);
      assert forall a: nat, b: nat :: HasEdge(next.graph, a, b) ==>
        HasEdge(st.graph, a, b) || (a == s.0 && b == s.1) || (a == s.1 && b == s.0);
      assert forall a: nat, b: nat :: HasEdge(st.graph, a, b) ==> HasEdge(next.graph, a, b);
      var drawn := samples[..rest.drawn + 1];
      assert drawn == [s] + samples[1..][..rest.drawn];
      forall a: nat, b: nat | HasEdge(r.state.graph, a, b) && !HasEdge(st.graph, a, b)
        ensures (a, b) in drawn || (b, a) in drawn
      {
        if !HasEdge(next.graph, a, b) {
          assert (a, b) in samples[1..][..rest.drawn] || (b, a) in samples[1..][..rest.drawn];
        } else {
          assert (a == s.0 && b == s.1) || (a == s.1 && b == s.0);
          assert s in drawn;
        }
      }
    }
  }

  /** Resuming the loop on more samples is the same as running it on the
      concatenation, as long as the first part did not finish it. */
  lemma {:induction false} RunAppend(st: LoopState, m: nat, a: seq<Sample>, b: seq<Sample>)
    requires InRange(a + b, |st.graph.adj|) && st.added <= m
    requires InRange(a, |st.graph.adj|) && Run(st, m, a).state.added < m
    ensures InRange(b, |st.graph.adj|)
    ensures Run(st, m, a + b) == Exit(Run(Run(st, m, a).state, m, b).state, |a| + Run(Run(st, m, a).state, m, b).drawn)
    decreases |a|
  {
    assert forall k :: 0 <= k < |b| ==> b[k] == (a + b)[|a| + k];
    if |a| == 0 {
      assert a + b == b;
    } else {
      var next := Draw(st, a[0]);
      assert (a + b)[1..] == a[1..] + b;
      RunAppend(next, m, a[1..], b);
    }
  }

  /** A rejected sample changes nothing: deleting it from the sample list
      leaves the final graph and counter as they were. */
  lemma RejectedSampleIsIgnored(st: LoopState, m: nat, a: seq<Sample>, s: Sample, b: seq<Sample>)
    requires InRange(a + [s] + b, |st.graph.adj|) && st.added <= m
    requires InRange(a, |st.graph.adj|) && Run(st, m, a).state.added < m
    requires !Accepts(Run(st, m, a).state.graph, s)
    ensures InRange(a + b, |st.graph.adj|)
    ensures Run(st, m, a + [s] + b).state == Run(st, m, a + b).state
  {
    assert a + [s] + b == a + ([s] + b);
    assert forall k :: 0 <= k < |a + b| ==> (a + b)[k] == (if k < |a| then (a + [s] + b)[k] else (a + [s] + b)[k + 1]);
    RunAppend(st, m, a, [s] + b);
    RunAppend(st, m, a, b);
    assert ([s] + b)[1..] == b;
  }

  /** The loop exits as soon as `temp` reaches `m`: before its last draw
      the counter was still below `m`. */
  lemma {:induction false} RunStopsAtTarget(st: LoopState, m: nat, samples: seq<Sample>)
    requires InRange(samples, |st.graph.adj|) && st.added <= m
    ensures var d := Run(st, m, samples).drawn;
            d > 0 ==> Run(st, m, samples[..d - 1]).state.added < m
    decreases |samples|
  {
    var d := Run(st, m, samples).drawn;
    if d > 0 {
      var next := Draw(st, samples[0]);
      var rest := Run(next, m, samples[1..]);
      if rest.drawn > 0 {
        RunStopsAtTarget(next, m, samples[1..]);
        StepPrefix(st, m, samples, rest.drawn - 1);
      } else {
        assert samples[..d - 1] == [];
      }
    }
  }

  /** Running on a non-empty prefix starts with the first sample. */
  lemma StepPrefix(st: LoopState, m: nat, samples: seq<Sample>, k: nat)
    requires InRange(samples, |st.graph.adj|) && st.added < m
    requires k < |samples|
    ensures Run(st, m, samples[..k + 1]).state == Run(Draw(st, samples[0]), m, samples[1..][..k]).state
  {
    var prefix := samples[..k + 1];
    assert prefix[0] == samples[0];
    assert prefix[1..] == samples[1..][..k];
  }

  function Min(a: int, b: int): int {
    if a <= b then a else b
  }

  function Abs(a: int): nat {
    if a < 0 then -a else a
  }

  /** `min(i - j, j - i) % n`.  Python's `%` rounds the quotient down; for a
      positive divisor that agrees with Dafny's Euclidean `%`. */
  function Offset(i: int, j: int, n: nat): (k: nat)
    requires n > 0
    ensures k < n
  {
    Min(i - j, j - i) % n
  }

  /** For two distinct nodes the offset is `n - |i - j|`, lies in
      `[1, n-1]` and does not depend on the order of the endpoints. */
  lemma OffsetFacts(i: nat, j: nat, n: nat)
    requires i < n && j < n && i != j
    ensures Offset(i, j, n) == n - Abs(i - j)
    ensures 1 <= Offset(i, j, n) <= n - 1
    ensures Offset(i, j, n) == Offset(j, i, n)
  {
    var d: int := Abs(i - j);
    assert Min(i - j, j - i) == -d;
    assert -d == -1 * n + (n - d);
    assert 0 <= n - d < n;
  }

  lemma ModOfNegative(x: int, n: nat)
    requires 0 < -x < n
    ensures x % n == n + x && (-x) % n == -x
  {
    assert x == -1 * n + (n + x);
  }

  /** The offset measured the short way round the circle. */
  function ShortOffset(i: int, j: int, n: nat): nat
    requires n > 0
  {
    Min((i - j) % n, (j - i) % n)
  }

  /** The code's offset is the short-way offset or its complement, so both
      name the same chord (`sin(pi k / n) == sin(pi (n - k) / n)`). */
  lemma {:induction false} OffsetComplementsShortOffset(i: nat, j: nat, n: nat)
    requires i < n && j < n && i != j
    ensures ShortOffset(i, j, n) == Min(Offset(i, j, n), n - Offset(i, j, n))
  {
    OffsetFacts(i, j, n);
    if i > j {
      ModOfNegative(j - i, n);
    } else {
      ModOfNegative(i - j, n);
    }
  }

  /** The edge weight `2 * radius * sin(pi / n * k)`: `chord` stands for
      the floating-point chord formula as a function of the offset. */
  function EdgeLength(n: nat, chord: nat -> real, i: nat, j: nat): real
    requires n > 0
  {
    chord(Offset(i, j, n))
  }

  /** Every edge of a simple graph on `n` nodes has an offset in
      `[1, n-1]`, the same from either end, so its length is well defined. */
  lemma EdgeOffsets(g: Graph, chord: nat -> real)
    requires Simple(g) && |g.adj| > 0
    ensures forall e :: e in EdgeList(g) ==>
              && 1 <= Offset(e.0, e.1, |g.adj|) <= |g.adj| - 1
              && Offset(e.0, e.1, |g.adj|) == Offset(e.1, e.0, |g.adj|)
              && EdgeLength(|g.adj|, chord, e.0, e.1) == EdgeLength(|g.adj|, chord, e.1, e.0)
  {
    EdgeListIsEdgeSet(g);
    forall e | e in EdgeList(g)
      ensures 1 <= Offset(e.0, e.1, |g.adj|) <= |g.adj| - 1
      ensures Offset(e.0, e.1, |g.adj|) == Offset(e.1, e.0, |g.adj|)
    {
      assert e.0 < e.1 && HasEdge(g, e.0, e.1);
      OffsetFacts(e.0, e.1, |g.adj|);
    }
  }

}
