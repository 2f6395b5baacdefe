/** `nx.voronoi_cells(g, seeds)` as used by the metrics: every node goes to
    the cell of its nearest seed.  The metrics pass no edge weight the
    written graph carries, so distances are hop counts; they are taken as a
    given table `dist(u, v)` (`None` when `v` is unreachable from `u`). */
module Voronoi {

  import opened Options

  type Table = (nat, nat) -> Option<nat>

  /** A distance is zero exactly from a node to itself. */
  predicate IsDistanceTable(dist: Table, n: nat) {
    forall u: nat, v: nat :: u < n && v < n ==> (dist(u, v) == Some(0) <==> u == v)
  }

  predicate Connected(dist: Table, n: nat) {
    forall u: nat, v: nat :: u < n && v < n ==> dist(u, v).Some?
  }

  predicate Distinct(seeds: seq<nat>) {
    forall a, b :: 0 <= a < b < |seeds| ==> seeds[a] != seeds[b]
  }

  /** The position in `seeds` of the seed nearest to `v`, the earliest one
      among equally near seeds; `None` when no seed reaches `v`. */
  function Nearest(dist: Table, seeds: seq<nat>, v: nat): (r: Option<nat>)
    ensures r.None? <==> forall s :: 0 <= s < |seeds| ==> dist(seeds[s], v).None?
    ensures r.Some? ==> r.value < |seeds| && dist(seeds[r.value], v).Some?
    ensures r.Some? ==> forall s :: 0 <= s < |seeds| && dist(seeds[s], v).Some? ==>
                          dist(seeds[r.value], v).value <= dist(seeds[s], v).value
    ensures r.Some? ==> forall s :: 0 <= s < r.value && dist(seeds[s], v).Some? ==>
                          dist(seeds[r.value], v).value < dist(seeds[s], v).value
  {
    if |seeds| == 0 then None
    else
      var last := |seeds| - 1;
      var init := seeds[..last];
      assert forall s :: 0 <= s < last ==> init[s] == seeds[s];
      var r := Nearest(dist, init, v);
      match dist(seeds[last], v)
      case None => r
      case Some(d) =>
        if r.None? || d < dist(seeds[r.value], v).value then Some(last) else r
  }

  /** The cell of every node `0..n-1`. */
  function Assignment(dist: Table, seeds: seq<nat>, n: nat): (a: seq<Option<nat>>)
    ensures |a| == n
    ensures forall v :: 0 <= v < n ==> a[v] == Nearest(dist, seeds, v)
  {
    seq(n, v requires 0 <= v < n => Nearest(dist, seeds, v))
  }

  /** The number of nodes assigned to cell `s`. */
  function CellSize(a: seq<Option<nat>>, s: nat): nat {
    if |a| == 0 then 0
    else CellSize(a[..|a| - 1], s) + (if a[|a| - 1] == Some(s) then 1 else 0)
  }

  /** The number of nodes assigned to one of the cells `0..k-1`. */
  function AssignedBelow(a: seq<Option<nat>>, k: nat): nat {
    if |a| == 0 then 0
    else AssignedBelow(a[..|a| - 1], k) + (if a[|a| - 1].Some? && a[|a| - 1].value < k then 1 else 0)
  }

  function Total(sizes: seq<nat>): nat {
    if |sizes| == 0 then 0 else Total(sizes[..|sizes| - 1]) + sizes[|sizes| - 1]
  }

  /** `len(vcdict[s])` for every seed, in seed order. */
  function CellSizes(dist: Table, seeds: seq<nat>, n: nat): (sizes: seq<nat>)
    ensures |sizes| == |seeds|
    ensures forall s :: 0 <= s < |seeds| ==> sizes[s] == CellSize(Assignment(dist, seeds, n), s)
  {
    SizesBelow(Assignment(dist, seeds, n), |seeds|)
  }

  lemma {:induction false} CellSizeCounts(a: seq<Option<nat>>, s: nat, v: nat)
    requires v < |a| && a[v] == Some(s)
    ensures CellSize(a, s) >= 1
  {
    if v < |a| - 1 {
      CellSizeCounts(a[..|a| - 1], s, v);
    }
  }

  lemma {:induction false} AssignedStep(a: seq<Option<nat>>, k: nat)
    ensures AssignedBelow(a, k + 1) == AssignedBelow(a, k) + CellSize(a, k)
  {
    if |a| > 0 {
      AssignedStep(a[..|a| - 1], k);
    }
  }

  lemma {:induction false} AssignedAll(a: seq<Option<nat>>, k: nat)
    requires forall v :: 0 <= v < |a| ==> a[v].Some? && a[v].value < k
    ensures AssignedBelow(a, k) == |a|
  {
    if |a| > 0 {
      AssignedAll(a[..|a| - 1], k);
    }
  }

  lemma {:induction false} AssignedNone(a: seq<Option<nat>>)
    ensures AssignedBelow(a, 0) == 0
  {
    if |a| > 0 {
      AssignedNone(a[..|a| - 1]);
    }
  }

  /** The sizes of cells `0..k-1`. */
  function SizesBelow(a: seq<Option<nat>>, k: nat): (sizes: seq<nat>)
    ensures |sizes| == k
    ensures forall s :: 0 <= s < k ==> sizes[s] == CellSize(a, s)
  {
    seq(k, s requires 0 <= s < k => CellSize(a, s))
  }

  /** The sizes of cells `0..k-1` add up to the nodes assigned to them. */
  lemma {:induction false} TotalOfCellSizes(a: seq<Option<nat>>, k: nat)
    ensures Total(SizesBelow(a, k)) == AssignedBelow(a, k)
  {
    if k > 0 {
      var sizes := SizesBelow(a, k);
      assert sizes[..k - 1] == SizesBelow(a, k - 1);
      TotalOfCellSizes(a, k - 1);
      AssignedStep(a, k - 1);
    } else {
      AssignedNone(a);
    }
  }

  /** Each seed lies in its own cell. */
  lemma {:induction false} SeedInOwnCell(dist: Table, seeds: seq<nat>, n: nat, s: nat)
    requires IsDistanceTable(dist, n) && Distinct(seeds)
    requires forall t :: 0 <= t < |seeds| ==> seeds[t] < n
    requires s < |seeds|
    ensures Nearest(dist, seeds, seeds[s]) == Some(s)
    ensures CellSizes(dist, seeds, n)[s] >= 1
  {
    var r := Nearest(dist, seeds, seeds[s]);
    assert dist(seeds[s], seeds[s]) == Some(0);
    assert dist(seeds[r.value], seeds[s]) == Some(0);
    CellSizeCounts(Assignment(dist, seeds, n), s, seeds[s]);
  }

  /** On a connected graph every node lies in exactly one cell, so the cell
      sizes add up to the number of nodes. */
  lemma CellsPartitionNodes(dist: Table, seeds: seq<nat>, n: nat)
    requires Connected(dist, n) && |seeds| > 0
    requires forall t :: 0 <= t < |seeds| ==> seeds[t] < n
    ensures forall v :: 0 <= v < n ==> Nearest(dist, seeds, v).Some? && Nearest(dist, seeds, v).value < |seeds|
    ensures Total(CellSizes(dist, seeds, n)) == n
  {
    var a := Assignment(dist, seeds, n);
    forall v | 0 <= v < n
      ensures a[v].Some? && a[v].value < |seeds|
    {
      assert dist(seeds[0], v).Some?;
    }
    AssignedAll(a, |seeds|);
    TotalOfCellSizes(a, |seeds|);
  }

}
