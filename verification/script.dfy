/** The top-level script: its `generate` repeats `generate_cycle` (see
    `Generator.GenerateRing`), and its `metrics` ranks the nodes of the
    written edge list by betweenness.  Read back from the edge list, node
    ids are strings, so the scores are looked up under `f"{i}"`. */
module TopologyScript {

  import opened Options
  import Decimal
  import opened Metrics

  /** The keys `f"{i}"` for `i in range(n)`. */
  function NodeIds(n: nat): (ids: seq<string>)
    ensures |ids| == n && forall i :: 0 <= i < n ==> ids[i] == Decimal.Format(i)
  {
    seq(n, i requires 0 <= i < n => Decimal.Format(i))
  }

  /** `np.argsort([bc[f"{i}"] for i in range(n)])[::-1]`: every index once,
      by non-increasing betweenness; `None` for the `KeyError` of a
      missing id. */
  function RankByBetweenness(bc: map<string, real>, n: nat): (r: Option<seq<nat>>)
    ensures r.Some? <==> forall i :: 0 <= i < n ==> Decimal.Format(i) in bc
    ensures r.Some? ==> |r.value| == n && forall k :: 0 <= k < n ==> r.value[k] < n
    ensures r.Some? ==> forall i :: 0 <= i < n ==> i in r.value
    ensures r.Some? ==> forall a, b :: 0 <= a < b < n ==> r.value[a] != r.value[b]
    ensures r.Some? ==> forall a, b :: 0 <= a < b < n ==>
              bc[Decimal.Format(r.value[a])] >= bc[Decimal.Format(r.value[b])]
  {
    var ids := NodeIds(n);
    var values := Lookup(bc, ids);
    IdsPresent(bc, n);
    if values.None? then None else Some(Ranking(values.value))
  }

  lemma IdsPresent(bc: map<string, real>, n: nat)
    ensures (forall i :: 0 <= i < n ==> Decimal.Format(i) in bc) <==>
            (forall i :: 0 <= i < |NodeIds(n)| ==> NodeIds(n)[i] in bc)
  {
    var ids := NodeIds(n);
    if forall i :: 0 <= i < |ids| ==> ids[i] in bc {
      forall i | 0 <= i < n
        ensures Decimal.Format(i) in bc
      {
        assert ids[i] in bc;
      }
    } else {
      var i :| 0 <= i < |ids| && ids[i] !in bc;
      assert Decimal.Format(i) !in bc;
    }
  }

  /** Distinct nodes are looked up under distinct ids, so the ranking
      reads each node's own score. */
  lemma NodeIdsDistinct(n: nat)
    ensures forall a, b :: 0 <= a < b < n ==> NodeIds(n)[a] != NodeIds(n)[b]
  {
    forall a, b | 0 <= a < b < n
      ensures NodeIds(n)[a] != NodeIds(n)[b]
    {
      Decimal.FormatInjective(a, b);
    }
  }

}
