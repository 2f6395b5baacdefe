/** `metrics`: rank the nodes by centrality, then score every choice of
    four end nodes by how evenly their Voronoi cells split the graph and
    how central they are, and keep the ten best choices.  The centrality
    values come in as given maps and the hop distances as a given table. */
module Metrics {

  import opened Options
  import opened Sorting
  import opened Combinations
  import opened Stats
  import opened Voronoi

  /** How many end nodes each scored combination has. */
  const EndNodes: nat := 4
  /** How many rows of the sorted table are shown. */
  const TableHead: nat := 10

  function Range(n: nat): (keys: seq<nat>)
    ensures |keys| == n && forall i :: 0 <= i < n ==> keys[i] == i
  {
    seq(n, i => i)
  }

  /** `[m[k] for k in keys]`: `None` stands for the `KeyError` raised by
      the first missing key. */
  function Lookup<K>(m: map<K, real>, keys: seq<K>): (r: Option<seq<real>>)
    ensures r.Some? <==> forall i :: 0 <= i < |keys| ==> keys[i] in m
    ensures r.Some? ==> |r.value| == |keys| && forall i :: 0 <= i < |keys| ==> r.value[i] == m[keys[i]]
  {
    if forall i :: 0 <= i < |keys| ==> keys[i] in m then
      Some(seq(|keys|, i requires 0 <= i < |keys| && keys[i] in m => m[keys[i]]))
    else None
  }

  // ---------------------------------------------------------------------
  // Centrality ranking: `np.argsort(values)[::-1]`
  // ---------------------------------------------------------------------

  type Scored = (nat, real)

  predicate ScoreAtLeast(p: Scored, q: Scored) {
    p.1 >= q.1
  }

  lemma ScoreAtLeastIsTotalPreorder()
    ensures TotalPreorder(ScoreAtLeast)
  {
  }

  function Indexed(values: seq<real>): (s: seq<Scored>)
    ensures |s| == |values|
    ensures forall i :: 0 <= i < |values| ==> s[i] == (i, values[i])
  {
    seq(|values|, i requires 0 <= i < |values| => (i, values[i]))
  }

  lemma {:induction false} CountAtMostOne<T>(s: seq<T>, x: T)
    requires forall a, b :: 0 <= a < b < |s| ==> s[a] != s[b]
    ensures multiset(s)[x] <= 1
  {
    if |s| > 0 {
      var init := s[..|s| - 1];
      assert s == init + [s[|s| - 1]];
      CountAtMostOne(init, x);
      if x == s[|s| - 1] {
        assert x !in init by {
          forall a | 0 <= a < |init|
            ensures init[a] != x
          {
            assert init[a] == s[a];
          }
        }
      }
    }
  }

  lemma CountAtLeastTwo<T>(s: seq<T>, a: nat, b: nat)
    requires a < b < |s| && s[a] == s[b]
    ensures multiset(s)[s[a]] >= 2
  {
    assert s == s[..b] + s[b..];
    assert s[..b][a] == s[a];
    assert s[b..][0] == s[b];
  }

  function Firsts(s: seq<Scored>): (r: seq<nat>)
    ensures |r| == |s| && forall k :: 0 <= k < |s| ==> r[k] == s[k].0
  {
    seq(|s|, k requires 0 <= k < |s| => s[k].0)
  }

  /** A permutation of the indexed scores lists every index once. */
  lemma PermutedIndexed(values: seq<real>, sorted: seq<Scored>)
    requires multiset(sorted) == multiset(Indexed(values))
    ensures |sorted| == |values|
    ensures forall k :: 0 <= k < |sorted| ==> sorted[k].0 < |values| && sorted[k].1 == values[sorted[k].0]
    ensures forall i :: 0 <= i < |values| ==> i in Firsts(sorted)
    ensures forall a, b :: 0 <= a < b < |sorted| ==> sorted[a].0 != sorted[b].0
  {
    var input := Indexed(values);
    assert |sorted| == |input| by {
      assert |multiset(sorted)| == |multiset(input)|;
    }
    forall k | 0 <= k < |sorted|
      ensures sorted[k].0 < |values| && sorted[k].1 == values[sorted[k].0]
    {
      assert sorted[k] in multiset(sorted);
      assert sorted[k] in input;
    }
    forall i | 0 <= i < |values|
      ensures i in Firsts(sorted)
    {
      assert input[i] in multiset(input);
      assert input[i] in sorted;
      var k :| 0 <= k < |sorted| && sorted[k] == input[i];
      assert Firsts(sorted)[k] == i;
    }
    forall a, b | 0 <= a < b < |sorted|
      ensures sorted[a].0 != sorted[b].0
    {
      if sorted[a].0 == sorted[b].0 {
        assert sorted[a] == sorted[b];
        CountAtLeastTwo(sorted, a, b);
        CountAtMostOne(input, sorted[a]);
      }
    }
  }

  /** The node indices by non-increasing score.  `argsort` does not order
      equal scores, so neither does this. */
  function Ranking(values: seq<real>): (order: seq<nat>)
    ensures |order| == |values|
    ensures forall k :: 0 <= k < |order| ==> order[k] < |values|
    ensures forall i :: 0 <= i < |values| ==> i in order
    ensures forall a, b :: 0 <= a < b < |order| ==> order[a] != order[b]
    ensures forall a, b :: 0 <= a < b < |order| ==> values[order[a]] >= values[order[b]]
  {
    ScoreAtLeastIsTotalPreorder();
    var sorted := SortBy(ScoreAtLeast, Indexed(values));
    PermutedIndexed(values, sorted);
    Firsts(sorted)
  }

  /** `argsort` over `[m[k] for k in range(n)]`; `None` when a node is
      missing from `m`. */
  function RankNodes(m: map<nat, real>, n: nat): (r: Option<seq<nat>>)
    ensures r.Some? <==> forall i :: 0 <= i < n ==> i in m
    ensures r.Some? ==> |r.value| == n && forall k :: 0 <= k < n ==> r.value[k] < n
    ensures r.Some? ==> forall i :: 0 <= i < n ==> i in r.value
    ensures r.Some? ==> forall a, b :: 0 <= a < b < n ==> r.value[a] != r.value[b]
    ensures r.Some? ==> forall a, b :: 0 <= a < b < n ==> m[r.value[a]] >= m[r.value[b]]
  {
    var keys := Range(n);
    var values := Lookup(m, keys);
    assert (forall i :: 0 <= i < n ==> i in m) <==> values.Some? by {
      if values.Some? {
        forall i | 0 <= i < n
          ensures i in m
        {
          assert keys[i] in m;
        }
      } else {
        var i :| 0 <= i < n && keys[i] !in m;
      }
    }
    if values.None? then None else Some(Ranking(values.value))
  }

  // ---------------------------------------------------------------------
  // Scoring the end-node combinations
  // ---------------------------------------------------------------------

  function Reals(xs: seq<nat>): (r: seq<real>)
    ensures |r| == |xs| && forall i :: 0 <= i < |xs| ==> r[i] == xs[i] as real
  {
    seq(|xs|, i requires 0 <= i < |xs| => xs[i] as real)
  }

  /** The closeness values of the nodes of `comb`. */
  function Picked(cc: seq<real>, comb: seq<nat>): (r: seq<real>)
    requires forall t :: 0 <= t < |comb| ==> comb[t] < |cc|
    ensures |r| == |comb| && forall t :: 0 <= t < |comb| ==> r[t] == cc[comb[t]]
  {
    seq(|comb|, t requires 0 <= t < |comb| => cc[comb[t]])
  }

  /** The variance of the Voronoi cell sizes around the nodes of `comb`. */
  function CellVariance(dist: Table, comb: seq<nat>, n: nat): real
    requires |comb| > 0
  {
    Variance(Reals(CellSizes(dist, comb, n)))
  }

  datatype Row = Row(comb: seq<nat>, vc: real, ccMean: real, ccVar: real)

  /** The row the loop body appends for one combination. */
  ghost predicate ScoredRow(n: nat, dist: Table, cc: seq<real>, comb: seq<nat>, vc: real, ccMean: real, ccVar: real) {
    && IsCombination(comb, EndNodes, 0, n)
    && |cc| == n
    && vc == CellVariance(dist, comb, n)
    && ccMean == Mean(Picked(cc, comb))
    && ccVar == Variance(Picked(cc, comb))
  }

  /** The scored row of one combination. */
  function ScoreRow(n: nat, dist: Table, cc: seq<real>, comb: seq<nat>): (row: Row)
    requires IsCombination(comb, EndNodes, 0, n) && |cc| == n
    ensures row.comb == comb && ScoredRow(n, dist, cc, comb, row.vc, row.ccMean, row.ccVar)
  {
    Row(comb, CellVariance(dist, comb, n), Mean(Picked(cc, comb)), Variance(Picked(cc, comb)))
  }

  /** The whole data frame: one scored row per 4-combination of the nodes,
      in enumeration order. */
  function AllRows(n: nat, dist: Table, cc: seq<real>): (rows: seq<Row>)
    requires |cc| == n
    ensures |rows| == Binomial(n, EndNodes)
    ensures forall r :: 0 <= r < |rows| ==> rows[r].comb == Choose(0, n, EndNodes)[r]
    ensures forall r :: 0 <= r < |rows| ==> ScoredRow(n, dist, cc, rows[r].comb, rows[r].vc, rows[r].ccMean, rows[r].ccVar)
  {
    var all := Choose(0, n, EndNodes);
    seq(|all|, r requires 0 <= r < |all| => ScoreRow(n, dist, cc, all[r]))
  }

  /** Every 4-combination has exactly one row in the data frame. */
  lemma AllRowsDistinct(n: nat, dist: Table, cc: seq<real>)
    requires |cc| == n
    ensures forall a, b :: 0 <= a < b < |AllRows(n, dist, cc)| ==> AllRows(n, dist, cc)[a] != AllRows(n, dist, cc)[b]
    ensures forall c :: IsCombination(c, EndNodes, 0, n) ==> exists r :: 0 <= r < |AllRows(n, dist, cc)| && AllRows(n, dist, cc)[r].comb == c
  {
    var rows := AllRows(n, dist, cc);
    var all := Choose(0, n, EndNodes);
    CombinationsFacts(n, EndNodes);
    forall a, b | 0 <= a < b < |rows|
      ensures rows[a] != rows[b]
    {
      assert rows[a].comb == all[a] && rows[b].comb == all[b];
    }
    forall c | IsCombination(c, EndNodes, 0, n)
      ensures exists r :: 0 <= r < |rows| && rows[r].comb == c
    {
      var r :| 0 <= r < |all| && all[r] == c;
      assert rows[r].comb == c;
    }
  }

  /** The combination loop: the four lists grow in lock step, so row `r`
      of each describes the `r`-th combination. */
  method ScoreCombinations(n: nat, dist: Table, cc: seq<real>)
    returns (combs: seq<seq<nat>>, vcs: seq<real>, ccMean: seq<real>, ccVar: seq<real>)
    requires |cc| == n
    ensures combs == Choose(0, n, EndNodes)
    ensures |vcs| == |combs| && |ccMean| == |combs| && |ccVar| == |combs|
    ensures forall r :: 0 <= r < |combs| ==> ScoredRow(n, dist, cc, combs[r], vcs[r], ccMean[r], ccVar[r])
    ensures Rows(combs, vcs, ccMean, ccVar) == AllRows(n, dist, cc)
  {
    var all := Choose(0, n, EndNodes);
    combs, vcs, ccMean, ccVar := [], [], [], [];
    var r := 0;
    while r < |all|
      invariant r <= |all|
      invariant combs == all[..r]
      invariant |vcs| == r && |ccMean| == r && |ccVar| == r
      invariant forall q :: 0 <= q < r ==> ScoredRow(n, dist, cc, combs[q], vcs[q], ccMean[q], ccVar[q])
    {
      var ns := all[r];
      assert IsCombination(ns, EndNodes, 0, n);
      var picked := Picked(cc, ns);
      combs := combs + [ns];
      vcs := vcs + [CellVariance(dist, ns, n)];
      ccMean := ccMean + [Mean(picked)];
      ccVar := ccVar + [Variance(picked)];
      r := r + 1;
    }
    assert all[..r] == all;
    LockStepRows(n, dist, cc, combs, vcs, ccMean, ccVar);
  }

  /** Lists that score the enumeration row by row make up the data frame. */
  lemma LockStepRows(n: nat, dist: Table, cc: seq<real>,
                     combs: seq<seq<nat>>, vcs: seq<real>, ccMean: seq<real>, ccVar: seq<real>)
    requires |cc| == n && combs == Choose(0, n, EndNodes)
    requires |vcs| == |combs| && |ccMean| == |combs| && |ccVar| == |combs|
    requires forall r :: 0 <= r < |combs| ==> ScoredRow(n, dist, cc, combs[r], vcs[r], ccMean[r], ccVar[r])
    ensures Rows(combs, vcs, ccMean, ccVar) == AllRows(n, dist, cc)
  {
    var rows := Rows(combs, vcs, ccMean, ccVar);
    var want := AllRows(n, dist, cc);
    forall q | 0 <= q < |rows|
      ensures rows[q] == want[q]
    {
      assert want[q].comb == combs[q];
    }
  }

  /** What every row says: `vc` and `cc_var` are never negative, and
      `cc_mean` lies between the least and the greatest closeness of the
      four end nodes. */
  lemma ScoredRowBounds(n: nat, dist: Table, cc: seq<real>, comb: seq<nat>, vc: real, ccMean: real, ccVar: real)
    requires ScoredRow(n, dist, cc, comb, vc, ccMean, ccVar)
    ensures vc >= 0.0 && ccVar >= 0.0
    ensures forall t :: 0 <= t < |comb| ==> cc[comb[t]] >= MinOf(Picked(cc, comb))
    ensures MinOf(Picked(cc, comb)) <= ccMean <= MaxOf(Picked(cc, comb))
  {
    VarianceNonNegative(Reals(CellSizes(dist, comb, n)));
    VarianceNonNegative(Picked(cc, comb));
    MeanBetweenExtremes(Picked(cc, comb));
  }

  /** Four end nodes whose cells are equally large score `vc == 0`. */
  lemma EvenCellsScoreZero(n: nat, dist: Table, comb: seq<nat>)
    requires |comb| > 0
    requires forall t :: 0 <= t < |comb| ==> CellSizes(dist, comb, n)[t] == CellSizes(dist, comb, n)[0]
    ensures CellVariance(dist, comb, n) == 0.0
  {
    ConstantZeroVariance(Reals(CellSizes(dist, comb, n)));
  }

  // ---------------------------------------------------------------------
  // `df.sort(by=["vc", "cc_mean"], descending=[False, True]).head(10)`
  // ---------------------------------------------------------------------

  /** `a` may come before `b`: smaller `vc` first, then larger `cc_mean`. */
  predicate RowBefore(a: Row, b: Row) {
    a.vc < b.vc || (a.vc == b.vc && a.ccMean >= b.ccMean)
  }

  lemma RowBeforeIsTotalPreorder()
    ensures TotalPreorder(RowBefore)
  {
  }

  function Rows(combs: seq<seq<nat>>, vcs: seq<real>, ccMean: seq<real>, ccVar: seq<real>): (rows: seq<Row>)
    requires |vcs| == |combs| && |ccMean| == |combs| && |ccVar| == |combs|
    ensures |rows| == |combs|
    ensures forall r :: 0 <= r < |rows| ==> rows[r] == Row(combs[r], vcs[r], ccMean[r], ccVar[r])
  {
    seq(|combs|, r requires 0 <= r < |combs| => Row(combs[r], vcs[r], ccMean[r], ccVar[r]))
  }

  /** The first `min(10, |rows|)` rows of the sorted table: they are in
      table order, they are rows of the input, and no row left out comes
      strictly before a row shown. */
  function Leaderboard(rows: seq<Row>): (top: seq<Row>)
    ensures |top| == if |rows| < TableHead then |rows| else TableHead
    ensures SortedBy(RowBefore, top)
    ensures multiset(top) <= multiset(rows)
    ensures forall t, u :: t in top && u in multiset(rows) - multiset(top) ==> RowBefore(t, u)
  {
    RowBeforeIsTotalPreorder();
    var sorted := SortBy(RowBefore, rows);
    var h := if |rows| < TableHead then |rows| else TableHead;
    HeadOfSorted(RowBefore, rows, sorted, h);
    sorted[..h]
  }

  // ---------------------------------------------------------------------
  // The whole analysis
  // ---------------------------------------------------------------------

  datatype Report = Report(bcOrder: seq<nat>, ccOrder: seq<nat>, table: seq<Row>)

  /** `metrics(path)` on a graph with nodes `0..n-1`: `bc` and `cc` are
      the betweenness and closeness centralities, `dist` the hop
      distances.  A node missing from either map raises `KeyError`. */
  method Analyse(n: nat, bc: map<nat, real>, cc: map<nat, real>, dist: Table) returns (r: Option<Report>)
    ensures r.None? <==> exists i :: 0 <= i < n && (i !in bc || i !in cc)
    ensures r.Some? ==> RankNodes(bc, n).Some? && r.value.bcOrder == RankNodes(bc, n).value
    ensures r.Some? ==> RankNodes(cc, n).Some? && r.value.ccOrder == RankNodes(cc, n).value
    ensures r.Some? ==>
              && Lookup(cc, Range(n)).Some?
              && r.value.table == Leaderboard(AllRows(n, dist, Lookup(cc, Range(n)).value))
              && (forall k :: 0 <= k < |r.value.table| ==>
                    ScoredRow(n, dist, Lookup(cc, Range(n)).value, r.value.table[k].comb,
                              r.value.table[k].vc, r.value.table[k].ccMean, r.value.table[k].ccVar))
  {
    var bcOrder := RankNodes(bc, n);
    var ccOrder := RankNodes(cc, n);
    if bcOrder.None? || ccOrder.None? {
      return None;
    }
    var table := ClosenessTable(n, dist, cc);
    return Some(Report(bcOrder.value, ccOrder.value, table));
  }

  /** The table of `metrics`, scored with the closeness values looked up
      for the nodes `0..n-1`. */
  method ClosenessTable(n: nat, dist: Table, cc: map<nat, real>) returns (table: seq<Row>)
    requires forall i :: 0 <= i < n ==> i in cc
    ensures Lookup(cc, Range(n)).Some?
    ensures table == Leaderboard(AllRows(n, dist, Lookup(cc, Range(n)).value))
    ensures forall k :: 0 <= k < |table| ==>
              ScoredRow(n, dist, Lookup(cc, Range(n)).value, table[k].comb, table[k].vc, table[k].ccMean, table[k].ccVar)
  {
    var ccValues := Lookup(cc, Range(n)).value;
    table := ScoreTable(n, dist, ccValues);
  }

  /** The combination loop, the data frame and its sorted head: the ten
      best rows of the whole data frame, each once, in table order; the
      row of any combination not shown comes after every row shown. */
  method ScoreTable(n: nat, dist: Table, cc: seq<real>) returns (table: seq<Row>)
    requires |cc| == n
    ensures table == Leaderboard(AllRows(n, dist, cc))
    ensures |table| == (if Binomial(n, EndNodes) < TableHead then Binomial(n, EndNodes) else TableHead)
    ensures SortedBy(RowBefore, table)
    ensures forall a, b :: 0 <= a < b < |table| ==> table[a] != table[b]
    ensures forall k :: 0 <= k < |table| ==>
              && table[k].comb in Choose(0, n, EndNodes)
              && ScoredRow(n, dist, cc, table[k].comb, table[k].vc, table[k].ccMean, table[k].ccVar)
    ensures forall c :: IsCombination(c, EndNodes, 0, n) ==>
              ScoreRow(n, dist, cc, c) in table || forall k :: 0 <= k < |table| ==> RowBefore(table[k], ScoreRow(n, dist, cc, c))
  {
    var combs, vcs, ccMean, ccVar := ScoreCombinations(n, dist, cc);
    table := Leaderboard(Rows(combs, vcs, ccMean, ccVar));
    LeaderboardIsBest(n, dist, cc);
    ShownRowsScored(n, dist, cc);
  }

  /** Every shown row is the scored row of a 4-combination of the nodes. */
  lemma ShownRowsScored(n: nat, dist: Table, cc: seq<real>)
    requires |cc| == n
    ensures var t := Leaderboard(AllRows(n, dist, cc));
            forall k :: 0 <= k < |t| ==>
              && t[k].comb in Choose(0, n, EndNodes)
              && ScoredRow(n, dist, cc, t[k].comb, t[k].vc, t[k].ccMean, t[k].ccVar)
  {
    var rows := AllRows(n, dist, cc);
    var t := Leaderboard(rows);
    forall k | 0 <= k < |t|
      ensures t[k].comb in Choose(0, n, EndNodes)
      ensures ScoredRow(n, dist, cc, t[k].comb, t[k].vc, t[k].ccMean, t[k].ccVar)
    {
      assert t[k] in rows by {
        LeaderboardRowsAreInput(rows);
        assert t[k] in t;
      }
      RowOfAllRows(n, dist, cc, t[k]);
    }
  }

  lemma RowOfAllRows(n: nat, dist: Table, cc: seq<real>, x: Row)
    requires |cc| == n && x in AllRows(n, dist, cc)
    ensures x.comb in Choose(0, n, EndNodes)
    ensures ScoredRow(n, dist, cc, x.comb, x.vc, x.ccMean, x.ccVar)
  {
    var rows := AllRows(n, dist, cc);
    var q :| 0 <= q < |rows| && rows[q] == x;
    assert x.comb == Choose(0, n, EndNodes)[q];
  }

  /** A sequence whose elements are drawn, with multiplicity, from one
      without repeats has no repeats either. */
  lemma SubMultisetDistinct<T>(t: seq<T>, s: seq<T>)
    requires multiset(t) <= multiset(s)
    requires forall a, b :: 0 <= a < b < |s| ==> s[a] != s[b]
    ensures forall a, b :: 0 <= a < b < |t| ==> t[a] != t[b]
  {
    forall a, b | 0 <= a < b < |t|
      ensures t[a] != t[b]
    {
      if t[a] == t[b] {
        CountAtLeastTwo(t, a, b);
        CountAtMostOne(s, t[a]);
      }
    }
  }

  /** An element left out of a head that precedes everything left out
      comes after every element of the head. */
  lemma LeftOutComesAfter<T>(le: (T, T) -> bool, t: seq<T>, s: seq<T>, u: T)
    requires forall x, y :: x in t && y in multiset(s) - multiset(t) ==> le(x, y)
    requires u in s && u !in t
    ensures forall k :: 0 <= k < |t| ==> le(t[k], u)
  {
    assert u in multiset(s) - multiset(t);
    forall k | 0 <= k < |t|
      ensures le(t[k], u)
    {
      assert t[k] in t;
    }
  }

  /** The row of `c` in the data frame is its scored row. */
  lemma RowOfCombination(n: nat, dist: Table, cc: seq<real>, c: seq<nat>)
    requires |cc| == n && IsCombination(c, EndNodes, 0, n)
    ensures ScoreRow(n, dist, cc, c) in AllRows(n, dist, cc)
  {
    var rows := AllRows(n, dist, cc);
    assert exists q :: 0 <= q < |rows| && rows[q].comb == c by {
      AllRowsDistinct(n, dist, cc);
    }
    var q :| 0 <= q < |rows| && rows[q].comb == c;
    assert rows[q] == ScoreRow(n, dist, cc, c);
  }

  /** The row of combination `c` is shown, or comes after every row shown. */
  lemma CombinationRanked(n: nat, dist: Table, cc: seq<real>, c: seq<nat>)
    requires |cc| == n && IsCombination(c, EndNodes, 0, n)
    ensures var t := Leaderboard(AllRows(n, dist, cc));
            ScoreRow(n, dist, cc, c) in t || forall k :: 0 <= k < |t| ==> RowBefore(t[k], ScoreRow(n, dist, cc, c))
  {
    var rows := AllRows(n, dist, cc);
    var t := Leaderboard(rows);
    var u := ScoreRow(n, dist, cc, c);
    RowOfCombination(n, dist, cc, c);
    if u !in t {
      LeftOutComesAfter(RowBefore, t, rows, u);
    }
  }

  /** The head of the sorted data frame lists distinct rows of it, and the
      row of every combination is either shown or comes after every row
      shown. */
  lemma LeaderboardIsBest(n: nat, dist: Table, cc: seq<real>)
    requires |cc| == n
    ensures var t := Leaderboard(AllRows(n, dist, cc));
            forall a, b :: 0 <= a < b < |t| ==> t[a] != t[b]
    ensures var t := Leaderboard(AllRows(n, dist, cc));
            forall c :: IsCombination(c, EndNodes, 0, n) ==>
              ScoreRow(n, dist, cc, c) in t || forall k :: 0 <= k < |t| ==> RowBefore(t[k], ScoreRow(n, dist, cc, c))
  {
    var rows := AllRows(n, dist, cc);
    assert forall a, b :: 0 <= a < b < |rows| ==> rows[a] != rows[b] by {
      AllRowsDistinct(n, dist, cc);
    }
    SubMultisetDistinct(Leaderboard(rows), rows);
    forall c | IsCombination(c, EndNodes, 0, n)
      ensures var t := Leaderboard(rows);
              ScoreRow(n, dist, cc, c) in t || forall k :: 0 <= k < |t| ==> RowBefore(t[k], ScoreRow(n, dist, cc, c))
    {
      CombinationRanked(n, dist, cc, c);
    }
  }

  lemma LeaderboardRowsAreInput(rows: seq<Row>)
    ensures forall t :: t in Leaderboard(rows) ==> t in rows
  {
    var top := Leaderboard(rows);
    forall t | t in top
      ensures t in rows
    {
      assert t in multiset(top);
      assert t in multiset(rows);
    }
  }

}
