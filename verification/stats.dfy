/** numpy's `mean` and `var` (population variance, `ddof = 0`) over exact
    reals.  The source applies them to four cell sizes and to four
    closeness values. */
module Stats {

  function Sum(xs: seq<real>): real {
    if |xs| == 0 then 0.0 else Sum(xs[..|xs| - 1]) + xs[|xs| - 1]
  }

  function Mean(xs: seq<real>): real
    requires |xs| > 0
  {
    Sum(xs) / (|xs| as real)
  }

  function SquaredDeviations(xs: seq<real>, mu: real): (ds: seq<real>)
    ensures |ds| == |xs|
    ensures forall i :: 0 <= i < |xs| ==> ds[i] == (xs[i] - mu) * (xs[i] - mu)
  {
    seq(|xs|, i requires 0 <= i < |xs| => (xs[i] - mu) * (xs[i] - mu))
  }

  /** `np.var`: the mean squared deviation from the mean. */
  function Variance(xs: seq<real>): real
    requires |xs| > 0
  {
    Mean(SquaredDeviations(xs, Mean(xs)))
  }

  function MinOf(xs: seq<real>): (r: real)
    requires |xs| > 0
    ensures r in xs
    ensures forall i :: 0 <= i < |xs| ==> r <= xs[i]
  {
    if |xs| == 1 then xs[0]
    else
      var m := MinOf(xs[..|xs| - 1]);
      assert forall i :: 0 <= i < |xs| - 1 ==> xs[..|xs| - 1][i] == xs[i];
      if xs[|xs| - 1] < m then xs[|xs| - 1] else m
  }

  function MaxOf(xs: seq<real>): (r: real)
    requires |xs| > 0
    ensures r in xs
    ensures forall i :: 0 <= i < |xs| ==> xs[i] <= r
  {
    if |xs| == 1 then xs[0]
    else
      var m := MaxOf(xs[..|xs| - 1]);
      assert forall i :: 0 <= i < |xs| - 1 ==> xs[..|xs| - 1][i] == xs[i];
      if xs[|xs| - 1] > m then xs[|xs| - 1] else m
  }

  lemma {:induction false} SumAtLeast(xs: seq<real>, lo: real)
    requires forall i :: 0 <= i < |xs| ==> lo <= xs[i]
    ensures (|xs| as real) * lo <= Sum(xs)
  {
    if |xs| > 0 {
      SumAtLeast(xs[..|xs| - 1], lo);
    }
  }

  lemma {:induction false} SumAtMost(xs: seq<real>, hi: real)
    requires forall i :: 0 <= i < |xs| ==> xs[i] <= hi
    ensures Sum(xs) <= (|xs| as real) * hi
  {
    if |xs| > 0 {
      SumAtMost(xs[..|xs| - 1], hi);
    }
  }

  lemma MeanAtLeast(xs: seq<real>, lo: real)
    requires |xs| > 0 && (|xs| as real) * lo <= Sum(xs)
    ensures lo <= Mean(xs)
  {
    var n := |xs| as real;
    var q := Sum(xs) / n;
    assert q * n == Sum(xs);
    assert (q - lo) * n >= 0.0;
  }

  lemma MeanAtMost(xs: seq<real>, hi: real)
    requires |xs| > 0 && Sum(xs) <= (|xs| as real) * hi
    ensures Mean(xs) <= hi
  {
    var n := |xs| as real;
    var q := Sum(xs) / n;
    assert q * n == Sum(xs);
    assert (hi - q) * n >= 0.0;
  }

  lemma MeanAtLeastMin(xs: seq<real>)
    requires |xs| > 0
    ensures MinOf(xs) <= Mean(xs)
  {
    var lo := MinOf(xs);
    assert (|xs| as real) * lo <= Sum(xs) by { SumAtLeast(xs, lo); }
    MeanAtLeast(xs, lo);
  }

  lemma MeanAtMostMax(xs: seq<real>)
    requires |xs| > 0
    ensures Mean(xs) <= MaxOf(xs)
  {
    var hi := MaxOf(xs);
    assert Sum(xs) <= (|xs| as real) * hi by { SumAtMost(xs, hi); }
    MeanAtMost(xs, hi);
  }

  /** The mean lies between the smallest and the largest value. */
  lemma MeanBetweenExtremes(xs: seq<real>)
    requires |xs| > 0
    ensures MinOf(xs) <= Mean(xs) <= MaxOf(xs)
  {
    MeanAtLeastMin(xs);
    MeanAtMostMax(xs);
  }

  lemma SquareNonNegative(x: real)
    ensures x * x >= 0.0
  {
  }

  lemma {:induction false} SumNonNegative(xs: seq<real>)
    requires forall i :: 0 <= i < |xs| ==> xs[i] >= 0.0
    ensures Sum(xs) >= 0.0
  {
    if |xs| > 0 {
      SumNonNegative(xs[..|xs| - 1]);
    }
  }

  lemma {:induction false} SumConstant(xs: seq<real>, c: real)
    requires forall i :: 0 <= i < |xs| ==> xs[i] == c
    ensures Sum(xs) == (|xs| as real) * c
  {
    if |xs| > 0 {
      SumConstant(xs[..|xs| - 1], c);
    }
  }

  lemma DeviationsNonNegative(xs: seq<real>, mu: real)
    ensures forall i :: 0 <= i < |xs| ==> SquaredDeviations(xs, mu)[i] >= 0.0
  {
    forall i | 0 <= i < |xs|
      ensures SquaredDeviations(xs, mu)[i] >= 0.0
    {
      SquareNonNegative(xs[i] - mu);
    }
  }

  /** A variance is never negative. */
  lemma VarianceNonNegative(xs: seq<real>)
    requires |xs| > 0
    ensures Variance(xs) >= 0.0
  {
    var ds := SquaredDeviations(xs, Mean(xs));
    DeviationsNonNegative(xs, Mean(xs));
    SumNonNegative(ds);
    MeanAtLeast(ds, 0.0);
  }

  lemma MeanOfConstant(xs: seq<real>, c: real)
    requires |xs| > 0 && forall i :: 0 <= i < |xs| ==> xs[i] == c
    ensures Mean(xs) == c
  {
    var n := |xs| as real;
    assert Sum(xs) == n * c by { SumConstant(xs, c); }
  }

  /** Equal values have zero variance. */
  lemma ConstantZeroVariance(xs: seq<real>)
    requires |xs| > 0 && forall i :: 0 <= i < |xs| ==> xs[i] == xs[0]
    ensures Variance(xs) == 0.0
  {
    MeanOfConstant(xs, xs[0]);
    var ds := SquaredDeviations(xs, xs[0]);
    MeanOfConstant(ds, 0.0);
  }

}
