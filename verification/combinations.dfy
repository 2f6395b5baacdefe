/** `itertools.combinations(range(n), k)`: every strictly increasing
    `k`-tuple of `range(n)`, once each, in lexicographic order, `C(n, k)`
    of them. */
module Combinations {

  /** Pascal's rule. */
  function Binomial(n: nat, k: nat): nat {
    if k == 0 then 1
    else if n == 0 then 0
    else Binomial(n - 1, k - 1) + Binomial(n - 1, k)
  }

  predicate Increasing(c: seq<nat>) {
    forall a, b :: 0 <= a < b < |c| ==> c[a] < c[b]
  }

  /** `c` is a `k`-combination of `range(lo, n)`. */
  predicate IsCombination(c: seq<nat>, k: nat, lo: nat, n: nat) {
    |c| == k && Increasing(c) && forall t :: 0 <= t < |c| ==> lo <= c[t] < n
  }

  /** Strict lexicographic order of equal-length tuples. */
  predicate LexLess(a: seq<nat>, b: seq<nat>)
    decreases |a|
  {
    |a| > 0 && |b| > 0 && (a[0] < b[0] || (a[0] == b[0] && LexLess(a[1..], b[1..])))
  }

  function Prepend(x: nat, cs: seq<seq<nat>>): (r: seq<seq<nat>>)
    ensures |r| == |cs|
    ensures forall i :: 0 <= i < |r| ==> r[i] == [x] + cs[i]
  {
    seq(|cs|, i requires 0 <= i < |cs| => [x] + cs[i])
  }

  /** `combinations(range(lo, n), k)`: the tuples starting with `lo` come
      first, then those drawn from `range(lo + 1, n)`. */
  function Choose(lo: nat, n: nat, k: nat): (cs: seq<seq<nat>>)
    requires lo <= n
    ensures |cs| == Binomial(n - lo, k)
    ensures forall i :: 0 <= i < |cs| ==> IsCombination(cs[i], k, lo, n)
    decreases n - lo
  {
    if k == 0 then [[]]
    else if lo == n then []
    else
      var first := Prepend(lo, Choose(lo + 1, n, k - 1));
      var rest := Choose(lo + 1, n, k);
      assert forall i :: 0 <= i < |first| ==> IsCombination(first[i], k, lo, n) by {
        forall i | 0 <= i < |first|
          ensures IsCombination(first[i], k, lo, n)
        {
          var c := Choose(lo + 1, n, k - 1)[i];
          assert IsCombination(c, k - 1, lo + 1, n);
          assert first[i] == [lo] + c;
          assert forall t :: 1 <= t < |first[i]| ==> first[i][t] == c[t - 1];
        }
      }
      first + rest
  }

  lemma TailIsCombination(c: seq<nat>, k: nat, lo: nat, n: nat)
    requires k > 0 && IsCombination(c, k, lo, n)
    ensures IsCombination(c[1..], k - 1, c[0] + 1, n)
  {
    var tail := c[1..];
    forall t | 0 <= t < |tail|
      ensures c[0] + 1 <= tail[t] < n
    {
      assert tail[t] == c[t + 1] && c[0] < c[t + 1];
    }
  }

  lemma RaiseLowerBound(c: seq<nat>, k: nat, lo: nat, n: nat)
    requires k > 0 && IsCombination(c, k, lo, n) && c[0] != lo
    ensures IsCombination(c, k, lo + 1, n)
  {
    forall t | 0 <= t < |c|
      ensures lo + 1 <= c[t]
    {
      if t > 0 { assert c[0] < c[t]; }
    }
  }

  lemma InFirstPart(lo: nat, n: nat, k: nat, c: seq<nat>)
    requires lo < n && k > 0 && |c| > 0 && c[0] == lo && c[1..] in Choose(lo + 1, n, k - 1)
    ensures c in Choose(lo, n, k)
  {
    var sub := Choose(lo + 1, n, k - 1);
    var first := Prepend(lo, sub);
    var i :| 0 <= i < |sub| && sub[i] == c[1..];
    assert first[i] == c;
    assert Choose(lo, n, k) == first + Choose(lo + 1, n, k);
  }

  lemma InRestPart(lo: nat, n: nat, k: nat, c: seq<nat>)
    requires lo < n && k > 0 && c in Choose(lo + 1, n, k)
    ensures c in Choose(lo, n, k)
  {
    assert Choose(lo, n, k) == Prepend(lo, Choose(lo + 1, n, k - 1)) + Choose(lo + 1, n, k);
  }

  /** Every `k`-combination of `range(lo, n)` is enumerated. */
  lemma {:induction false} ChooseComplete(lo: nat, n: nat, k: nat, c: seq<nat>)
    requires lo <= n && IsCombination(c, k, lo, n)
    ensures c in Choose(lo, n, k)
    decreases n - lo
  {
    if k == 0 {
      assert c == [];
    } else {
      assert lo < n by { assert lo <= c[0] < n; }
      if c[0] == lo {
        assert c[1..] in Choose(lo + 1, n, k - 1) by {
          TailIsCombination(c, k, lo, n);
          ChooseComplete(lo + 1, n, k - 1, c[1..]);
        }
        InFirstPart(lo, n, k, c);
      } else {
        assert c in Choose(lo + 1, n, k) by {
          RaiseLowerBound(c, k, lo, n);
          ChooseComplete(lo + 1, n, k, c);
        }
        InRestPart(lo, n, k, c);
      }
    }
  }

  /** The enumeration is strictly increasing in lexicographic order. */
  lemma {:induction false} ChooseSorted(lo: nat, n: nat, k: nat)
    requires lo <= n
    ensures forall a, b :: 0 <= a < b < |Choose(lo, n, k)| ==> LexLess(Choose(lo, n, k)[a], Choose(lo, n, k)[b])
    decreases n - lo
  {
    if k > 0 && lo < n {
      var sub := Choose(lo + 1, n, k - 1);
      var first := Prepend(lo, sub);
      var rest := Choose(lo + 1, n, k);
      var all := first + rest;
      assert Choose(lo, n, k) == all;
      ChooseSorted(lo + 1, n, k - 1);
      ChooseSorted(lo + 1, n, k);
      forall a, b | 0 <= a < b < |all|
        ensures LexLess(all[a], all[b])
      {
        if b < |first| {
          assert all[a] == [lo] + sub[a] && all[b] == [lo] + sub[b];
          assert LexLess(sub[a], sub[b]);
          assert all[a][1..] == sub[a] && all[b][1..] == sub[b];
        } else if a < |first| {
          assert all[a] == [lo] + sub[a];
          assert all[b] == rest[b - |first|];
          assert IsCombination(rest[b - |first|], k, lo + 1, n);
        } else {
          assert all[a] == rest[a - |first|] && all[b] == rest[b - |first|];
        }
      }
    }
  }

  lemma {:induction false} LexLessIrreflexive(a: seq<nat>)
    ensures !LexLess(a, a)
    decreases |a|
  {
    if |a| > 0 {
      LexLessIrreflexive(a[1..]);
    }
  }

  /** `combinations(range(n), k)` yields every increasing `k`-tuple of
      `range(n)` exactly once, in lexicographic order: `C(n, k)` tuples. */
  lemma {:induction false} CombinationsFacts(n: nat, k: nat)
    ensures |Choose(0, n, k)| == Binomial(n, k)
    ensures forall c :: c in Choose(0, n, k) <==> IsCombination(c, k, 0, n)
    ensures forall a, b :: 0 <= a < b < |Choose(0, n, k)| ==> LexLess(Choose(0, n, k)[a], Choose(0, n, k)[b])
    ensures forall a, b :: 0 <= a < b < |Choose(0, n, k)| ==> Choose(0, n, k)[a] != Choose(0, n, k)[b]
  {
    var cs := Choose(0, n, k);
    ChooseSorted(0, n, k);
    forall c | IsCombination(c, k, 0, n)
      ensures c in cs
    {
      ChooseComplete(0, n, k, c);
    }
    forall a, b | 0 <= a < b < |cs|
      ensures cs[a] != cs[b]
    {
      LexLessIrreflexive(cs[a]);
    }
  }

}
