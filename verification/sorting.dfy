/** Sorting by a total preorder.  The source sorts with numpy's `argsort`
    and polars' `sort`, neither of which promises an order among equal
    keys, so what is specified here is only what both guarantee: the
    result is a permutation of the input, ordered by the key. */
module Sorting {

  ghost predicate Total<T(!new)>(le: (T, T) -> bool) {
    forall a, b :: le(a, b) || le(b, a)
  }

  ghost predicate Transitive<T(!new)>(le: (T, T) -> bool) {
    forall a, b, c :: le(a, b) && le(b, c) ==> le(a, c)
  }

  ghost predicate TotalPreorder<T(!new)>(le: (T, T) -> bool) {
    Total(le) && Transitive(le)
  }

  ghost predicate SortedBy<T>(le: (T, T) -> bool, s: seq<T>) {
    forall i, j :: 0 <= i < j < |s| ==> le(s[i], s[j])
  }

  ghost predicate AdjacentSorted<T>(le: (T, T) -> bool, s: seq<T>) {
    forall i :: 0 <= i < |s| - 1 ==> le(s[i], s[i + 1])
  }

  lemma {:induction false} AdjacentToSorted<T(!new)>(le: (T, T) -> bool, s: seq<T>)
    requires Transitive(le) && AdjacentSorted(le, s)
    ensures SortedBy(le, s)
    decreases |s|
  {
    if |s| > 1 {
      var init := s[..|s| - 1];
      assert AdjacentSorted(le, init);
      AdjacentToSorted(le, init);
      forall i, j | 0 <= i < j < |s|
        ensures le(s[i], s[j])
      {
        if j == |s| - 1 && i < j - 1 {
          assert le(s[i], s[j - 1]) by { assert s[i] == init[i] && s[j - 1] == init[j - 1]; }
          assert le(s[j - 1], s[j]);
        } else if j < |s| - 1 {
          assert s[i] == init[i] && s[j] == init[j];
        }
      }
    }
  }

  function Insert<T(!new)>(le: (T, T) -> bool, x: T, s: seq<T>): (r: seq<T>)
    requires Total(le) && AdjacentSorted(le, s)
    ensures multiset(r) == multiset(s) + multiset{x}
    ensures AdjacentSorted(le, r)
    ensures |r| == |s| + 1 && (r[0] == x || (|s| > 0 && r[0] == s[0]))
  {
    if |s| == 0 then [x]
    else if le(x, s[0]) then [x] + s
    else
      var tail := s[1..];
      assert s == [s[0]] + tail;
      assert AdjacentSorted(le, tail) by {
        forall i | 0 <= i < |tail| - 1
          ensures le(tail[i], tail[i + 1])
        {
          assert tail[i] == s[i + 1] && tail[i + 1] == s[i + 2];
        }
      }
      var rest := Insert(le, x, tail);
      assert le(s[0], x);
      assert |tail| > 0 ==> le(s[0], tail[0]);
      var r := [s[0]] + rest;
      assert forall i :: 1 <= i < |r| - 1 ==> r[i] == rest[i - 1] && r[i + 1] == rest[i];
      r
  }

  /** Insertion sort: a permutation of `s`, ordered by `le`. */
  function SortBy<T(!new)>(le: (T, T) -> bool, s: seq<T>): (r: seq<T>)
    requires TotalPreorder(le)
    ensures multiset(r) == multiset(s)
    ensures SortedBy(le, r)
  {
    if |s| == 0 then []
    else
      assert s == s[..|s| - 1] + [s[|s| - 1]];
      var init := SortBy(le, s[..|s| - 1]);
      AdjacentFromSorted(le, init);
      var r := Insert(le, s[|s| - 1], init);
      AdjacentToSorted(le, r);
      r
  }

  lemma AdjacentFromSorted<T>(le: (T, T) -> bool, s: seq<T>)
    requires SortedBy(le, s)
    ensures AdjacentSorted(le, s)
  {
  }

  /** Cutting a sorted sequence leaves every element of the front part
      before every element of the back part. */
  lemma SplitSorted<T>(le: (T, T) -> bool, s: seq<T>, h: nat)
    requires SortedBy(le, s) && h <= |s|
    ensures s == s[..h] + s[h..]
    ensures forall t, u :: t in s[..h] && u in s[h..] ==> le(t, u)
  {
    forall t, u | t in s[..h] && u in s[h..]
      ensures le(t, u)
    {
      var a :| 0 <= a < h && s[..h][a] == t;
      var b :| 0 <= b < |s| - h && s[h..][b] == u;
      assert s[a] == t && s[h + b] == u;
    }
  }

  /** The first `h` elements of a sorted permutation of `s` are drawn
      from `s` and come before every element of `s` they leave out. */
  lemma HeadOfSorted<T>(le: (T, T) -> bool, s: seq<T>, sorted: seq<T>, h: nat)
    requires SortedBy(le, sorted) && multiset(sorted) == multiset(s) && h <= |s|
    ensures |sorted| == |s|
    ensures multiset(sorted[..h]) <= multiset(s)
    ensures forall t, u :: t in sorted[..h] && u in multiset(s) - multiset(sorted[..h]) ==> le(t, u)
  {
    assert |sorted| == |s| by {
      assert |multiset(sorted)| == |multiset(s)|;
    }
    SplitSorted(le, sorted, h);
    assert multiset(sorted[..h]) + multiset(sorted[h..]) == multiset(s) by {
      assert sorted == sorted[..h] + sorted[h..];
    }
    assert forall u :: u in multiset(s) - multiset(sorted[..h]) ==> u in sorted[h..];
  }

}
