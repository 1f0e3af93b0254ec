/** Cardinality facts about finite sets. */
module Counting {
  import opened Types

  lemma SubsetIsSmaller<T>(s: set<T>, t: set<T>)
    requires s <= t
    ensures |s| <= |t|
  {
    assert t == s + (t - s);
  }

  lemma {:induction false} DistinctCount<T>(s: seq<T>, members: set<T>)
    requires Distinct(s) && forall x :: x in members <==> x in s
    ensures |members| == |s|
  {
    if s == [] {
      assert members == {};
    } else {
      var n := |s| - 1;
      assert s[n] !in s[..n] && s == s[..n] + [s[n]];
      DistinctCount(s[..n], members - {s[n]});
    }
  }

  /** The integers from lo up to, but not including, lo + len. */
  function Interval(lo: int, len: nat): (r: set<int>)
    ensures forall x :: x in r <==> lo <= x < lo + len
    ensures |r| == len
    decreases len
  {
    if len == 0 then {} else Interval(lo, len - 1) + {lo + len - 1}
  }

  lemma IntervalBound(s: set<int>, lo: int, len: nat)
    requires forall x :: x in s ==> lo <= x < lo + len
    ensures |s| <= len
  {
    SubsetIsSmaller(s, Interval(lo, len));
  }

  lemma TwoIntervalsBound(s: set<int>, lo: int, hi: int, len: nat)
    requires forall x :: x in s ==> lo <= x < lo + len || hi <= x < hi + len
    ensures |s| <= 2 * len
  {
    var a, b := Interval(lo, len), Interval(hi, len);
    SubsetIsSmaller(s, a + b);
    SubsetIsSmaller(b - a, b);
    assert a + b == a + (b - a);
  }
}
