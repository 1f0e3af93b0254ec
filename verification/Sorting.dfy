/** Ascending order, as the library sort leaves a vector of addresses. */
module Sorting {
  import opened Types

  ghost predicate Ascending(s: seq<nat>) {
    forall i, j :: 0 <= i < j < |s| ==> s[i] <= s[j]
  }

  /** How many leading elements are below x. */
  function Position(s: seq<nat>, x: nat): (k: nat)
    ensures k <= |s|
    ensures forall i :: 0 <= i < k ==> s[i] < x
    ensures k < |s| ==> x <= s[k]
  {
    if s == [] || x <= s[0] then 0 else 1 + Position(s[1..], x)
  }

  function Insert(s: seq<nat>, x: nat): (r: seq<nat>)
    ensures |r| == |s| + 1
  {
    var k := Position(s, x);
    s[..k] + [x] + s[k..]
  }

  /** The same elements in ascending order. */
  function Sorted(s: seq<nat>): (r: seq<nat>)
    ensures |r| == |s|
  {
    if s == [] then [] else Insert(Sorted(s[..|s| - 1]), s[|s| - 1])
  }

  lemma InsertKeepsOrder(s: seq<nat>, x: nat)
    requires Ascending(s)
    ensures Ascending(Insert(s, x))
  {
    var k := Position(s, x);
    var r := Insert(s, x);
    forall i, j | 0 <= i < j < |r|
      ensures r[i] <= r[j]
    {
      var before := if i < k then s[i] else if i == k then x else s[i - 1];
      var after := if j < k then s[j] else if j == k then x else s[j - 1];
      assert r[i] == before && r[j] == after;
    }
  }

  lemma InsertAdds(s: seq<nat>, x: nat)
    ensures multiset(Insert(s, x)) == multiset(s) + multiset{x}
  {
    var k := Position(s, x);
    assert s == s[..k] + s[k..];
  }

  lemma {:induction false} SortedIsSorting(s: seq<nat>)
    ensures Ascending(Sorted(s))
    ensures multiset(Sorted(s)) == multiset(s)
  {
    if s != [] {
      var n := |s| - 1;
      SortedIsSorting(s[..n]);
      InsertKeepsOrder(Sorted(s[..n]), s[n]);
      assert multiset(Sorted(s)) == multiset(s) by {
        InsertAdds(Sorted(s[..n]), s[n]);
        assert s == s[..n] + [s[n]];
      }
    }
  }

  lemma SortedMembers(s: seq<nat>, x: nat)
    ensures x in s <==> x in Sorted(s)
  {
    SortedIsSorting(s);
    assert x in s <==> x in multiset(s);
    assert x in Sorted(s) <==> x in multiset(Sorted(s));
  }

  lemma {:induction false} SortedDistinct(s: seq<nat>)
    requires Distinct(s)
    ensures Distinct(Sorted(s))
  {
    if s != [] {
      var n := |s| - 1;
      var t := Sorted(s[..n]);
      SortedDistinct(s[..n]);
      SortedMembers(s[..n], s[n]);
      assert s[n] !in t;
    }
  }

  /** An ascending sequence is its own sorting. */
  lemma {:induction false} SortedOfAscending(s: seq<nat>)
    requires Ascending(s) && Distinct(s)
    ensures Sorted(s) == s
  {
    if s != [] {
      var n := |s| - 1;
      SortedOfAscending(s[..n]);
      assert Position(s[..n], s[n]) == n;
      assert s == s[..n] + [s[n]];
    }
  }

  lemma SortedTwice(s: seq<nat>)
    requires Distinct(s)
    ensures Sorted(Sorted(s)) == Sorted(s)
  {
    SortedIsSorting(s);
    SortedDistinct(s);
    SortedOfAscending(Sorted(s));
  }
}
