/**
 The Fisher-Yates shuffle of src/consensus/parlia/go_rng.rs: a permutation for every
 sequence of picks, and a different one for every sequence of picks.
 */
module Shuffle {
  import opened Types
  import opened GoRng
  import opened BoundedDraws

  function Swap<T>(s: seq<T>, i: nat, j: nat): (r: seq<T>)
    requires i < |s| && j < |s|
    ensures |r| == |s|
  {
    s[i := s[j]][j := s[i]]
  }

  /** One pick per position from i down to 1, each at most its position. */
  predicate ValidPicks(i: nat, picks: seq<nat>) {
    |picks| == i && forall k :: 0 <= k < i ==> picks[k] <= i - k
  }

  /** Swaps position i with the first pick, then goes on below i. */
  function FisherYates<T>(s: seq<T>, i: nat, picks: seq<nat>): (r: seq<T>)
    requires i < |s| && ValidPicks(i, picks)
    ensures |r| == |s|
    decreases i
  {
    if i == 0 then s else FisherYates(Swap(s, i, picks[0]), i - 1, picks[1..])
  }

  lemma SwapPermutes<T>(s: seq<T>, i: nat, j: nat)
    requires i < |s| && j < |s|
    ensures multiset(Swap(s, i, j)) == multiset(s)
  {
  }

  /** Whatever the picks, the result holds the same elements. */
  lemma {:induction false} ShufflePermutes<T>(s: seq<T>, i: nat, picks: seq<nat>)
    requires i < |s| && ValidPicks(i, picks)
    ensures multiset(FisherYates(s, i, picks)) == multiset(s)
    decreases i
  {
    if i > 0 {
      SwapPermutes(s, i, picks[0]);
      ShufflePermutes(Swap(s, i, picks[0]), i - 1, picks[1..]);
    }
  }

  /** Positions above i are left alone. */
  lemma {:induction false} ShuffleKeepsTail<T>(s: seq<T>, i: nat, picks: seq<nat>, k: nat)
    requires i < k < |s| && ValidPicks(i, picks)
    ensures FisherYates(s, i, picks)[k] == s[k]
    decreases i
  {
    if i > 0 {
      ShuffleKeepsTail(Swap(s, i, picks[0]), i - 1, picks[1..], k);
    }
  }

  lemma SwapKeepsDistinct<T>(s: seq<T>, i: nat, j: nat)
    requires i < |s| && j < |s| && Distinct(s)
    ensures Distinct(Swap(s, i, j))
  {
  }

  /** Different picks give different permutations. */
  lemma {:induction false} PicksAreDetermined<T>(s: seq<T>, i: nat, p: seq<nat>, q: seq<nat>)
    requires i < |s| && ValidPicks(i, p) && ValidPicks(i, q) && Distinct(s)
    requires FisherYates(s, i, p) == FisherYates(s, i, q)
    ensures p == q
    decreases i
  {
    if i > 0 {
      ShuffleKeepsTail(Swap(s, i, p[0]), i - 1, p[1..], i);
      ShuffleKeepsTail(Swap(s, i, q[0]), i - 1, q[1..], i);
      assert s[p[0]] == s[q[0]];
      SwapKeepsDistinct(s, i, p[0]);
      PicksAreDetermined(Swap(s, i, p[0]), i - 1, p[1..], q[1..]);
      assert p == [p[0]] + p[1..] && q == [q[0]] + q[1..];
    }
  }

  /** Every permutation that agrees with s above i is reached by some picks. */
  lemma {:induction false} EveryPermutationIsReached<T>(s: seq<T>, i: nat, t: seq<T>) returns (picks: seq<nat>)
    requires i < |s| == |t| && Distinct(s) && Distinct(t) && multiset(s) == multiset(t)
    requires forall k :: i < k < |s| ==> s[k] == t[k]
    ensures ValidPicks(i, picks) && FisherYates(s, i, picks) == t
    decreases i
  {
    var p := IndexIn(s, t, i);
    if i == 0 {
      picks := [];
      assert s == t;
    } else {
      SwapPermutes(s, i, p);
      SwapKeepsDistinct(s, i, p);
      var rest := EveryPermutationIsReached(Swap(s, i, p), i - 1, t);
      picks := [p] + rest;
    }
  }

  /** Where t[i] sits in s, when the two agree above i. */
  lemma IndexIn<T>(s: seq<T>, t: seq<T>, i: nat) returns (p: nat)
    requires i < |s| == |t| && Distinct(t) && multiset(s) == multiset(t)
    requires forall k :: i < k < |s| ==> s[k] == t[k]
    ensures p <= i && s[p] == t[i]
  {
    assert t[i] in multiset(t);
    assert t[i] in multiset(s);
    p :| 0 <= p < |s| && s[p] == t[i];
  }

  // ---------------------------------------------------------------------------
  // Shuffling with the generator
  // ---------------------------------------------------------------------------

  /** The draws from word m on let the shuffle of positions i down to 1 end. */
  ghost predicate Productive(init: seq<Word>, m: nat, i: nat)
    decreases i
  {
    && |init| == RNG_LEN && i + 1 < TWO_31
    && (i > 0 ==> Eventually(init, m, i + 1) && Productive(init, m + Tries(init, m, i + 1), i - 1))
  }

  /** A generator seeded with init can shuffle size elements. */
  ghost predicate CanShuffle(init: seq<Word>, size: nat) {
    |init| == RNG_LEN && (size > 0 ==> Productive(init, 0, size - 1))
  }

  /** The picks the generator makes for positions i down to 1, from word m on. */
  ghost function Picks(init: seq<Word>, m: nat, i: nat): (picks: seq<nat>)
    requires Productive(init, m, i)
    ensures ValidPicks(i, picks)
    decreases i
  {
    if i == 0 then []
    else
      var t := Tries(init, m, i + 1);
      ScaledIsBelow(i + 1, Draw(init, m + t));
      [Scaled(i + 1, Draw(init, m + t))] + Picks(init, m + t, i - 1)
  }

  /** The order a freshly seeded generator leaves s in. */
  ghost function Shuffled<T>(s: seq<T>, init: seq<Word>): (r: seq<T>)
    requires CanShuffle(init, |s|)
    ensures |r| == |s|
  {
    if s == [] then s else FisherYates(s, |s| - 1, Picks(init, 0, |s| - 1))
  }

  lemma ShuffledPermutes<T>(s: seq<T>, init: seq<Word>)
    requires CanShuffle(init, |s|)
    ensures multiset(Shuffled(s, init)) == multiset(s)
  {
    if s != [] {
      ShufflePermutes(s, |s| - 1, Picks(init, 0, |s| - 1));
    }
  }

  /** What one round of the shuffle does to its first pick and to the rest. */
  lemma ShuffleRound<T>(s: seq<T>, init: seq<Word>, m: nat, i: nat)
    requires Productive(init, m, i) && 0 < i < |s|
    ensures var t := Tries(init, m, i + 1);
            var j := Scaled(i + 1, Draw(init, m + t));
            && 0 <= j <= i
            && FisherYates(s, i, Picks(init, m, i)) == FisherYates(Swap(s, i, j), i - 1, Picks(init, m + t, i - 1))
  {
    var t := Tries(init, m, i + 1);
    ScaledIsBelow(i + 1, Draw(init, m + t));
    assert Picks(init, m, i)[1..] == Picks(init, m + t, i - 1);
  }

  method SwapAt<T>(a: array<T>, i: nat, j: nat)
    requires i < a.Length && j < a.Length
    modifies a
    ensures a[..] == Swap(old(a[..]), i, j)
  {
    a[i], a[j] := a[j], a[i];
  }

  /** One round: position i gets its element. */
  method ShuffleOnce<T>(a: array<T>, rng: RngSource, i: nat, ghost init: seq<Word>, ghost m: nat)
    returns (ghost m': nat)
    requires 0 < i < a.Length && Productive(init, m, i)
    requires rng.Represents(init, m)
    requires a as object != rng && a as object != rng.vec
    modifies a, rng, rng.vec
    ensures rng.Represents(init, m') && Productive(init, m', i - 1)
    ensures FisherYates(a[..], i - 1, Picks(init, m', i - 1)) == FisherYates(old(a[..]), i, Picks(init, m, i))
  {
    var j, tries := Int31n(rng, i + 1, init, m);
    SwapAt(a, i, j);
    m' := m + tries;
    ShuffleRound(old(a[..]), init, m, i);
  }

  /** The in-place shuffle with a freshly seeded generator. */
  method ShuffleInPlace<T>(a: array<T>, rng: RngSource, ghost init: seq<Word>)
    requires CanShuffle(init, a.Length)
    requires rng.Represents(init, 0)
    requires a as object != rng && a as object != rng.vec
    modifies a, rng, rng.vec
    ensures a[..] == Shuffled(old(a[..]), init)
  {
    if a.Length == 0 {
      return;
    }
    var i := a.Length - 1;
    ghost var m: nat := 0;
    while i > 0
      invariant 0 <= i < a.Length
      invariant rng.Represents(init, m) && Productive(init, m, i)
      invariant FisherYates(a[..], i, Picks(init, m, i)) == Shuffled(old(a[..]), init)
    {
      m := ShuffleOnce(a, rng, i, init, m);
      i := i - 1;
    }
  }
}
