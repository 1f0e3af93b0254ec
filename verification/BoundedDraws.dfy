/**
 Bounded draws by Lemire's method, as int31n of src/consensus/parlia/go_rng.rs makes
 them, and their exact uniformity.
 */
module BoundedDraws {
  import opened Arith
  import opened Counting
  import opened GoRng

  const TWO_32: int := 0x1_0000_0000
  const TWO_31: int := 0x8000_0000

  /** The low halves below this value are rejected. */
  function Threshold(n: int): int
    requires 0 < n < TWO_31
  {
    (TWO_32 - n) % n
  }

  predicate Accepts(n: int, v: int)
    requires 0 < n < TWO_31
  {
    (v * n) % TWO_32 >= Threshold(n)
  }

  /** The value an accepted draw stands for. */
  function Scaled(n: int, v: int): int {
    (v * n) / TWO_32
  }

  lemma ScaledIsBelow(n: int, v: int)
    requires 0 < n < TWO_31 && 0 <= v < TWO_32
    ensures 0 <= Scaled(n, v) < n
  {
    DivBounds(v * n, TWO_32);
    MulMonotone(v + 1, TWO_32, n);
    assert (v + 1) * n == v * n + n;
    MulCancel(Scaled(n, v), n, TWO_32);
    MulMonotone(0, v, n);
  }

  // ---------------------------------------------------------------------------
  // Uniformity
  // ---------------------------------------------------------------------------

  /** The accepted range of low halves is a whole number of steps of n. */
  lemma ThresholdLeavesMultiple(n: int)
    requires 0 < n < TWO_31
    ensures 0 <= Threshold(n) < n
    ensures TWO_32 - Threshold(n) == (TWO_32 / n) * n
  {
    var q, r := TWO_32 / n, TWO_32 % n;
    assert TWO_32 == q * n + r;
    assert (q - 1) * n == q * n - n;
    DivUnique(TWO_32 - n, n, q - 1, r);
  }

  /** Smallest v with v * n >= a. */
  function Ceil(a: int, n: int): int
    requires n > 0
  {
    (a + n - 1) / n
  }

  lemma CeilSpec(a: int, n: int, v: int)
    requires n > 0
    ensures v * n >= a <==> v >= Ceil(a, n)
  {
    var c := Ceil(a, n);
    DivBounds(a + n - 1, n);
    if v >= c {
      MulMonotone(c, v, n);
      assert c * n >= a;
    } else {
      MulMonotone(v + 1, c, n);
      assert (v + 1) * n == v * n + n;
    }
  }

  /** The 32-bit draws that are accepted and stand for r. */
  ghost function DrawsFor(n: int, r: int): set<int>
    requires 0 < n < TWO_31
  {
    set v | 0 <= v < TWO_32 && Accepts(n, v) && Scaled(n, v) == r
  }

  lemma DrawsForMembers(n: int, r: int, v: int)
    requires 0 < n < TWO_31 && 0 <= r < n
    ensures v in DrawsFor(n, r) <==> r * TWO_32 + Threshold(n) <= v * n < (r + 1) * TWO_32
  {
    ThresholdLeavesMultiple(n);
    var p := v * n;
    assert (r + 1) * TWO_32 == r * TWO_32 + TWO_32;
    if r * TWO_32 + Threshold(n) <= p < (r + 1) * TWO_32 {
      DivUnique(p, TWO_32, r, p - r * TWO_32);
      MulMonotone(r + 1, n, TWO_32);
      MulMonotone(0, r, TWO_32);
      MulCancel(-1, v, n);
      MulCancel(v, TWO_32, n);
    } else if v in DrawsFor(n, r) {
      DivBounds(p, TWO_32);
      assert false;
    }
  }

  /**
   Exact uniformity: for every bound n and every r below n the same number of draws,
   floor(2^32 / n), is accepted and stands for r.
   */
  lemma DrawsAreUniform(n: int, r: int)
    requires 0 < n < TWO_31 && 0 <= r < n
    ensures |DrawsFor(n, r)| == 0x1_0000_0000 / n
  {
    var q := TWO_32 / n;
    ThresholdLeavesMultiple(n);
    DivMonotone(0, TWO_32, n);
    var a := r * TWO_32 + Threshold(n);
    var c := Ceil(a, n);
    assert (r + 1) * TWO_32 == a + q * n;
    forall v: int
      ensures v in DrawsFor(n, r) <==> v in Interval(c, q)
    {
      DrawsForMembers(n, r, v);
      CeilSpec(a, n, v);
      CeilSpec(a, n, v - q);
      assert (v - q) * n == v * n - q * n;
    }
    assert DrawsFor(n, r) == Interval(c, q);
  }

  // ---------------------------------------------------------------------------
  // Rejection sampling over the generator
  // ---------------------------------------------------------------------------

  /** The t-th draw after word m is accepted for the bound n. */
  ghost predicate AcceptsAt(init: seq<Word>, m: nat, n: int, t: nat)
    requires |init| == RNG_LEN && 0 < n < TWO_31
  {
    Accepts(n, Draw(init, m + t))
  }

  /** Some draw after word m is accepted, which is when the rejection loop ends. */
  ghost predicate Eventually(init: seq<Word>, m: nat, n: int)
    requires |init| == RNG_LEN && 0 < n < TWO_31
  {
    exists t: nat :: t >= 1 && AcceptsAt(init, m, n, t)
  }

  ghost function FirstFrom(init: seq<Word>, m: nat, n: int, k: nat, t: nat): (r: nat)
    requires |init| == RNG_LEN && 0 < n < TWO_31 && k <= t && AcceptsAt(init, m, n, t)
    ensures k <= r <= t && AcceptsAt(init, m, n, r)
    ensures forall x :: k <= x < r ==> !AcceptsAt(init, m, n, x)
    decreases t - k
  {
    if AcceptsAt(init, m, n, k) then k else FirstFrom(init, m, n, k + 1, t)
  }

  /** How many draws it takes from word m on. */
  ghost function Tries(init: seq<Word>, m: nat, n: int): (r: nat)
    requires |init| == RNG_LEN && 0 < n < TWO_31 && Eventually(init, m, n)
    ensures 1 <= r && AcceptsAt(init, m, n, r)
    ensures forall x :: 1 <= x < r ==> !AcceptsAt(init, m, n, x)
  {
    var t: nat :| t >= 1 && AcceptsAt(init, m, n, t);
    FirstFrom(init, m, n, 1, t)
  }

  /** Draws until a draw is accepted. */
  method Int31n(rng: RngSource, n: int, ghost init: seq<Word>, ghost m: nat) returns (r: int, ghost tries: nat)
    requires 0 < n < TWO_31
    requires rng.Represents(init, m) && Eventually(init, m, n)
    modifies rng, rng.vec
    ensures tries == Tries(init, m, n)
    ensures rng.Represents(init, m + tries)
    ensures r == Scaled(n, Draw(init, m + tries))
    ensures 0 <= r < n
  {
    var v := rng.Uint32(init, m);
    tries := 1;
    var prod := v * n;
    var low := prod % TWO_32;
    ThresholdLeavesMultiple(n);
    assert low >= Threshold(n) <==> AcceptsAt(init, m, n, 1);
    if low < n {
      var thresh := (TWO_32 - n) % n;
      if low < thresh {
        v, tries := Redraw(rng, n, thresh, init, m);
        prod := v * n;
      }
    }
    r := prod / TWO_32;
    ScaledIsBelow(n, v);
  }

  /** The rejection loop, entered after a first draw that was rejected. */
  method Redraw(rng: RngSource, n: int, thresh: int, ghost init: seq<Word>, ghost m: nat)
    returns (v: nat, ghost tries: nat)
    requires 0 < n < TWO_31 && thresh == Threshold(n)
    requires rng.Represents(init, m + 1) && Eventually(init, m, n) && !AcceptsAt(init, m, n, 1)
    modifies rng, rng.vec
    ensures tries == Tries(init, m, n)
    ensures rng.Represents(init, m + tries)
    ensures v == Draw(init, m + tries)
  {
    v := rng.Uint32(init, m + 1);
    tries := 2;
    var low := (v * n) % TWO_32;
    while low < thresh
      invariant 2 <= tries <= Tries(init, m, n)
      invariant v == Draw(init, m + tries) && low == (v * n) % TWO_32
      invariant rng.Represents(init, m + tries)
      decreases Tries(init, m, n) - tries
    {
      assert !AcceptsAt(init, m, n, tries);
      v := rng.Uint32(init, m + tries);
      low := (v * n) % TWO_32;
      tries := tries + 1;
    }
    assert AcceptsAt(init, m, n, tries);
  }
}
