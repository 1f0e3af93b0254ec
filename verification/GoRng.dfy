/**
 The Go-compatible generator of src/consensus/parlia/go_rng.rs: the Schrage seeder
 and the lagged Fibonacci ring buffer.
 */
module GoRng {
  import opened Arith
  import opened Bits

  const RNG_LEN: int := 607
  const RNG_TAP: int := 273
  const INT32_MAX: int := 0x7FFF_FFFF

  /** A 64-bit register word, read as unsigned. */
  type Word = w: nat | w < 0x1_0000_0000_0000_0000

  /** Addition that wraps around, as overflowing_add does. */
  function WrappingAdd(a: Word, b: Word): Word {
    (a + b) % 0x1_0000_0000_0000_0000
  }

  // ---------------------------------------------------------------------------
  // The seeder
  // ---------------------------------------------------------------------------

  /** The 32-bit integers; every operation on them is checked not to leave their range. */
  newtype Int32 = x: int | -0x8000_0000 <= x < 0x8000_0000

  const MULTIPLIER: int := 48271

  /** 48271 * 1899818559 is one more than a multiple of 2^31 - 1. */
  const MULTIPLIER_INVERSE: int := 1899818559

  /** The states of the seeder. */
  type SeederState = x: int | 1 <= x < INT32_MAX witness 1

  /** The step the seeder is meant to make. */
  function Next(x: SeederState): SeederState {
    StepStaysPositive(x);
    (MULTIPLIER * x) % INT32_MAX
  }

  lemma StepStaysPositive(x: SeederState)
    ensures (MULTIPLIER * x) % INT32_MAX >= 1
  {
    StepIsInvertible(x);
  }

  /** The step by Schrage's method: no intermediate value leaves 32 bits. */
  function SeedRand(x: Int32): (r: Int32)
    requires 1 <= x as int < INT32_MAX
    ensures r as int == Next(x as int) == (48271 * (x as int)) % 2147483647
  {
    var a: Int32, q: Int32, r: Int32 := 48271, 44488, 3399;
    var hi, lo := x / q, x % q;
    var y := a * lo - r * hi;
    SchrageIdentity(x as int);
    if y < 0 then y + 0x7FFF_FFFF else y
  }

  lemma SchrageIdentity(x: int)
    requires 1 <= x < INT32_MAX
    ensures var y := MULTIPLIER * (x % 44488) - 3399 * (x / 44488);
            && -INT32_MAX < y < INT32_MAX
            && (MULTIPLIER * x) % INT32_MAX == (if y < 0 then y + INT32_MAX else y)
  {
    var hi, lo := x / 44488, x % 44488;
    var y := MULTIPLIER * lo - 3399 * hi;
    assert MULTIPLIER * x == INT32_MAX * hi + y;
    if y < 0 {
      DivUnique(MULTIPLIER * x, INT32_MAX, hi - 1, y + INT32_MAX);
    } else {
      DivUnique(MULTIPLIER * x, INT32_MAX, hi, y);
    }
  }

  /** Multiplying by the inverse undoes a step. */
  lemma StepIsInvertible(x: int)
    requires 0 <= x < INT32_MAX
    ensures (MULTIPLIER_INVERSE * ((MULTIPLIER * x) % INT32_MAX)) % INT32_MAX == x
  {
    var q, r := (MULTIPLIER * x) / INT32_MAX, (MULTIPLIER * x) % INT32_MAX;
    DivUnique(MULTIPLIER_INVERSE * r, INT32_MAX, 42704 * x - MULTIPLIER_INVERSE * q, x);
  }

  /** Different states have different successors. */
  lemma SeedRandIsInjective(x: Int32, y: Int32)
    requires 1 <= x as int < INT32_MAX && 1 <= y as int < INT32_MAX
    requires SeedRand(x) == SeedRand(y)
    ensures x == y
  {
    StepIsInvertible(x as int);
    StepIsInvertible(y as int);
  }

  /** The seed brought into 1 .. 2^31 - 2; 89482311 stands for 0. */
  function StartOf(seed: int): SeederState {
    if seed % INT32_MAX == 0 then 89482311 else seed % INT32_MAX
  }

  /** The seeder state after k steps. */
  function SeederAt(start: SeederState, k: nat): SeederState {
    if k == 0 then start else Next(SeederAt(start, k - 1))
  }

  function Power(k: nat): nat {
    if k == 0 then 1 else MULTIPLIER * Power(k - 1)
  }

  /** Closed form: k steps multiply by 48271^k. */
  lemma {:induction false} SeederClosedForm(start: SeederState, k: nat)
    ensures SeederAt(start, k) == (Power(k) * start) % INT32_MAX
  {
    var s: int := start;
    if k == 0 {
      DivUnique(s, INT32_MAX, 0, s);
    } else {
      SeederClosedForm(start, k - 1);
      var y := Power(k - 1) * s;
      var q, r := y / INT32_MAX, y % INT32_MAX;
      var p, t := (MULTIPLIER * r) / INT32_MAX, (MULTIPLIER * r) % INT32_MAX;
      assert MULTIPLIER * y == (MULTIPLIER * q + p) * INT32_MAX + t;
      DivUnique(MULTIPLIER * y, INT32_MAX, MULTIPLIER * q + p, t);
      assert Power(k) * s == MULTIPLIER * y;
    }
  }

  /** The word times a power of two; what leaves the 64 bits is lost. */
  function ShiftLeft(x: nat, power: nat): Word {
    (x * power) % 0x1_0000_0000_0000_0000
  }

  function XorWords(x: Word, y: Word): Word {
    Powers();
    XorFits(x, y, 64);
    Xor(x, y)
  }

  /** Three seeder states and a table word, shifted by 40, 20 and 0 bits and xored together. */
  function Mix(a: SeederState, b: SeederState, c: SeederState, cooked: Word): Word {
    XorWords(XorWords(XorWords(ShiftLeft(a, 0x100_0000_0000), ShiftLeft(b, 0x10_0000)), c), cooked)
  }

  /** Bit k of x moved s places up, in a 64-bit word. */
  function MovedBit(x: nat, s: nat, k: nat): nat {
    if k < s then 0 else Bit(x, k - s)
  }

  lemma ShiftLeftBit(x: nat, power: nat, s: nat, k: nat)
    requires power == Pow2(s) && k < 64
    ensures Bit(ShiftLeft(x, power), k) == MovedBit(x, s, k)
  {
    Powers();
    KeptBit(x * power, 64, k);
    ShiftedBit(x, s, k);
  }

  lemma ShiftedStates(a: nat, b: nat, k: nat)
    requires k < 64
    ensures Bit(ShiftLeft(a, 0x100_0000_0000), k) == MovedBit(a, 40, k)
    ensures Bit(ShiftLeft(b, 0x10_0000), k) == MovedBit(b, 20, k)
  {
    Powers();
    ShiftLeftBit(a, 0x100_0000_0000, 40, k);
    ShiftLeftBit(b, 0x10_0000, 20, k);
  }

  lemma XorWordsBit(x: Word, y: Word, k: nat)
    ensures Bit(XorWords(x, y), k) == (Bit(x, k) + Bit(y, k)) % 2
  {
    XorBit(x, y, k);
  }

  lemma ParityOfSum(p: nat, q: nat, r: nat, s: nat)
    ensures (((p + q) % 2 + r) % 2 + s) % 2 == (p + q + r + s) % 2
  {
  }

  lemma FourWords(x: Word, y: Word, z: Word, w: Word, k: nat)
    ensures Bit(XorWords(XorWords(XorWords(x, y), z), w), k) == (Bit(x, k) + Bit(y, k) + Bit(z, k) + Bit(w, k)) % 2
  {
    XorWordsBit(x, y, k);
    XorWordsBit(XorWords(x, y), z, k);
    XorWordsBit(XorWords(XorWords(x, y), z), w, k);
    ParityOfSum(Bit(x, k), Bit(y, k), Bit(z, k), Bit(w, k));
  }

  /**
   The mixed word bit by bit: bit k is the sum modulo 2 of bit k - 40 of the first state,
   bit k - 20 of the second, bit k of the third and bit k of the table word.
   */
  lemma MixedBit(a: SeederState, b: SeederState, c: SeederState, cooked: Word, k: nat)
    requires k < 64
    ensures Bit(Mix(a, b, c, cooked), k) == (MovedBit(a, 40, k) + MovedBit(b, 20, k) + Bit(c, k) + Bit(cooked, k)) % 2
  {
    ShiftedStates(a, b, k);
    FourWords(ShiftLeft(a, 0x100_0000_0000), ShiftLeft(b, 0x10_0000), c, cooked, k);
  }

  /** Word i of the seeded register. */
  function SeedWord(start: SeederState, cooked: seq<Word>, i: nat): Word
    requires i < |cooked|
  {
    Mix(SeederAt(start, 21 + 3 * i), SeederAt(start, 22 + 3 * i), SeederAt(start, 23 + 3 * i), cooked[i])
  }

  /** The register right after seeding. */
  function SeedRegister(start: SeederState, cooked: seq<Word>): (r: seq<Word>)
    requires |cooked| == RNG_LEN
    ensures |r| == RNG_LEN
  {
    seq(RNG_LEN, i requires 0 <= i < RNG_LEN => SeedWord(start, cooked, i))
  }

  /** State k of the seeder in closed form. */
  function StateOf(seed: int, k: nat): nat {
    (Power(k) * StartOf(seed)) % INT32_MAX
  }

  /** The seeded register bit by bit, from the powers of the multiplier. */
  lemma SeededBit(seed: int, cooked: seq<Word>, i: nat, k: nat)
    requires |cooked| == RNG_LEN && i < RNG_LEN && k < 64
    ensures Bit(SeedWords(seed, cooked)[i], k) ==
            (MovedBit(StateOf(seed, 21 + 3 * i), 40, k) + MovedBit(StateOf(seed, 22 + 3 * i), 20, k)
             + Bit(StateOf(seed, 23 + 3 * i), k) + Bit(cooked[i], k)) % 2
  {
    var start := StartOf(seed);
    SeederClosedForm(start, 21 + 3 * i);
    SeederClosedForm(start, 22 + 3 * i);
    SeederClosedForm(start, 23 + 3 * i);
    MixedBit(SeederAt(start, 21 + 3 * i), SeederAt(start, 22 + 3 * i), SeederAt(start, 23 + 3 * i), cooked[i], k);
  }

  function SeedWords(seed: int, cooked: seq<Word>): (r: seq<Word>)
    requires |cooked| == RNG_LEN
    ensures |r| == RNG_LEN
  {
    SeedRegister(StartOf(seed), cooked)
  }

  // ---------------------------------------------------------------------------
  // The ring buffer
  // ---------------------------------------------------------------------------

  /**
   The additive lagged Fibonacci sequence y(n) = y(n - 607) + y(n - 273) modulo 2^64.
   The seeded register is its history: y(0), y(-1), .. y(-606).
   */
  function Y(init: seq<Word>, n: int): Word
    requires |init| == RNG_LEN && n + RNG_LEN > 0
    decreases n + RNG_LEN
  {
    if n <= 0 then init[Slot(n)] else WrappingAdd(Y(init, n - RNG_LEN), Y(init, n - RNG_TAP))
  }

  /** The sequence in numbers: its two lags, and where in the seeded register its history is. */
  lemma Recurrence(init: seq<Word>, n: int)
    requires |init| == 607 && n > -607
    ensures n > 0 ==> Y(init, n) == (Y(init, n - 607) + Y(init, n - 273)) % 0x1_0000_0000_0000_0000
    ensures n <= 0 ==> Y(init, n) == init[(334 - n) % 607]
  {
  }

  /** The register index that holds y(n). */
  function Slot(n: int): nat {
    (RNG_LEN - RNG_TAP - n) % RNG_LEN
  }

  /** The tap index after n words. */
  function TapAt(n: int): nat {
    (-n) % RNG_LEN
  }

  lemma SlotStep(n: int)
    ensures Slot(n + 1) == (Slot(n) + RNG_LEN - 1) % RNG_LEN
    ensures TapAt(n + 1) == (TapAt(n) + RNG_LEN - 1) % RNG_LEN
  {
    StepBack(RNG_LEN - RNG_TAP - n);
    StepBack(-n);
  }

  lemma StepBack(x: int)
    ensures (x - 1) % RNG_LEN == (x % RNG_LEN + RNG_LEN - 1) % RNG_LEN
  {
    var q, r := x / RNG_LEN, x % RNG_LEN;
    var y := r + RNG_LEN - 1;
    DivUnique(x - 1, RNG_LEN, q - 1 + y / RNG_LEN, y % RNG_LEN);
  }

  lemma SlotShifts(n: int)
    ensures Slot(n - RNG_LEN) == Slot(n)
    ensures Slot(n - RNG_TAP) == TapAt(n)
  {
    var x := RNG_LEN - RNG_TAP - n;
    DivUnique(x + RNG_LEN, RNG_LEN, x / RNG_LEN + 1, x % RNG_LEN);
    DivUnique(-n + RNG_LEN, RNG_LEN, (-n) / RNG_LEN + 1, (-n) % RNG_LEN);
  }

  /** The feed index stays 334 ahead of the tap index. */
  lemma FeedLeadsTap(n: int)
    ensures (Slot(n) - TapAt(n)) % 607 == 334
  {
    var a, b := (RNG_LEN - RNG_TAP - n) / RNG_LEN, (-n) / RNG_LEN;
    DivUnique(Slot(n) - TapAt(n), RNG_LEN, b - a, RNG_LEN - RNG_TAP);
  }

  lemma SlotsDiffer(m: int, n: int)
    requires 0 < n - m < RNG_LEN
    ensures Slot(m) != Slot(n)
  {
  }

  /** The register has y(m) in its place. */
  ghost predicate RingAt(vec: seq<Word>, init: seq<Word>, m: int)
    requires |init| == RNG_LEN && |vec| == RNG_LEN && m + RNG_LEN > 0
  {
    vec[Slot(m)] == Y(init, m)
  }

  /** The register holds the last 607 words, the newest of which is y(n). */
  ghost predicate IsRing(vec: seq<Word>, init: seq<Word>, n: nat) {
    && |init| == RNG_LEN && |vec| == RNG_LEN
    && forall m :: n - RNG_LEN < m <= n ==> RingAt(vec, init, m)
  }

  lemma RingReads(vec: seq<Word>, init: seq<Word>, n: nat)
    requires IsRing(vec, init, n)
    ensures WrappingAdd(vec[Slot(n + 1)], vec[TapAt(n + 1)]) == Y(init, n + 1)
  {
    SlotShifts(n + 1);
    assert RingAt(vec, init, n + 1 - RNG_LEN);
    assert RingAt(vec, init, n + 1 - RNG_TAP);
  }

  lemma RingStep(vec: seq<Word>, init: seq<Word>, n: nat)
    requires IsRing(vec, init, n)
    ensures IsRing(vec[Slot(n + 1) := Y(init, n + 1)], init, n + 1)
  {
    var next := vec[Slot(n + 1) := Y(init, n + 1)];
    forall m | n + 1 - RNG_LEN < m <= n + 1
      ensures RingAt(next, init, m)
    {
      if m < n + 1 {
        SlotsDiffer(m, n + 1);
        assert RingAt(vec, init, m);
      }
    }
  }

  /** The 32-bit draw taken from a word: its low 63 bits without their last 31. */
  function Uint32Of(y: Word): (v: nat)
    ensures v < 0x1_0000_0000
  {
    (y % 0x8000_0000_0000_0000) / 0x8000_0000
  }

  /** A draw is made of bits 31 to 62 of its word. */
  lemma DrawnBit(y: Word, k: nat)
    requires k < 32
    ensures Bit(Uint32Of(y), k) == Bit(y, k + 31)
  {
    Powers();
    DropDivides(y % 0x8000_0000_0000_0000, 31);
    DroppedBit(y % 0x8000_0000_0000_0000, 31, k);
    KeptBit(y, 63, k + 31);
  }

  function Draw(init: seq<Word>, n: nat): nat
    requires |init| == RNG_LEN
  {
    Uint32Of(Y(init, n))
  }

  /** A freshly seeded register is the history of its own sequence. */
  lemma FreshRing(init: seq<Word>)
    requires |init| == RNG_LEN
    ensures IsRing(init, init, 0) && TapAt(0) == 0 && Slot(0) == RNG_LEN - RNG_TAP
  {
  }

  /** The seed reduced with the truncating remainder, then made positive. */
  method Normalize(seed: int) returns (x: Int32)
    ensures x as int == StartOf(seed)
    ensures x as int == if seed % 2147483647 == 0 then 89482311 else seed % 2147483647
  {
    var rem := if seed >= 0 then seed % INT32_MAX else -((-seed) % INT32_MAX);
    if rem < 0 {
      rem := rem + INT32_MAX;
    }
    if rem == 0 {
      rem := 89482311;
    }
    x := rem as Int32;
  }

  /** Seeder steps taken before round i of the seeding loop. */
  function StepsBefore(i: int): nat
    requires i >= -20
  {
    if i < 0 then 20 + i else 20 + 3 * i
  }

  method ThreeSteps(x: Int32, ghost start: SeederState, ghost k: nat) returns (a: Int32, b: Int32, c: Int32)
    requires x as int == SeederAt(start, k)
    ensures a as int == SeederAt(start, k + 1)
    ensures b as int == SeederAt(start, k + 2)
    ensures c as int == SeederAt(start, k + 3)
  {
    a := SeedRand(x);
    b := SeedRand(a);
    c := SeedRand(b);
  }

  /** The shifted states and the table word, xored. */
  method MixWords(a: SeederState, b: SeederState, c: SeederState, cooked: Word) returns (u: Word)
    ensures u == Mix(a, b, c, cooked)
  {
    u := ShiftLeft(a, 0x100_0000_0000);
    u := XorWords(u, ShiftLeft(b, 0x10_0000));
    u := XorWords(u, c);
    u := XorWords(u, cooked);
  }

  /** Three seeder steps mixed with one word of the table. */
  method MixedWord(x: Int32, cooked: seq<Word>, ghost start: SeederState, i: nat) returns (u: Word, x': Int32)
    requires x as int == SeederAt(start, StepsBefore(i))
    requires |cooked| == RNG_LEN && i < |cooked|
    ensures x' as int == SeederAt(start, StepsBefore(i + 1))
    ensures u == SeedRegister(start, cooked)[i]
  {
    var a, b;
    a, b, x' := ThreeSteps(x, start, 20 + 3 * i);
    u := MixWords(a as int, b as int, x' as int, cooked[i]);
    assert u == SeedWord(start, cooked, i);
  }

  /** One round of the seeding loop: rounds below 0 only step, the others also make a word. */
  method SeedRound(vec: array<Word>, x: Int32, cooked: seq<Word>, ghost start: SeederState, i: int)
    returns (x': Int32)
    requires vec.Length == |cooked| == RNG_LEN && -20 <= i < RNG_LEN
    requires x as int == SeederAt(start, StepsBefore(i))
    modifies vec
    ensures x' as int == SeederAt(start, StepsBefore(i + 1))
    ensures vec[..] == if i < 0 then old(vec[..]) else old(vec[..])[i := SeedRegister(start, cooked)[i]]
  {
    if i < 0 {
      x' := SeedRand(x);
    } else {
      var u;
      u, x' := MixedWord(x, cooked, start, i);
      vec[i] := u;
    }
  }

  /** The seeding loop: twenty steps are thrown away, then three make each word. */
  method FillRegister(vec: array<Word>, start: Int32, cooked: seq<Word>)
    requires vec.Length == |cooked| == RNG_LEN && 1 <= start as int < INT32_MAX
    modifies vec
    ensures vec[..] == SeedRegister(start as int, cooked)
  {
    ghost var words := SeedRegister(start as int, cooked);
    var x := start;
    var i: int := -20;
    while i < RNG_LEN
      invariant -20 <= i <= RNG_LEN
      invariant x as int == SeederAt(start as int, StepsBefore(i))
      invariant forall k :: 0 <= k < i ==> vec[..][k] == words[k]
    {
      x := SeedRound(vec, x, cooked, start as int, i);
      i := i + 1;
    }
  }

  class RngSource {
    var tap: nat
    var feed: nat
    const vec: array<Word>

    /** The generator was seeded with init and has produced n words since. */
    ghost predicate Represents(init: seq<Word>, n: nat)
      reads this, vec
    {
      IsRing(vec[..], init, n) && tap == TapAt(n) && feed == Slot(n)
    }

    constructor (seed: int, cooked: seq<Word>)
      requires |cooked| == RNG_LEN
      ensures fresh(vec)
      ensures Represents(SeedWords(seed, cooked), 0)
    {
      vec := new Word[RNG_LEN];
      tap := 0;
      feed := 0;
      new;
      Seed(seed, cooked);
    }

    method Seed(seed: int, cooked: seq<Word>)
      requires |cooked| == RNG_LEN && vec.Length == RNG_LEN
      modifies this, vec
      ensures Represents(SeedWords(seed, cooked), 0)
    {
      tap := 0;
      feed := RNG_LEN - RNG_TAP;
      var x := Normalize(seed);
      FillRegister(vec, x, cooked);
      FreshRing(vec[..]);
    }

    method Uint64(ghost init: seq<Word>, ghost n: nat) returns (y: Word)
      requires Represents(init, n)
      modifies this, vec
      ensures y == Y(init, n + 1)
      ensures Represents(init, n + 1)
    {
      SlotStep(n);
      tap := (tap + RNG_LEN - 1) % RNG_LEN;
      feed := (feed + RNG_LEN - 1) % RNG_LEN;
      RingReads(vec[..], init, n);
      y := WrappingAdd(vec[feed], vec[tap]);
      RingStep(vec[..], init, n);
      ghost var before := vec[..];
      vec[feed] := y;
      assert vec[..] == before[feed := y];
    }

    method Uint32(ghost init: seq<Word>, ghost n: nat) returns (v: nat)
      requires Represents(init, n)
      modifies this, vec
      ensures v == Draw(init, n + 1)
      ensures Represents(init, n + 1)
    {
      var y := Uint64(init, n);
      v := (y % 0x8000_0000_0000_0000) / 0x8000_0000;
    }
  }
}
