/**
 The bits of a natural number, and the exclusive or and the shifts that the generator of
 src/consensus/parlia/go_rng.rs makes on 64-bit words.
 */
module Bits {
  import opened Arith

  function Pow2(n: nat): (p: nat)
    ensures p >= 1
  {
    if n == 0 then 1 else 2 * Pow2(n - 1)
  }

  /** Bit k of x. */
  function Bit(x: nat, k: nat): (b: nat)
    ensures b <= 1
    decreases k
  {
    if k == 0 then x % 2 else Bit(x / 2, k - 1)
  }

  function Xor(x: nat, y: nat): nat {
    if x == 0 && y == 0 then 0 else (x + y) % 2 + 2 * Xor(x / 2, y / 2)
  }

  lemma {:induction false} NoBits(k: nat)
    ensures Bit(0, k) == 0
  {
    if k > 0 {
      NoBits(k - 1);
    }
  }

  /** The exclusive or adds bits modulo 2. */
  lemma {:induction false} XorBit(x: nat, y: nat, k: nat)
    ensures Bit(Xor(x, y), k) == (Bit(x, k) + Bit(y, k)) % 2
    decreases k
  {
    if x == 0 && y == 0 {
      NoBits(k);
    } else {
      XorParts(x, y);
      if k > 0 {
        XorBit(x / 2, y / 2, k - 1);
      }
    }
  }

  lemma {:induction false} XorParts(x: nat, y: nat)
    requires x > 0 || y > 0
    ensures Xor(x, y) / 2 == Xor(x / 2, y / 2)
    ensures Xor(x, y) % 2 == (x % 2 + y % 2) % 2
  {
    var low, high := (x + y) % 2, Xor(x / 2, y / 2);
    assert Xor(x, y) == low + 2 * high;
    ParityOfTwo(x, y);
  }

  lemma ParityOfTwo(x: nat, y: nat)
    ensures (x + y) % 2 == (x % 2 + y % 2) % 2
  {
  }

  lemma {:induction false} XorFits(x: nat, y: nat, n: nat)
    requires x < Pow2(n) && y < Pow2(n)
    ensures Xor(x, y) < Pow2(n)
  {
    if n > 0 && (x > 0 || y > 0) {
      XorFits(x / 2, y / 2, n - 1);
    }
  }

  /** Multiplying by 2^s moves every bit s places up. */
  lemma {:induction false} ShiftedBit(x: nat, s: nat, k: nat)
    ensures Bit(x * Pow2(s), k) == if k < s then 0 else Bit(x, k - s)
    decreases k
  {
    if s > 0 {
      var half := x * Pow2(s - 1);
      assert x * Pow2(s) == 2 * half;
      if k > 0 {
        ShiftedBit(x, s - 1, k - 1);
      }
    }
  }

  /** Dropping the bits from n on leaves those below n. */
  lemma {:induction false} KeptBit(x: nat, n: nat, k: nat)
    requires k < n
    ensures Bit(x % Pow2(n), k) == Bit(x, k)
    decreases k
  {
    HalfOfRest(x, n);
    if k > 0 {
      KeptBit(x / 2, n - 1, k - 1);
    }
  }

  lemma HalfOfRest(x: nat, n: nat)
    requires n > 0
    ensures x % Pow2(n) % 2 == x % 2
    ensures x % Pow2(n) / 2 == (x / 2) % Pow2(n - 1)
  {
    var p := Pow2(n - 1);
    var q, r := x / (2 * p), x % (2 * p);
    assert x == 2 * (p * q) + r;
    assert x / 2 == p * q + r / 2;
    DivUnique(x / 2, p, q, r / 2);
  }

  /** The number without its last s bits. */
  function Drop(x: nat, s: nat): nat
    decreases s
  {
    if s == 0 then x else Drop(x / 2, s - 1)
  }

  lemma {:induction false} DroppedBit(x: nat, s: nat, k: nat)
    ensures Bit(Drop(x, s), k) == Bit(x, k + s)
    decreases s
  {
    if s > 0 {
      DroppedBit(x / 2, s - 1, k);
    }
  }

  lemma {:induction false} DropDivides(x: nat, s: nat)
    ensures Drop(x, s) == x / Pow2(s)
    decreases s
  {
    if s > 0 {
      DropDivides(x / 2, s - 1);
      HalfFirst(x, Pow2(s - 1));
    }
  }

  lemma HalfFirst(x: nat, p: nat)
    requires p >= 1
    ensures x / (2 * p) == x / 2 / p
  {
    var q, r := x / 2 / p, x / 2 % p;
    assert x == 2 * (p * q) + 2 * r + x % 2;
    DivUnique(x, 2 * p, q, 2 * r + x % 2);
  }

  lemma {:induction false} PowerOfSum(m: nat, n: nat)
    ensures Pow2(m + n) == Pow2(m) * Pow2(n)
  {
    if m > 0 {
      PowerOfSum(m - 1, n);
    }
  }

  lemma SmallPowers()
    ensures Pow2(20) == 0x10_0000 && Pow2(31) == 0x8000_0000 && Pow2(32) == 0x1_0000_0000
  {
    PowerOfSum(10, 10);
    PowerOfSum(20, 11);
  }

  lemma Powers()
    ensures Pow2(20) == 0x10_0000 && Pow2(31) == 0x8000_0000
    ensures Pow2(40) == 0x100_0000_0000
    ensures Pow2(63) == 0x8000_0000_0000_0000 && Pow2(64) == 0x1_0000_0000_0000_0000
  {
    SmallPowers();
    PowerOfSum(20, 20);
    PowerOfSum(31, 32);
    PowerOfSum(32, 32);
  }
}
