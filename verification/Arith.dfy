/** Facts about products, quotients and remainders that the solver needs spelled out. */
module Arith {

  lemma MulMonotone(a: int, b: int, c: nat)
    requires a <= b
    ensures a * c <= b * c
  {
  }

  lemma MulCancel(a: int, b: int, c: nat)
    requires a * c < b * c
    ensures a < b
  {
    if a >= b {
      MulMonotone(b, a, c);
      assert false;
    }
  }

  lemma DivBounds(x: int, d: int)
    requires d > 0
    ensures (x / d) * d <= x < (x / d + 1) * d
    ensures (x / d + 1) * d == (x / d) * d + d
  {
  }

  lemma DivUnique(x: int, d: int, q: int, r: int)
    requires d > 0 && 0 <= r < d && x == q * d + r
    ensures x / d == q && x % d == r
  {
    DivBounds(x, d);
    var p := x / d;
    assert (q + 1) * d == q * d + d;
    if p > q {
      MulMonotone(q + 1, p, d);
      assert false;
    } else if p < q {
      MulMonotone(p + 1, q, d);
      assert false;
    }
  }

  lemma RemainderBelow(n: nat, d: nat, r: nat)
    requires d > 0 && n % d == r
    ensures r <= n && (n - r) % d == 0
  {
    DivUnique(n - r, d, n / d, 0);
  }

  lemma DivMonotone(a: int, b: int, c: int)
    requires a <= b && c >= 1
    ensures a / c <= b / c
  {
    DivBounds(a, c);
    DivBounds(b, c);
    if a / c > b / c {
      MulMonotone(b / c + 1, a / c, c);
      assert false;
    }
  }
}
