/** Small facts about products, for proofs in several components. */
module Arithmetic {
  lemma {:induction false} RowStep(x: nat, y: nat, d: nat)
    ensures x < y ==> x * d + d <= y * d
    decreases y
  {
    if x < y {
      assert y * d == (y - 1) * d + d;
      RowStep(x, y - 1, d);
    }
  }

  lemma RowMono(x: nat, y: nat, d: nat)
    requires x <= y
    ensures x * d <= y * d && d * x <= d * y
  {
    RowStep(x, y, d);
  }

  lemma SquareOrder(a: real, b: real)
    requires a >= 0.0 && b >= 0.0
    ensures a * a <= b * b <==> a <= b
  {
    if a < b { SquareGap(a, b - a, b); }
    if b < a { SquareGap(b, a - b, a); }
  }

  lemma SquareGap(a: real, d: real, b: real)
    requires a >= 0.0 && d > 0.0 && b == a + d
    ensures a * a < b * b
  {
    assert b * b == a * a + 2.0 * (d * a) + d * d;
    assert d * a >= 0.0;
    assert d * d > 0.0;
  }

  lemma PositiveProduct(x: real, y: real)
    requires x >= 0.0 && y >= 0.0
    ensures x * y >= 0.0 && (x > 0.0 && y > 0.0 ==> x * y > 0.0)
  {}

  lemma DivMod(q: nat, r: nat, d: nat)
    requires r < d
    ensures (q * d + r) / d == q && (q * d + r) % d == r
  {
    var n := q * d + r;
    assert n == n / d * d + n % d;
    RowStep(q, n / d, d);
    RowStep(n / d, q, d);
  }

  function Quotient(n: nat, d: nat): nat
    requires d > 0
  {
    n / d
  }

  function Remainder(n: nat, d: nat): nat
    requires d > 0
  {
    n % d
  }

  lemma PositiveFactors(x: nat, y: nat, z: nat)
    ensures x * y * z > 0 ==> x > 0 && y > 0 && z > 0
  {
    if x == 0 || y == 0 { assert x * y == 0; }
  }

  lemma ProductBelow(q: nat, m: nat, r: nat, d: nat)
    requires q < m && r < d
    ensures q * d + r < m * d
  {
    RowStep(q, m, d);
  }

  lemma QuotientBelow(n: nat, m: nat, d: nat)
    requires d > 0 && n < m * d
    ensures n / d < m
  {
    assert n == n / d * d + n % d;
    RowStep(m, n / d, d);
  }

  /** A larger divisor gives no larger quotient. */
  lemma QuotientMono(n: nat, s: nat, t: nat)
    requires 0 < s <= t
    ensures Quotient(n, t) <= Quotient(n, s)
  {
    var q, p := n / t, n / s;
    assert n == q * t + n % t && n == p * s + n % s;
    RowMono(s, t, q);
    RowStep(p, q, s);
    assert (q * s <= n) && (p < q ==> p * s + s <= q * s);
  }

  lemma ProductMono(a: nat, b: nat, x: nat, y: nat)
    requires a <= b && x <= y
    ensures a * x <= b * y
  {
    RowMono(a, b, x);
    RowMono(x, y, b);
  }
}
