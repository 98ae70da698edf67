/** Embeddings as vectors, and their normalization. */
module Embeddings {
  import opened Arithmetic

  /** Inner product of vectors of equal dimension. */
  function Dot(u: seq<real>, v: seq<real>): real
    requires |u| == |v|
  {
    if u == [] then 0.0 else u[0] * v[0] + Dot(u[1..], v[1..])
  }

  lemma {:induction false} DotSelf(v: seq<real>)
    ensures Dot(v, v) >= 0.0
  {
    if v != [] {
      DotSelf(v[1..]);
      assert v[0] * v[0] >= 0.0;
    }
  }

  function Times(x: real, y: real): real { x * y }

  type Norm = seq<real> -> real

  /** `Eigen::VectorXf::norm()`, over exact reals. */
  ghost predicate IsNorm(norm: Norm) {
    forall v :: norm(v) >= 0.0 && Times(norm(v), norm(v)) == Dot(v, v)
  }

  const MIN_NORM := 0.000000000001

  function Divided(v: seq<real>, d: real): seq<real>
    requires d != 0.0
  {
    seq(|v|, i requires 0 <= i < |v| => v[i] / d)
  }

  function L2Normalized(v: seq<real>, norm: Norm): seq<real> {
    if norm(v) > MIN_NORM then Divided(v, norm(v)) else v
  }

  /** `u` has length one and points along `v`, unless the length of `v` is at most 1e-12 and `u` is `v`. */
  ghost predicate PointsAlong(u: seq<real>, v: seq<real>, norm: Norm) {
    if Dot(v, v) > 0.000000000000000000000001 then
      |u| == |v| && Dot(u, u) == 1.0 && norm(v) > 0.0 && forall i :: 0 <= i < |v| ==> v[i] == Times(norm(v), u[i])
    else u == v
  }

  /** `l2_normalize`: in place, and near-zero vectors are left unscaled. */
  method L2Normalize(v: array<real>, norm: Norm)
    modifies v
    ensures v[..] == L2Normalized(old(v[..]), norm)
    ensures IsNorm(norm) ==> PointsAlong(v[..], old(v[..]), norm)
  {
    if IsNorm(norm) { NormalizedPointsAlong(v[..], norm); }
    var n := norm(v[..]);
    if n > MIN_NORM {
      for i := 0 to v.Length
        invariant forall j :: 0 <= j < i ==> v[j] == old(v[j]) / n
        invariant forall j :: i <= j < v.Length ==> v[j] == old(v[j])
      {
        v[i] := v[i] / n;
      }
    }
  }

  lemma {:induction false} DotDivided(u: seq<real>, v: seq<real>, d: real, a: seq<real>, b: seq<real>)
    requires |u| == |v| && d != 0.0 && a == Divided(u, d) && b == Divided(v, d)
    ensures Times(Dot(a, b), Times(d, d)) == Dot(u, v)
  {
    if u == [] {
      assert Dot(a, b) == 0.0;
      assert Times(0.0, Times(d, d)) == 0.0;
    } else {
      assert a[0] == u[0] / d && b[0] == v[0] / d;
      assert a[1..] == Divided(u[1..], d) && b[1..] == Divided(v[1..], d);
      DotDivided(u[1..], v[1..], d, a[1..], b[1..]);
      TimesBack(u[0], d, a[0]);
      TimesBack(v[0], d, b[0]);
      assert Dot(a, b) == a[0] * b[0] + Dot(a[1..], b[1..]);
      TermDivided(a[0], b[0], u[0], v[0], d, Dot(a[1..], b[1..]), Dot(u[1..], v[1..]), Dot(a, b));
      assert Dot(u, v) == u[0] * v[0] + Dot(u[1..], v[1..]);
    }
  }

  lemma TimesBack(x: real, d: real, q: real)
    requires d != 0.0 && q == x / d
    ensures q * d == x
  {}

  lemma TermDivided(p: real, q: real, x: real, y: real, d: real, r: real, s: real, sum: real)
    requires p * d == x && q * d == y && Times(r, Times(d, d)) == s && sum == p * q + r
    ensures Times(sum, Times(d, d)) == x * y + s
  {
    assert p * q * (d * d) == (p * d) * (q * d);
  }

  /** What normalization leaves: a unit vector, or one that is nearly zero. */
  lemma NormalizedLength(v: seq<real>, norm: Norm)
    requires IsNorm(norm)
    ensures |L2Normalized(v, norm)| == |v|
    ensures var u := L2Normalized(v, norm);
            Dot(u, u) == if norm(v) > MIN_NORM then 1.0 else Dot(v, v)
    ensures var u := L2Normalized(v, norm); Dot(u, u) <= 1.0
  {
    if norm(v) > MIN_NORM {
      UnitLength(v, norm(v));
    } else {
      SmallSquare(norm(v));
    }
  }

  lemma UnitLength(v: seq<real>, n: real)
    requires n > 0.0 && Times(n, n) == Dot(v, v)
    ensures Dot(Divided(v, n), Divided(v, n)) == 1.0
  {
    DotDivided(v, v, n, Divided(v, n), Divided(v, n));
    UnitQuotient(Dot(Divided(v, n), Divided(v, n)), n);
  }

  lemma UnitQuotient(x: real, n: real)
    requires n > 0.0 && Times(x, Times(n, n)) == Times(n, n)
    ensures x == 1.0
  {
    PositiveTimes(n, n);
    Cancel(x, Times(n, n));
  }

  lemma PositiveTimes(x: real, y: real)
    requires x > 0.0 && y > 0.0
    ensures Times(x, y) > 0.0
  {}

  lemma Cancel(x: real, k: real)
    requires k > 0.0 && Times(x, k) == k
    ensures x == 1.0
  {
    assert x == Times(x, k) / k;
  }

  lemma SmallSquare(n: real)
    requires 0.0 <= n <= MIN_NORM
    ensures Times(n, n) <= 1.0
  {
    PositiveProduct(n, 1.0 - n);
  }

  lemma {:induction false} DotOfSums(u: seq<real>, v: seq<real>, s: real)
    requires |u| == |v| && s * s == 1.0
    ensures Dot(u, u) + 2.0 * s * Dot(u, v) + Dot(v, v) >= 0.0
  {
    if u != [] {
      DotOfSums(u[1..], v[1..], s);
      SquareOfSum(u[0], v[0], s);
    }
  }

  lemma SquareOfSum(x: real, y: real, s: real)
    requires s * s == 1.0
    ensures x * x + 2.0 * s * (x * y) + y * y >= 0.0
  {
    var z := x * s + y;
    assert z * z >= 0.0;
    assert z * z == x * x * (s * s) + 2.0 * s * (x * y) + y * y;
    assert x * x * (s * s) == x * x;
  }

  /** Vectors of length at most one have inner products in [-1, 1]. */
  lemma DotBound(u: seq<real>, v: seq<real>)
    requires |u| == |v| && Dot(u, u) <= 1.0 && Dot(v, v) <= 1.0
    ensures -1.0 <= Dot(u, v) <= 1.0
  {
    DotOfSums(u, v, 1.0);
    DotOfSums(u, v, -1.0);
  }

  /** Cosine similarity is what the documentation says it is: any two embeddings, near-zero ones included. */
  lemma SimilarityRange(u: seq<real>, v: seq<real>, norm: Norm)
    requires IsNorm(norm) && |u| == |v|
    ensures |L2Normalized(u, norm)| == |L2Normalized(v, norm)|
    ensures -1.0 <= Dot(L2Normalized(u, norm), L2Normalized(v, norm)) <= 1.0
  {
    NormalizedLength(u, norm);
    NormalizedLength(v, norm);
    DotBound(L2Normalized(u, norm), L2Normalized(v, norm));
  }

  /** The cutoff on the length is one on the squared length. */
  lemma CutoffSquared(n: real, square: real)
    requires n >= 0.0 && Times(n, n) == square
    ensures n > 0.000000000001 <==> square > 0.000000000000000000000001
  {
    SquareOrder(n, 0.000000000001);
  }

  lemma NormalizedPointsAlong(v: seq<real>, norm: Norm)
    requires IsNorm(norm)
    ensures PointsAlong(L2Normalized(v, norm), v, norm)
  {
    var n, u := norm(v), L2Normalized(v, norm);
    assert Times(n, n) == Dot(v, v);
    CutoffSquared(n, Dot(v, v));
    NormalizedLength(v, norm);
    if n > 0.000000000001 {
      forall i | 0 <= i < |v| ensures v[i] == Times(n, u[i]) {
        TimesBack(v[i], n, u[i]);
      }
    }
  }
}
