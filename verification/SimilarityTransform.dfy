/**
 Least-squares similarity estimation between two planar point lists
 (Umeyama, IEEE TPAMI 13(4), 1991), over exact reals.

 The singular value decomposition is a parameter: the results hold for every
 decomposition that meets `IsSvd`, so none depends on the signs or the order in
 which a particular routine returns its factors.
 */
module SimilarityTransform {
  import opened Outcomes
  import opened Geometry

  // ---------------------------------------------------------------- matrices

  datatype Mat2 = Mat2(m00: real, m01: real, m10: real, m11: real)

  const IDENTITY := Mat2(1.0, 0.0, 0.0, 1.0)

  function Mul(a: Mat2, b: Mat2): Mat2 {
    Mat2(a.m00 * b.m00 + a.m01 * b.m10, a.m00 * b.m01 + a.m01 * b.m11,
         a.m10 * b.m00 + a.m11 * b.m10, a.m10 * b.m01 + a.m11 * b.m11)
  }

  function Transpose(a: Mat2): Mat2 { Mat2(a.m00, a.m10, a.m01, a.m11) }

  function Det(a: Mat2): real { a.m00 * a.m11 - a.m01 * a.m10 }

  function Scaled(k: real, a: Mat2): Mat2 { Mat2(k * a.m00, k * a.m01, k * a.m10, k * a.m11) }

  function Diagonal(x: real, y: real): Mat2 { Mat2(x, 0.0, 0.0, y) }

  /** U diag(d0, d1) V^T, as a sum of two dyads. */
  function Sandwich(u: Mat2, d0: real, d1: real, v: Mat2): Mat2 {
    Mat2(d0 * (u.m00 * v.m00) + d1 * (u.m01 * v.m01), d0 * (u.m00 * v.m10) + d1 * (u.m01 * v.m11),
         d0 * (u.m10 * v.m00) + d1 * (u.m11 * v.m01), d0 * (u.m10 * v.m10) + d1 * (u.m11 * v.m11))
  }

  lemma SandwichIsProduct(u: Mat2, d0: real, d1: real, v: Mat2)
    ensures Sandwich(u, d0, d1, v) == Mul(Mul(u, Diagonal(d0, d1)), Transpose(v))
  {}

  /** The linear part of a similarity: multiplication by the complex number x + iy. */
  function Turn(x: real, y: real): Mat2 { Mat2(x, -y, y, x) }

  predicate Orthogonal(a: Mat2) { Mul(a, Transpose(a)) == IDENTITY }

  predicate IsUnit(x: real, y: real) { x * x + y * y == 1.0 }

  // --------------------------------------------------------------------- SVD

  datatype Svd = Svd(u: Mat2, s0: real, s1: real, v: Mat2)

  /** `d` is a full singular value decomposition of `m`. */
  ghost predicate IsSvd(m: Mat2, d: Svd) {
    && Orthogonal(d.u) && Orthogonal(d.v)
    && d.s0 >= d.s1 >= 0.0
    && m == Sandwich(d.u, d.s0, d.s1, d.v)
  }

  /** The entry W(1,1) of the reflection guard. */
  function GuardSign(d: Svd): real {
    if Det(d.u) * Det(d.v) < 0.0 then -1.0 else 1.0
  }

  /** U W V^T */
  function Rotation(d: Svd): Mat2 { Sandwich(d.u, 1.0, GuardSign(d), d.v) }

  /** The dot product of the singular values with the diagonal of W. */
  function ScaleNumerator(d: Svd): real { d.s0 + GuardSign(d) * d.s1 }

  lemma ZeroProduct(x: real, y: real)
    requires x * y == 0.0
    ensures x == 0.0 || y == 0.0
  {
    if x != 0.0 { assert y == x * y / x; }
  }

  /** The orthogonal matrix with unit first column (x, y) and orientation e. */
  function Oriented(x: real, y: real, e: real): Mat2 { Mat2(x, -(e * y), y, e * x) }

  lemma OrthogonalForm(a: Mat2) returns (e: real)
    requires Orthogonal(a)
    ensures a == Oriented(a.m00, a.m10, e) && IsUnit(a.m00, a.m10)
    ensures Det(a) == e && (e == 1.0 || e == -1.0)
  {
    e := Det(a);
    var p, q, r, s := a.m00, a.m01, a.m10, a.m11;
    assert p * p + q * q == 1.0 && r * r + s * s == 1.0 && p * r + q * s == 0.0;
    assert e * e == (p * p + q * q) * (r * r + s * s) - (p * r + q * s) * (p * r + q * s);
    ZeroProduct(e - 1.0, e + 1.0);
    assert e * r == (p * r + q * s) * s - q * (r * r + s * s);
    assert e * p == s * (p * p + q * q) - q * (p * r + q * s);
    assert q == -e * r && s == e * p;
    assert p * p + r * r == p * (e * s) + r * (-(e * q)) == e * e;
  }

  /** The entries of a product of oriented factors, by the products of first-column entries. */
  function Entries(p: real, q: real, r: real, s: real, w: real, d0: real, d1: real): Mat2 {
    Mat2(d0 * p + w * d1 * q, d0 * r - w * d1 * s, d0 * s - w * d1 * r, d0 * q + w * d1 * p)
  }

  lemma SandwichEntries(a: real, b: real, e: real, c: real, f: real, g: real, d0: real, d1: real)
    ensures Sandwich(Oriented(a, b, e), d0, d1, Oriented(c, f, g))
         == Entries(a * c, b * f, a * f, b * c, e * g, d0, d1)
  {}

  lemma EntriesTurn(p: real, q: real, r: real, s: real, w: real, d0: real, d1: real, m: Mat2)
    requires m == Entries(p, q, r, s, w, d0, d1)
    ensures Turn(m.m00 + m.m11, m.m10 - m.m01) == Scaled(d0 + w * d1, Turn(p + q, s - r))
  {}

  lemma GuardedEntries(p: real, q: real, r: real, s: real, w: real)
    requires w == 1.0 || w == -1.0
    ensures Entries(p, q, r, s, w, 1.0, w) == Turn(p + q, s - r)
  {}

  /** The product of two unit complex numbers is a unit complex number. */
  lemma UnitProduct(a: real, b: real, c: real, f: real)
    requires IsUnit(a, b) && IsUnit(c, f)
    ensures IsUnit(a * c + b * f, b * c - a * f)
  {
    calc {
      (a * c + b * f) * (a * c + b * f) + (b * c - a * f) * (b * c - a * f);
      (a * a + b * b) * (c * c) + (a * a + b * b) * (f * f);
      1.0 * (c * c) + 1.0 * (f * f);
    }
  }

  lemma UnitTurn(x: real, y: real)
    requires IsUnit(x, y)
    ensures Orthogonal(Turn(x, y)) && Det(Turn(x, y)) == 1.0
  {}

  /**
   Whatever decomposition is returned, the guarded product is a proper rotation, the
   scale numerator is non-negative, and their product is one fixed matrix: the
   rotation-like part of `m`.
   */
  lemma GuardedRotation(m: Mat2, d: Svd)
    requires IsSvd(m, d)
    ensures Orthogonal(Rotation(d)) && Det(Rotation(d)) == 1.0
    ensures ScaleNumerator(d) >= 0.0
    ensures Scaled(ScaleNumerator(d), Rotation(d)) == Turn(m.m00 + m.m11, m.m10 - m.m01)
  {
    var e := OrthogonalForm(d.u);
    var g := OrthogonalForm(d.v);
    var a, b, c, f, w := d.u.m00, d.u.m10, d.v.m00, d.v.m10, GuardSign(d);
    SandwichEntries(a, b, e, c, f, g, d.s0, d.s1);
    EntriesTurn(a * c, b * f, a * f, b * c, w, d.s0, d.s1, m);
    SandwichEntries(a, b, e, c, f, g, 1.0, w);
    GuardedEntries(a * c, b * f, a * f, b * c, w);
    UnitProduct(a, b, c, f);
    UnitTurn(a * c + b * f, b * c - a * f);
  }

  // ------------------------------------------------------------ point lists

  function Add(p: Point, q: Point): Point { Point(p.x + q.x, p.y + q.y) }

  function Sub(p: Point, q: Point): Point { Point(p.x - q.x, p.y - q.y) }

  function Stretch(k: real, p: Point): Point { Point(p.x * k, p.y * k) }

  function AddMat(a: Mat2, b: Mat2): Mat2 { Mat2(a.m00 + b.m00, a.m01 + b.m01, a.m10 + b.m10, a.m11 + b.m11) }

  /** d s^T */
  function Dyad(d: Point, s: Point): Mat2 { Mat2(d.x * s.x, d.x * s.y, d.y * s.x, d.y * s.y) }

  /** `S.colwise().sum()` */
  function Sum(ps: seq<Point>): Point {
    if ps == [] then Point(0.0, 0.0) else Add(ps[0], Sum(ps[1..]))
  }

  /** `S.colwise().mean()` */
  function Mean(ps: seq<Point>): Point
    requires ps != []
  {
    Stretch(1.0 / |ps| as real, Sum(ps))
  }

  /** `S.rowwise() - c` */
  function Center(ps: seq<Point>, c: Point): seq<Point> {
    seq(|ps|, i requires 0 <= i < |ps| => Sub(ps[i], c))
  }

  /** `D.transpose() * S` */
  function CrossSum(d: seq<Point>, s: seq<Point>): Mat2
    requires |d| == |s|
  {
    if d == [] then Mat2(0.0, 0.0, 0.0, 0.0) else AddMat(Dyad(d[0], s[0]), CrossSum(d[1..], s[1..]))
  }

  /** `S.array().square().rowwise().sum()`, added up. */
  function SquareSum(ps: seq<Point>): (r: real)
    ensures r >= 0.0
  {
    if ps == [] then 0.0 else ps[0].x * ps[0].x + ps[0].y * ps[0].y + SquareSum(ps[1..])
  }

  function Covariance(src: seq<Point>, dst: seq<Point>): Mat2
    requires |src| == |dst| > 0
  {
    Scaled(1.0 / |src| as real, CrossSum(Center(dst, Mean(dst)), Center(src, Mean(src))))
  }

  function Variance(src: seq<Point>): real
    requires src != []
  {
    SquareSum(Center(src, Mean(src))) / |src| as real
  }

  ghost predicate Coincident(src: seq<Point>) {
    forall i, j :: 0 <= i < |src| && 0 <= j < |src| ==> src[i] == src[j]
  }

  // ------------------------------------------------------------ similarities

  /** A 2x3 matrix [A | t]. */
  datatype Affine = Affine(linear: Mat2, t: Point) {
    function Apply(p: Point): Point {
      Point(linear.m00 * p.x + linear.m01 * p.y + t.x, linear.m10 * p.x + linear.m11 * p.y + t.y)
    }
  }

  /** Every uniform scale, rotation and translation: linear part [[a, -b], [b, a]]. */
  function Similarity(a: real, b: real, tx: real, ty: real): Affine { Affine(Turn(a, b), Point(tx, ty)) }

  function SquaredDistance(p: Point, q: Point): (r: real)
    ensures r >= 0.0
  {
    (p.x - q.x) * (p.x - q.x) + (p.y - q.y) * (p.y - q.y)
  }

  /** The least-squares objective. */
  function Residual(src: seq<Point>, dst: seq<Point>, m: Affine): (r: real)
    requires |src| == |dst|
    ensures r >= 0.0
  {
    if src == [] then 0.0 else SquaredDistance(m.Apply(src[0]), dst[0]) + Residual(src[1..], dst[1..], m)
  }

  /**
   The linear part of the estimate without a decomposition: the rotation-like part of the
   covariance, or the documented fallback when the source has no spread.
   */
  function LinearPart(cov: Mat2, v: real): Mat2 {
    if v > 0.0 then Turn((cov.m00 + cov.m11) / v, (cov.m10 - cov.m01) / v) else IDENTITY
  }

  /** The translation that makes a linear part send one centroid to the other. */
  function CentroidFit(linear: Mat2, cs: Point, cd: Point): Affine {
    var x, y := linear.m00 * cs.x + linear.m01 * cs.y, linear.m10 * cs.x + linear.m11 * cs.y;
    Affine(linear, Point(cd.x - x, cd.y - y))
  }

  function Estimate(src: seq<Point>, dst: seq<Point>): Affine
    requires |src| == |dst| > 0
  {
    CentroidFit(LinearPart(Covariance(src, dst), Variance(src)), Mean(src), Mean(dst))
  }

  // ------------------------------------------------- expanding the objective

  /** Moments of a list of point pairs: what the objective depends on. */
  datatype Moments = Moments(n: real, s: Point, d: Point, ss: real, dd: real, p: real, q: real)

  function PairMoments(s: Point, d: Point): Moments {
    Moments(1.0, s, d, s.x * s.x + s.y * s.y, d.x * d.x + d.y * d.y, d.x * s.x + d.y * s.y, d.y * s.x - d.x * s.y)
  }

  function MomentsOf(src: seq<Point>, dst: seq<Point>): Moments
    requires |src| == |dst|
  {
    var c := CrossSum(dst, src);
    Moments(|src| as real, Sum(src), Sum(dst), SquareSum(src), SquareSum(dst), c.m00 + c.m11, c.m10 - c.m01)
  }

  /** The objective of one list, linear in its moments for fixed coefficients. */
  function Weigh(m: Moments, k: real, a: real, b: real, n: real, sx: real, sy: real, tx: real, ty: real): real {
    k * m.ss - 2.0 * (a * m.p + b * m.q) + m.dd + n * m.n + sx * m.s.x + sy * m.s.y - 2.0 * (tx * m.d.x + ty * m.d.y)
  }

  function Objective(m: Moments, a: real, b: real, tx: real, ty: real): real {
    Weigh(m, a * a + b * b, a, b, tx * tx + ty * ty, 2.0 * (a * tx + b * ty), 2.0 * (a * ty - b * tx), tx, ty)
  }

  lemma PointExpansion(s: Point, d: Point, a: real, b: real, tx: real, ty: real)
    ensures SquaredDistance(Similarity(a, b, tx, ty).Apply(s), d) == Objective(PairMoments(s, d), a, b, tx, ty)
  {
    PlainExpansion(s.x, s.y, d.x, d.y, a, b, tx, ty);
  }

  lemma PlainExpansion(x: real, y: real, u: real, v: real, a: real, b: real, tx: real, ty: real)
    ensures (a * x + -b * y + tx - u) * (a * x + -b * y + tx - u) + (b * x + a * y + ty - v) * (b * x + a * y + ty - v)
      == (a * a + b * b) * (x * x + y * y) - 2.0 * (a * (u * x + v * y) + b * (v * x - u * y)) + (u * u + v * v)
         + (tx * tx + ty * ty) * 1.0 + 2.0 * (a * tx + b * ty) * x + 2.0 * (a * ty - b * tx) * y
         - 2.0 * (tx * u + ty * v)
  {}

  lemma WeighSum(m: Moments, u: Moments, v: Moments,
                 k: real, a: real, b: real, n: real, sx: real, sy: real, tx: real, ty: real)
    requires m.n == u.n + v.n && m.ss == u.ss + v.ss && m.dd == u.dd + v.dd && m.p == u.p + v.p && m.q == u.q + v.q
    requires m.s == Point(u.s.x + v.s.x, u.s.y + v.s.y) && m.d == Point(u.d.x + v.d.x, u.d.y + v.d.y)
    ensures Weigh(m, k, a, b, n, sx, sy, tx, ty)
      == Weigh(u, k, a, b, n, sx, sy, tx, ty) + Weigh(v, k, a, b, n, sx, sy, tx, ty)
  {}

  lemma {:induction false} ResidualExpansion(src: seq<Point>, dst: seq<Point>, a: real, b: real, tx: real, ty: real)
    requires |src| == |dst|
    ensures Residual(src, dst, Similarity(a, b, tx, ty)) == Objective(MomentsOf(src, dst), a, b, tx, ty)
  {
    if src != [] {
      ResidualExpansion(src[1..], dst[1..], a, b, tx, ty);
      PointExpansion(src[0], dst[0], a, b, tx, ty);
      WeighSum(MomentsOf(src, dst), PairMoments(src[0], dst[0]), MomentsOf(src[1..], dst[1..]),
               a * a + b * b, a, b, tx * tx + ty * ty, 2.0 * (a * tx + b * ty), 2.0 * (a * ty - b * tx), tx, ty);
    }
  }

  // --------------------------------------------------------------- centering

  lemma CenterTail(ps: seq<Point>, c: Point)
    requires ps != []
    ensures Center(ps, c)[0] == Sub(ps[0], c)
    ensures Center(ps, c)[1..] == Center(ps[1..], c)
  {}

  lemma {:induction false} CenterSum(ps: seq<Point>, c: Point)
    ensures Sum(Center(ps, c)) == Sub(Sum(ps), Stretch(|ps| as real, c))
  {
    if ps != [] {
      CenterTail(ps, c);
      CenterSum(ps[1..], c);
      CenterStep(ps[0], c, Sum(ps[1..]), |ps[1..]| as real);
    }
  }

  lemma CenterStep(p: Point, c: Point, r: Point, n: real)
    ensures Add(Sub(p, c), Sub(r, Stretch(n, c))) == Sub(Add(p, r), Stretch(n + 1.0, c))
  {}

  lemma StretchBack(n: real, p: Point)
    requires n > 0.0
    ensures Stretch(n, Stretch(1.0 / n, p)) == p && Stretch(1.0 / n, Stretch(n, p)) == p
  {
    assert p.x * (1.0 / n) * n == p.x * (1.0 / n * n);
    assert p.y * (1.0 / n) * n == p.y * (1.0 / n * n);
  }

  lemma MeanCenterSum(ps: seq<Point>)
    requires ps != []
    ensures Sum(Center(ps, Mean(ps))) == Point(0.0, 0.0)
  {
    CenterSum(ps, Mean(ps));
    StretchBack(|ps| as real, Sum(ps));
  }

  /** Where a similarity sends the centroid `cs`, relative to `cd`. */
  function CentroidGap(a: real, b: real, tx: real, ty: real, cs: Point, cd: Point): Point {
    Sub(Similarity(a, b, tx, ty).Apply(cs), cd)
  }

  lemma {:induction false} ResidualShift(src: seq<Point>, dst: seq<Point>, cs: Point, cd: Point,
                                         a: real, b: real, tx: real, ty: real)
    requires |src| == |dst|
    ensures var g := CentroidGap(a, b, tx, ty, cs, cd);
            && Residual(src, dst, Similarity(a, b, tx, ty))
               == Residual(Center(src, cs), Center(dst, cd), Similarity(a, b, g.x, g.y))
  {
    if src != [] {
      CenterTail(src, cs);
      CenterTail(dst, cd);
      ResidualShift(src[1..], dst[1..], cs, cd, a, b, tx, ty);
      var g := CentroidGap(a, b, tx, ty, cs, cd);
      PointShift(src[0], dst[0], cs, cd, a, b, tx, ty, g);
    }
  }

  lemma PointShift(s: Point, d: Point, cs: Point, cd: Point, a: real, b: real, tx: real, ty: real, g: Point)
    requires g == CentroidGap(a, b, tx, ty, cs, cd)
    ensures SquaredDistance(Similarity(a, b, tx, ty).Apply(s), d)
         == SquaredDistance(Similarity(a, b, g.x, g.y).Apply(Sub(s, cs)), Sub(d, cd))
  {
    var u, v := Similarity(a, b, tx, ty).Apply(s), Similarity(a, b, g.x, g.y).Apply(Sub(s, cs));
    assert u.x - d.x == v.x - (d.x - cd.x);
    assert u.y - d.y == v.y - (d.y - cd.y);
  }

  /** A list without spread has no covariance with anything. */
  lemma {:induction false} NoSpread(d: seq<Point>, s: seq<Point>)
    requires |d| == |s|
    requires SquareSum(s) == 0.0
    ensures CrossSum(d, s) == Mat2(0.0, 0.0, 0.0, 0.0)
    ensures forall i :: 0 <= i < |s| ==> s[i] == Point(0.0, 0.0)
  {
    if s != [] {
      assert s[0].x * s[0].x >= 0.0 && s[0].y * s[0].y >= 0.0;
      ZeroProduct(s[0].x, s[0].x);
      ZeroProduct(s[0].y, s[0].y);
      NoSpread(d[1..], s[1..]);
      assert forall i :: 0 < i < |s| ==> s[i] == s[1..][i - 1];
    }
  }

  // ------------------------------------------------------------ main results

  /** Spread of the source around its centroid, not divided by the count. */
  function Spread(src: seq<Point>): (r: real)
    requires src != []
    ensures r >= 0.0
  {
    SquareSum(Center(src, Mean(src)))
  }

  /** The linear part of the estimate solves the normal equations, fallback included. */
  lemma NormalEquations(c: Mat2, m: Moments, n: real)
    requires n > 0.0 && m.ss >= 0.0 && m.p == c.m00 + c.m11 && m.q == c.m10 - c.m01
    requires m.ss == 0.0 ==> c == Mat2(0.0, 0.0, 0.0, 0.0)
    ensures var e := LinearPart(Scaled(1.0 / n, c), m.ss / n);
            e == Turn(e.m00, e.m10) && Balanced(m, e.m00, e.m10)
  {
    if m.ss > 0.0 {
      QuotientOfAverages(c.m00, c.m11, m.ss, n);
      QuotientOfAverages(c.m10, -c.m01, m.ss, n);
    }
  }

  lemma QuotientOfAverages(x: real, y: real, v: real, n: real)
    requires v > 0.0 && n > 0.0
    ensures v / n > 0.0 && (1.0 / n * x + 1.0 / n * y) / (v / n) * v == x + y
  {
    assert 1.0 / n * x + 1.0 / n * y == (x + y) / n;
    var z := (x + y) / n / (v / n);
    assert z * (v / n) == (x + y) / n;
    assert z * (v / n) * n == z * v;
  }

  function Square(x: real): (r: real)
    ensures r >= 0.0 && (r == 0.0 ==> x == 0.0)
  {
    if x * x == 0.0 then ZeroProduct(x, x); x * x else x * x
  }

  /** What a similarity pays for its linear part and for the gap it leaves between the centroids. */
  function Price(spread: real, n: real, a: real, b: real, l: Mat2, g: Point): real {
    spread * (Square(a - l.m00) + Square(b - l.m10)) + n * (Square(g.x) + Square(g.y))
  }

  /** The normal equations for the linear part [[a, -b], [b, a]]. */
  predicate Balanced(m: Moments, a: real, b: real) { m.p == a * m.ss && m.q == b * m.ss }

  /** The objective of centered lists, with p and q eliminated by the normal equations. */
  lemma CompleteSquare(m: Moments, a: real, b: real, g: Point, l: Mat2)
    requires m.s == Point(0.0, 0.0) && m.d == Point(0.0, 0.0)
    requires Balanced(m, l.m00, l.m10)
    ensures Objective(m, a, b, g.x, g.y) == Objective(m, l.m00, l.m10, 0.0, 0.0) + Price(m.ss, m.n, a, b, l, g)
  {}

  /** `e` solves the normal equations of the centered lists and joins the centroids. */
  ghost predicate Solves(src: seq<Point>, dst: seq<Point>, e: Affine)
    requires |src| == |dst| > 0
  {
    && e == CentroidFit(Turn(e.linear.m00, e.linear.m10), Mean(src), Mean(dst))
    && Balanced(MomentsOf(Center(src, Mean(src)), Center(dst, Mean(dst))), e.linear.m00, e.linear.m10)
  }

  lemma EstimateSolves(src: seq<Point>, dst: seq<Point>)
    requires |src| == |dst| > 0
    ensures Solves(src, dst, Estimate(src, dst))
  {
    var sc, dc := Center(src, Mean(src)), Center(dst, Mean(dst));
    if SquareSum(sc) == 0.0 { NoSpread(dc, sc); }
    NormalEquations(CrossSum(dc, sc), MomentsOf(sc, dc), |src| as real);
  }

  lemma FitGap(a: real, b: real, cs: Point, cd: Point, e: Affine)
    requires e == CentroidFit(Turn(a, b), cs, cd)
    ensures e == Similarity(a, b, e.t.x, e.t.y)
    ensures CentroidGap(a, b, e.t.x, e.t.y, cs, cd) == Point(0.0, 0.0)
  {}

  /** The excess of one similarity over a solution, for lists whose centroids are the origin. */
  lemma CenteredExcess(sc: seq<Point>, dc: seq<Point>, m: Moments, a: real, b: real, g: Point, l: Mat2)
    requires |sc| == |dc| && m == MomentsOf(sc, dc)
    requires m.s == Point(0.0, 0.0) && m.d == Point(0.0, 0.0)
    requires Balanced(m, l.m00, l.m10)
    ensures Residual(sc, dc, Similarity(a, b, g.x, g.y))
         == Residual(sc, dc, Similarity(l.m00, l.m10, 0.0, 0.0)) + Price(m.ss, m.n, a, b, l, g)
  {
    ResidualExpansion(sc, dc, a, b, g.x, g.y);
    ResidualExpansion(sc, dc, l.m00, l.m10, 0.0, 0.0);
    CompleteSquare(m, a, b, g, l);
  }

  /** Both objectives, moved to lists whose centroids are the origin. */
  lemma CenteredResiduals(src: seq<Point>, dst: seq<Point>, cs: Point, cd: Point, e: Affine,
                          a: real, b: real, tx: real, ty: real, g: Point)
    requires |src| == |dst|
    requires e == CentroidFit(Turn(e.linear.m00, e.linear.m10), cs, cd)
    requires g == CentroidGap(a, b, tx, ty, cs, cd)
    ensures Residual(src, dst, Similarity(a, b, tx, ty))
      == Residual(Center(src, cs), Center(dst, cd), Similarity(a, b, g.x, g.y))
    ensures Residual(src, dst, e)
      == Residual(Center(src, cs), Center(dst, cd), Similarity(e.linear.m00, e.linear.m10, 0.0, 0.0))
  {
    FitGap(e.linear.m00, e.linear.m10, cs, cd, e);
    ResidualShift(src, dst, cs, cd, a, b, tx, ty);
    ResidualShift(src, dst, cs, cd, e.linear.m00, e.linear.m10, e.t.x, e.t.y);
  }

  /** Moments of the two lists, each taken around its own centroid. */
  function CenteredMoments(src: seq<Point>, dst: seq<Point>): (m: Moments)
    requires |src| == |dst| > 0
    ensures m.s == Point(0.0, 0.0) && m.d == Point(0.0, 0.0) && m.ss == Spread(src) && m.n == |src| as real
  {
    MeanCenterSum(src);
    MeanCenterSum(dst);
    MomentsOf(Center(src, Mean(src)), Center(dst, Mean(dst)))
  }

  /**
   The exact price of any other similarity over a solution: the spread of the source times
   the squared distance of the linear parts, plus n times the squared distance the
   centroids are left apart.
   */
  lemma Excess(src: seq<Point>, dst: seq<Point>, e: Affine, a: real, b: real, tx: real, ty: real)
    requires |src| == |dst| > 0
    requires Solves(src, dst, e)
    ensures var g := CentroidGap(a, b, tx, ty, Mean(src), Mean(dst));
            && Residual(src, dst, Similarity(a, b, tx, ty))
               == Residual(src, dst, e)
                  + Price(Spread(src), |src| as real, a, b, e.linear, g)
  {
    var g := CentroidGap(a, b, tx, ty, Mean(src), Mean(dst));
    CenteredResiduals(src, dst, Mean(src), Mean(dst), e, a, b, tx, ty, g);
    CenteredExcess(Center(src, Mean(src)), Center(dst, Mean(dst)), CenteredMoments(src, dst),
                   a, b, g, e.linear);
  }

  lemma PriceSign(spread: real, n: real, a: real, b: real, l: Mat2, g: Point)
    requires spread >= 0.0 && n > 0.0
    ensures Price(spread, n, a, b, l, g) >= 0.0
    ensures Price(spread, n, a, b, l, g) == 0.0
       <==> g == Point(0.0, 0.0) && (spread == 0.0 || (a == l.m00 && b == l.m10))
  {
    var x, y := Square(a - l.m00) + Square(b - l.m10), Square(g.x) + Square(g.y);
    assert spread * x >= 0.0 && n * y >= 0.0;
    if spread * x + n * y == 0.0 {
      ZeroProduct(spread, x);
      ZeroProduct(n, y);
    }
  }

  /**
   Least squares, for every list of at least one pair and every similarity, the fallback
   included: no residual is below that of the estimate, and exactly the similarities that
   join the centroids with the same linear part (any linear part, when the source has no
   spread) reach it.
   */
  lemma LeastSquares(src: seq<Point>, dst: seq<Point>, a: real, b: real, tx: real, ty: real)
    requires |src| == |dst| > 0
    ensures var e := Estimate(src, dst);
            && Residual(src, dst, e) <= Residual(src, dst, Similarity(a, b, tx, ty))
            && (Residual(src, dst, e) == Residual(src, dst, Similarity(a, b, tx, ty)) <==>
                && Similarity(a, b, tx, ty).Apply(Mean(src)) == Mean(dst)
                && (Turn(a, b) == e.linear || Spread(src) == 0.0))
  {
    var e := Estimate(src, dst);
    var g := CentroidGap(a, b, tx, ty, Mean(src), Mean(dst));
    EstimateSolves(src, dst);
    Excess(src, dst, e, a, b, tx, ty);
    PriceSign(Spread(src), |src| as real, a, b, e.linear, g);
  }

  lemma {:induction false} ConstantSum(ps: seq<Point>, c: Point)
    requires forall i :: 0 <= i < |ps| ==> ps[i] == c
    ensures Sum(ps) == Stretch(|ps| as real, c)
    ensures SquareSum(Center(ps, c)) == 0.0
  {
    if ps != [] {
      CenterTail(ps, c);
      ConstantSum(ps[1..], c);
      ConstantStep(c, |ps[1..]| as real);
    }
  }

  lemma ConstantStep(c: Point, n: real)
    ensures Add(c, Stretch(n, c)) == Stretch(n + 1.0, c)
  {}

  /** The degenerate branch is taken exactly when all source points coincide. */
  lemma SpreadZero(src: seq<Point>)
    requires src != []
    ensures Spread(src) == 0.0 <==> Coincident(src)
    ensures Variance(src) > 0.0 <==> !Coincident(src)
  {
    if Coincident(src) { CoincidentSpread(src); }
    if Spread(src) == 0.0 { SpreadlessPoints(src); }
  }

  lemma CoincidentSpread(src: seq<Point>)
    requires src != [] && Coincident(src)
    ensures Spread(src) == 0.0
  {
    ConstantSum(src, src[0]);
    StretchBack(|src| as real, src[0]);
    assert Mean(src) == src[0];
  }

  lemma SpreadlessPoints(src: seq<Point>)
    requires src != [] && Spread(src) == 0.0
    ensures Coincident(src)
  {
    NoSpread(Center(src, Mean(src)), Center(src, Mean(src)));
    forall i | 0 <= i < |src| ensures src[i] == Mean(src) {
      assert Center(src, Mean(src))[i] == Point(0.0, 0.0);
    }
  }

  lemma {:induction false} ExactResidual(src: seq<Point>, dst: seq<Point>, m: Affine)
    requires |src| == |dst|
    requires forall i :: 0 <= i < |src| ==> dst[i] == m.Apply(src[i])
    ensures Residual(src, dst, m) == 0.0
  {
    if src != [] {
      ExactResidual(src[1..], dst[1..], m);
    }
  }

  lemma FitUnique(m: Affine, cs: Point, cd: Point)
    requires m.Apply(cs) == cd
    ensures m == CentroidFit(m.linear, cs, cd)
  {}

  /**
   A target that is an exact similarity image of a source with spread gives that
   similarity back, whatever its scale (zero included).
   */
  lemma ExactRecovery(src: seq<Point>, dst: seq<Point>, a: real, b: real, tx: real, ty: real)
    requires |src| == |dst| > 0 && !Coincident(src)
    requires forall i :: 0 <= i < |src| ==> dst[i] == Similarity(a, b, tx, ty).Apply(src[i])
    ensures Estimate(src, dst) == Similarity(a, b, tx, ty)
  {
    ExactResidual(src, dst, Similarity(a, b, tx, ty));
    LeastSquares(src, dst, a, b, tx, ty);
    SpreadZero(src);
    FitUnique(Similarity(a, b, tx, ty), Mean(src), Mean(dst));
    EstimateFits(src, dst);
  }

  lemma EstimateFits(src: seq<Point>, dst: seq<Point>)
    requires |src| == |dst| > 0
    ensures Estimate(src, dst) == CentroidFit(Estimate(src, dst).linear, Mean(src), Mean(dst))
  {}

  /** The fallback: no scaling and no rotation, and the translation between the two centroids. */
  lemma FallbackTranslates(src: seq<Point>, dst: seq<Point>)
    requires |src| == |dst| > 0 && Coincident(src)
    ensures Estimate(src, dst).linear == Mat2(1.0, 0.0, 0.0, 1.0)
    ensures Estimate(src, dst).Apply(src[0]) == Mean(dst)
  {
    SpreadZero(src);
    ConstantSum(src, src[0]);
    StretchBack(|src| as real, src[0]);
    assert Mean(src) == src[0];
  }

  // ---------------------------------------------------- scaling the template

  function StretchAll(k: real, ps: seq<Point>): seq<Point> {
    seq(|ps|, i requires 0 <= i < |ps| => Stretch(k, ps[i]))
  }

  lemma StretchTail(k: real, ps: seq<Point>)
    requires ps != []
    ensures StretchAll(k, ps)[0] == Stretch(k, ps[0])
    ensures StretchAll(k, ps)[1..] == StretchAll(k, ps[1..])
  {}

  /** Stretching distributes over what the estimator computes from the target. */
  lemma StretchLaws(k: real, h: real, p: Point, q: Point)
    ensures Add(Stretch(k, p), Stretch(k, q)) == Stretch(k, Add(p, q))
    ensures Sub(Stretch(k, p), Stretch(k, q)) == Stretch(k, Sub(p, q))
    ensures Stretch(h, Stretch(k, p)) == Stretch(k, Stretch(h, p))
  {}

  lemma ScaledDyad(k: real, d: Point, s: Point)
    ensures Dyad(Stretch(k, d), s) == Scaled(k, Dyad(d, s))
  {}

  lemma ScaledSum(k: real, a: Mat2, b: Mat2)
    ensures AddMat(Scaled(k, a), Scaled(k, b)) == Scaled(k, AddMat(a, b))
  {
    Distribute(k, a.m00, b.m00);
    Distribute(k, a.m01, b.m01);
    Distribute(k, a.m10, b.m10);
    Distribute(k, a.m11, b.m11);
  }

  lemma Distribute(k: real, x: real, y: real)
    ensures k * x + k * y == k * (x + y)
  {}

  lemma ScaledTwice(k: real, h: real, c: Mat2)
    ensures Scaled(h, Scaled(k, c)) == Scaled(k, Scaled(h, c))
  {
    calc {
      Scaled(h, Scaled(k, c));
      Mat2(h * (k * c.m00), h * (k * c.m01), h * (k * c.m10), h * (k * c.m11));
      { SwapFactors(h, k, c.m00); SwapFactors(h, k, c.m01); SwapFactors(h, k, c.m10); SwapFactors(h, k, c.m11); }
      Mat2(k * (h * c.m00), k * (h * c.m01), k * (h * c.m10), k * (h * c.m11));
      Scaled(k, Scaled(h, c));
    }
  }

  lemma SwapFactors(h: real, k: real, x: real)
    ensures h * (k * x) == k * (h * x)
  {}

  lemma {:induction false} StretchSum(k: real, ps: seq<Point>)
    ensures Sum(StretchAll(k, ps)) == Stretch(k, Sum(ps))
  {
    if ps != [] {
      StretchTail(k, ps);
      StretchSum(k, ps[1..]);
      StretchLaws(k, 1.0, ps[0], Sum(ps[1..]));
    }
  }

  lemma {:induction false} StretchCrossSum(k: real, d: seq<Point>, s: seq<Point>)
    requires |d| == |s|
    ensures CrossSum(StretchAll(k, d), s) == Scaled(k, CrossSum(d, s))
  {
    if d != [] {
      StretchTail(k, d);
      StretchCrossSum(k, d[1..], s[1..]);
      ScaledDyad(k, d[0], s[0]);
      ScaledSum(k, Dyad(d[0], s[0]), CrossSum(d[1..], s[1..]));
    }
  }

  lemma StretchMean(k: real, ps: seq<Point>)
    requires ps != []
    ensures Mean(StretchAll(k, ps)) == Stretch(k, Mean(ps))
  {
    StretchSum(k, ps);
    StretchLaws(k, 1.0 / |ps| as real, Sum(ps), Sum(ps));
  }

  lemma StretchCenter(k: real, ps: seq<Point>, c: Point)
    ensures Center(StretchAll(k, ps), Stretch(k, c)) == StretchAll(k, Center(ps, c))
  {
    forall i | 0 <= i < |ps| ensures Center(StretchAll(k, ps), Stretch(k, c))[i] == StretchAll(k, Center(ps, c))[i] {
      StretchLaws(k, 1.0, ps[i], c);
    }
  }

  /** k times a 2x3 matrix. */
  function Times(k: real, m: Affine): Affine { Affine(Scaled(k, m.linear), Stretch(k, m.t)) }

  lemma TimesOne(m: Affine)
    ensures Times(1.0, m) == m
  {}

  lemma StretchCovariance(k: real, src: seq<Point>, dst: seq<Point>)
    requires |src| == |dst| > 0
    ensures Covariance(src, StretchAll(k, dst)) == Scaled(k, Covariance(src, dst))
  {
    StretchMean(k, dst);
    StretchCenter(k, dst, Mean(dst));
    StretchCrossSum(k, Center(dst, Mean(dst)), Center(src, Mean(src)));
    ScaledTwice(k, 1.0 / |src| as real, CrossSum(Center(dst, Mean(dst)), Center(src, Mean(src))));
  }

  lemma ScaledLinearPart(k: real, cov: Mat2, v: real)
    requires v > 0.0
    ensures LinearPart(Scaled(k, cov), v) == Scaled(k, LinearPart(cov, v))
  {
    Distribute(k, cov.m00, cov.m11);
    Distribute(k, cov.m10, -cov.m01);
    ScaledOver(k, cov.m00 + cov.m11, v);
    ScaledOver(k, cov.m10 - cov.m01, v);
  }

  lemma ScaledOver(k: real, p: real, v: real)
    requires v > 0.0
    ensures k * p / v == k * (p / v) && -(k * (p / v)) == k * -(p / v)
  {}

  lemma ScaledFit(k: real, l: Mat2, cs: Point, cd: Point)
    ensures CentroidFit(Scaled(k, l), cs, Stretch(k, cd)) == Times(k, CentroidFit(l, cs, cd))
  {
    ScaledOffset(k, cd.x, l.m00, l.m01, cs.x, cs.y);
    ScaledOffset(k, cd.y, l.m10, l.m11, cs.x, cs.y);
  }

  lemma ScaledOffset(k: real, c: real, a: real, b: real, x: real, y: real)
    ensures c * k - (k * a * x + k * b * y) == (c - (a * x + b * y)) * k
  {
    assert k * a * x == k * (a * x) && k * b * y == k * (b * y);
    Distribute(k, a * x, b * y);
    assert (c - (a * x + b * y)) * k == c * k - k * (a * x + b * y);
  }

  /**
   Scaling the target by k scales the whole matrix by k exactly when the source has
   spread: the fallback keeps scale 1, so it follows only the trivial k = 1.
   */
  lemma TargetScaling(k: real, src: seq<Point>, dst: seq<Point>)
    requires |src| == |dst| > 0
    ensures Estimate(src, StretchAll(k, dst)) == Times(k, Estimate(src, dst)) <==> (k == 1.0 || !Coincident(src))
  {
    SpreadZero(src);
    StretchMean(k, dst);
    if Coincident(src) {
      if k == 1.0 {
        assert StretchAll(k, dst) == dst;
        TimesOne(Estimate(src, dst));
      }
      assert Estimate(src, dst).linear == IDENTITY && Estimate(src, StretchAll(k, dst)).linear == IDENTITY;
    } else {
      StretchCovariance(k, src, dst);
      ScaledLinearPart(k, Covariance(src, dst), Variance(src));
      ScaledFit(k, LinearPart(Covariance(src, dst), Variance(src)), Mean(src), Mean(dst));
    }
  }

  // ----------------------------------------------------------- the estimator

  /** `cv::Mat` 2x3 read back as a transform. */
  function Read(m: array2<real>): Affine
    requires m.Length0 == 2 && m.Length1 == 3
    reads m
  {
    Affine(Mat2(m[0, 0], m[0, 1], m[1, 0], m[1, 1]), Point(m[0, 2], m[1, 2]))
  }

  /** The branch on the variance, with a decomposition in hand, is the closed form. */
  lemma FromDecomposition(cov: Mat2, v: real, d: Svd)
    requires IsSvd(cov, d)
    ensures v > 0.0 ==> Scaled(ScaleNumerator(d) / v, Rotation(d)) == LinearPart(cov, v)
  {
    if v > 0.0 {
      GuardedRotation(cov, d);
      ScaledQuotient(ScaleNumerator(d), v, Rotation(d), cov.m00 + cov.m11, cov.m10 - cov.m01);
    }
  }

  lemma ScaledQuotient(x: real, v: real, r: Mat2, p: real, q: real)
    requires v > 0.0 && Scaled(x, r) == Turn(p, q)
    ensures Scaled(x / v, r) == Turn(p / v, q / v)
  {
    assert x / v * r.m00 == x * r.m00 / v;
    assert x / v * r.m01 == x * r.m01 / v;
    assert x / v * r.m10 == x * r.m10 / v;
    assert x / v * r.m11 == x * r.m11 / v;
    assert -q / v == -(q / v);
  }

  /** No similarity has a smaller residual than `m`. */
  ghost predicate IsLeastSquares(src: seq<Point>, dst: seq<Point>, m: Affine)
    requires |src| == |dst|
  {
    forall a, b, tx, ty :: Residual(src, dst, m) <= Residual(src, dst, Similarity(a, b, tx, ty))
  }

  lemma EstimateIsLeastSquares(src: seq<Point>, dst: seq<Point>)
    requires |src| == |dst| > 0
    ensures IsLeastSquares(src, dst, Estimate(src, dst))
  {
    forall a, b, tx, ty
      ensures Residual(src, dst, Estimate(src, dst)) <= Residual(src, dst, Similarity(a, b, tx, ty))
    {
      LeastSquares(src, dst, a, b, tx, ty);
    }
  }

  /** The reflection guard, the scale and the rotation, with their fallback. */
  method ScaledRotation(cov: Mat2, srcVar: real, svd: Svd) returns (scale: real, R: Mat2)
    requires IsSvd(cov, svd)
    ensures scale >= 0.0 && Orthogonal(R) && Det(R) == 1.0
    ensures Scaled(scale, R) == LinearPart(cov, srcVar)
  {
    var W := new real[2, 2]((i, j) => if i == j then 1.0 else 0.0);
    if Det(svd.u) * Det(svd.v) < 0.0 {
      W[1, 1] := -1.0;
    }
    var w := W[1, 1];
    assert w == GuardSign(svd) && W[0, 0] == 1.0 && W[0, 1] == 0.0 && W[1, 0] == 0.0;
    GuardedRotation(cov, svd);
    FromDecomposition(cov, srcVar, svd);
    if srcVar > 0.0 {
      scale := (svd.s0 * W[0, 0] + svd.s1 * W[1, 1]) / srcVar;
      R := Mul(Mul(svd.u, Mat2(W[0, 0], W[0, 1], W[1, 0], W[1, 1])), Transpose(svd.v));
      SandwichIsProduct(svd.u, 1.0, w, svd.v);
    } else {
      scale, R := 1.0, IDENTITY;
    }
  }

  /** The 2x3 matrix, cell by cell. */
  method WriteMatrix(scale: real, R: Mat2, t: Point) returns (M: array2<real>)
    ensures fresh(M) && M.Length0 == 2 && M.Length1 == 3
    ensures Read(M) == Affine(Scaled(scale, R), t)
  {
    M := new real[2, 3];
    M[0, 0] := scale * R.m00;
    M[0, 1] := scale * R.m01;
    M[0, 2] := t.x;
    M[1, 0] := scale * R.m10;
    M[1, 1] := scale * R.m11;
    M[1, 2] := t.y;
  }

  /**
   `estimate_similarity_transform`: whatever valid decomposition `jacobi` returns, the
   matrix is the least-squares similarity.
   */
  method EstimateSimilarityTransform(src: seq<Point>, dst: seq<Point>, jacobi: Mat2 -> Svd)
    returns (r: Result<array2<real>>)
    requires |src| == |dst|
    requires forall m :: IsSvd(m, jacobi(m))
    ensures r.Err? <==> |src| < 2
    ensures r.Err? ==> r.error == InvalidArgument
    ensures r.Ok? ==>
      && fresh(r.value) && r.value.Length0 == 2 && r.value.Length1 == 3
      && Read(r.value) == Estimate(src, dst)
      && IsLeastSquares(src, dst, Read(r.value))
  {
    var n := |src|;
    if n < 2 {
      return Err(InvalidArgument);
    }
    var S, D := new Point[n], new Point[n];
    for i := 0 to n
      invariant S[..i] == src[..i] && D[..i] == dst[..i]
    {
      S[i] := Point(src[i].x, src[i].y);
      D[i] := Point(dst[i].x, dst[i].y);
    }
    assert S[..] == src && D[..] == dst;

    var sMean, dMean := Mean(S[..]), Mean(D[..]);
    var cov := Scaled(1.0 / n as real, CrossSum(Center(D[..], dMean), Center(S[..], sMean)));
    var srcVar := SquareSum(Center(S[..], sMean)) / n as real;
    assert cov == Covariance(src, dst) && srcVar == Variance(src);
    var scale, R := ScaledRotation(cov, srcVar, jacobi(cov));
    var fit := CentroidFit(Scaled(scale, R), sMean, dMean);

    var M := WriteMatrix(scale, R, fit.t);
    EstimateIsLeastSquares(src, dst);
    return Ok(M);
  }
}
