/** Detections, and how they move between letterboxed and original coordinates. */
module Detections {
  import opened Geometry
  import opened Letterboxing

  datatype FaceDetection = FaceDetection(bbox: Rect, landmarks: seq<Point>, score: real)

  /** A box, landmarks or detection in letterboxed coordinates, moved to the original frame. */
  function UndoBox(b: Rect, f: Frame): Rect
    requires f.scale != 0.0
  {
    Rect(UndoLetterbox(b.x, b.y, f).x, UndoLetterbox(b.x, b.y, f).y, b.width / f.scale, b.height / f.scale)
  }

  function UndoPoints(ps: seq<Point>, f: Frame): seq<Point>
    requires f.scale != 0.0
  {
    seq(|ps|, i requires 0 <= i < |ps| => UndoLetterbox(ps[i].x, ps[i].y, f))
  }

  function UndoDetection(d: FaceDetection, f: Frame): FaceDetection
    requires f.scale != 0.0
  {
    FaceDetection(UndoBox(d.bbox, f), UndoPoints(d.landmarks, f), d.score)
  }

  /** The inverse map: original coordinates into the letterbox. */
  function RedoDetection(d: FaceDetection, f: Frame): FaceDetection {
    var corner := DoLetterbox(Point(d.bbox.x, d.bbox.y), f);
    FaceDetection(Rect(corner.x, corner.y, d.bbox.width * f.scale, d.bbox.height * f.scale),
                  seq(|d.landmarks|, i requires 0 <= i < |d.landmarks| => DoLetterbox(d.landmarks[i], f)),
                  d.score)
  }

  lemma UndoRedo(d: FaceDetection, f: Frame)
    requires f.scale != 0.0
    ensures UndoDetection(RedoDetection(d, f), f) == d
    ensures RedoDetection(UndoDetection(d, f), f) == d
  {
    BoxRoundTrip(d.bbox, f);
    forall i | 0 <= i < |d.landmarks|
      ensures RedoDetection(UndoDetection(d, f), f).landmarks[i] == d.landmarks[i]
      ensures UndoDetection(RedoDetection(d, f), f).landmarks[i] == d.landmarks[i]
    {
      CoordinateRoundTrip(d.landmarks[i], f);
    }
  }

  lemma BoxRoundTrip(b: Rect, f: Frame)
    requires f.scale != 0.0
    ensures b.width / f.scale * f.scale == b.width && b.height / f.scale * f.scale == b.height
    ensures b.width * f.scale / f.scale == b.width && b.height * f.scale / f.scale == b.height
    ensures UndoLetterbox(DoLetterbox(Point(b.x, b.y), f).x, DoLetterbox(Point(b.x, b.y), f).y, f) == Point(b.x, b.y)
    ensures DoLetterbox(UndoLetterbox(b.x, b.y, f), f) == Point(b.x, b.y)
  {
    CoordinateRoundTrip(Point(b.x, b.y), f);
  }

  function UndoAll(ds: seq<FaceDetection>, f: Frame): seq<FaceDetection>
    requires f.scale != 0.0
  {
    seq(|ds|, i requires 0 <= i < |ds| => UndoDetection(ds[i], f))
  }
}

/** Intersection over union, over exact reals and for boxes of any sign of extent. */
module BoxOverlap {
  import opened Arithmetic
  import opened Geometry
  import opened Letterboxing
  import opened Detections

  function Max(x: real, y: real): real { if x < y then y else x }

  /** The overlap of [x, x+w] and [y, y+v], or zero. */
  function Span(x: real, w: real, y: real, v: real): (r: real)
    ensures r >= 0.0
  {
    Max(0.0, Min(x + w, y + v) - Max(x, y))
  }

  function Product(x: real, y: real): (r: real)
    ensures x > 0.0 && y > 0.0 ==> r > 0.0
  {
    x * y
  }

  function Intersection(a: Rect, b: Rect): real {
    Product(Span(a.x, a.width, b.x, b.width), Span(a.y, a.height, b.y, b.height))
  }

  function Ratio(inter: real, union: real): real { if union > 0.0 then inter / union else 0.0 }

  /** Intersection over union, by intersection and areas. */
  function OverlapRatio(inter: real, areaA: real, areaB: real): real { Ratio(inter, areaA + areaB - inter) }

  function Iou(a: Rect, b: Rect): real {
    OverlapRatio(Intersection(a, b), Product(a.width, a.height), Product(b.width, b.height))
  }

  lemma SpanSymmetric(x: real, w: real, y: real, v: real)
    ensures Span(x, w, y, v) == Span(y, v, x, w)
  {}

  lemma IouSymmetric(a: Rect, b: Rect)
    ensures Iou(a, b) == Iou(b, a)
  {
    SpanSymmetric(a.x, a.width, b.x, b.width);
    SpanSymmetric(a.y, a.height, b.y, b.height);
    assert Intersection(a, b) == Intersection(b, a);
  }

  lemma SpanBound(x: real, w: real, y: real, v: real)
    ensures Span(x, w, y, v) > 0.0 ==> Span(x, w, y, v) <= w && Span(x, w, y, v) <= v
  {}

  lemma ProductBound(s: real, t: real, w: real, h: real)
    requires s >= 0.0 && t >= 0.0
    requires s > 0.0 ==> s <= w
    requires t > 0.0 ==> t <= h
    ensures Product(s, t) >= 0.0
    ensures Product(s, t) > 0.0 ==> Product(s, t) <= Product(w, h)
  {
    if s > 0.0 && t > 0.0 {
      assert s * (h - t) >= 0.0;
      assert (w - s) * h >= 0.0;
    }
  }

  lemma OverlapRange(i: real, areaA: real, areaB: real)
    requires i >= 0.0 && (i > 0.0 ==> i <= areaA && i <= areaB)
    ensures 0.0 <= OverlapRatio(i, areaA, areaB) <= 1.0
  {
    var u := areaA + areaB - i;
    if u > 0.0 {
      RatioBack(i, u);
      QuotientRange(Ratio(i, u), i, u);
    }
  }

  lemma RatioBack(i: real, u: real)
    requires u > 0.0
    ensures Ratio(i, u) * u == i
  {
    assert i / u * u == i;
  }

  /** A quotient of non-negatives lies on the side of one that the operands say. */
  lemma QuotientRange(z: real, i: real, u: real)
    requires u > 0.0 && i >= 0.0 && z * u == i
    ensures z >= 0.0 && (z <= 1.0 <==> i <= u) && (z == 1.0 <==> i == u)
  {
    if z < 0.0 { PositiveProduct(-z, u); }
    if z > 1.0 { PositiveProduct(z - 1.0, u); }
    if z < 1.0 { PositiveProduct(1.0 - z, u); }
    assert (z - 1.0) * u == i - u;
  }

  /** The overlap is a ratio in [0, 1], even when extents are zero or negative. */
  lemma IouRange(a: Rect, b: Rect)
    ensures 0.0 <= Iou(a, b) <= 1.0
  {
    var s, t := Span(a.x, a.width, b.x, b.width), Span(a.y, a.height, b.y, b.height);
    SpanBound(a.x, a.width, b.x, b.width);
    SpanBound(a.y, a.height, b.y, b.height);
    ProductBound(s, t, a.width, a.height);
    ProductBound(s, t, b.width, b.height);
    OverlapRange(Product(s, t), Product(a.width, a.height), Product(b.width, b.height));
  }

  // ------------------------------------------------- invariance under frames

  lemma DivideOrder(x: real, y: real, s: real)
    requires s > 0.0 && x < y
    ensures x / s < y / s
  {
    var p, q := x / s, y / s;
    assert p * s == x && q * s == y;
    assert p >= q ==> (p - q) * s >= 0.0;
  }

  lemma MaxDivide(x: real, y: real, s: real)
    requires s > 0.0
    ensures Max(x / s, y / s) == Max(x, y) / s && Min(x / s, y / s) == Min(x, y) / s
  {
    if x < y {
      DivideOrder(x, y, s);
    } else if y < x {
      DivideOrder(y, x, s);
    }
  }

  lemma DifferenceDivide(x: real, y: real, s: real)
    requires s > 0.0
    ensures x / s - y / s == (x - y) / s && x / s + y / s == (x + y) / s
  {}

  /** Translating and dividing both intervals divides their overlap. */
  lemma SpanInvariant(x: real, w: real, y: real, v: real, p: real, s: real)
    requires s > 0.0
    ensures Span((x - p) / s, w / s, (y - p) / s, v / s) == Span(x, w, y, v) / s
  {
    DifferenceDivide(x - p, w, s);
    DifferenceDivide(y - p, v, s);
    var lo, hi := Max(x - p, y - p), Min(x - p + w, y - p + v);
    MaxDivide(x - p + w, y - p + v, s);
    MaxDivide(x - p, y - p, s);
    DifferenceDivide(hi, lo, s);
    MaxDivide(0.0, hi - lo, s);
    assert hi - lo == Min(x + w, y + v) - Max(x, y);
  }

  lemma ProductDivide(w: real, h: real, s: real)
    requires s > 0.0
    ensures Product(w / s, h / s) == Product(w, h) / Product(s, s)
  {
    var p, q := w / s, h / s;
    RegroupProduct(p, q, w, h, s);
    QuotientUnique(Product(p, q), Product(s, s), Product(w, h));
  }

  lemma RegroupProduct(p: real, q: real, w: real, h: real, s: real)
    requires p * s == w && q * s == h && s > 0.0
    ensures Product(p, q) * Product(s, s) == Product(w, h)
  {
    assert Product(p, q) * Product(s, s) == Product(p * s, q * s);
  }

  lemma QuotientUnique(x: real, k: real, y: real)
    requires k > 0.0 && x * k == y
    ensures x == y / k
  {}

  lemma OverlapDivide(i: real, areaA: real, areaB: real, k: real)
    requires k > 0.0
    ensures OverlapRatio(i / k, areaA / k, areaB / k) == OverlapRatio(i, areaA, areaB)
  {
    var u := areaA + areaB - i;
    assert areaA / k + areaB / k - i / k == u / k;
    var v := u / k;
    assert v * k == u;
    if u > 0.0 {
      DivideOrder(0.0, u, k);
      SameQuotient(i, u, k);
    } else {
      assert v > 0.0 ==> v * k > 0.0;
    }
  }

  lemma SameQuotient(i: real, u: real, k: real)
    requires u > 0.0 && k > 0.0 && u / k > 0.0
    ensures i / k / (u / k) == i / u
  {
    var z, v := i / u, u / k;
    assert v * k == u && z * u == i;
    assert z * v == i / k by { assert z * (v * k) == i; }
  }

  lemma IntersectionInvariant(a: Rect, b: Rect, f: Frame)
    requires f.scale > 0.0
    ensures Intersection(UndoBox(a, f), UndoBox(b, f)) == Intersection(a, b) / Product(f.scale, f.scale)
  {
    SpanInvariant(a.x, a.width, b.x, b.width, f.padX as real, f.scale);
    SpanInvariant(a.y, a.height, b.y, b.height, f.padY as real, f.scale);
    ProductDivide(Span(a.x, a.width, b.x, b.width), Span(a.y, a.height, b.y, b.height), f.scale);
  }

  /** Overlap does not depend on the frame the boxes are expressed in. */
  lemma IouInvariant(a: Rect, b: Rect, f: Frame)
    requires f.scale > 0.0
    ensures Iou(UndoBox(a, f), UndoBox(b, f)) == Iou(a, b)
  {
    var k := Product(f.scale, f.scale);
    IntersectionInvariant(a, b, f);
    ProductDivide(a.width, a.height, f.scale);
    ProductDivide(b.width, b.height, f.scale);
    OverlapDivide(Intersection(a, b), Product(a.width, a.height), Product(b.width, b.height), k);
  }

  // ------------------------------------------------------- what overlap means

  /** The point belongs to the box, border included. */
  predicate Contains(r: Rect, p: Point) {
    r.x <= p.x <= r.x + r.width && r.y <= p.y <= r.y + r.height
  }

  predicate Positive(r: Rect) { r.width > 0.0 && r.height > 0.0 }

  /** `c` holds exactly the points common to `a` and `b`. */
  ghost predicate IsCommon(a: Rect, b: Rect, c: Rect) {
    c.width >= 0.0 && c.height >= 0.0 && forall p :: Contains(c, p) <==> Contains(a, p) && Contains(b, p)
  }

  lemma CommonSpans(a: Rect, b: Rect, c: Rect)
    requires Positive(a) && Positive(b) && IsCommon(a, b, c)
    ensures Span(a.x, a.width, b.x, b.width) == c.width && Span(a.y, a.height, b.y, b.height) == c.height
  {
    assert Contains(c, Point(c.x, c.y)) && Contains(c, Point(c.x + c.width, c.y + c.height));
    var near := Point(Max(a.x, b.x), Max(a.y, b.y));
    var far := Point(Min(a.x + a.width, b.x + b.width), Min(a.y + a.height, b.y + b.height));
    assert Contains(a, near) && Contains(b, near) && Contains(a, far) && Contains(b, far);
    assert Contains(c, near) && Contains(c, far);
  }

  lemma RatioOfAreas(i: real, areaA: real, areaB: real)
    requires 0.0 <= i && areaA > 0.0 && areaB > 0.0 && (i > 0.0 ==> i <= areaA && i <= areaB)
    ensures IsRatio(OverlapRatio(i, areaA, areaB), areaA, areaB, i)
  {
    RatioBack(i, areaA + areaB - i);
  }

  /** Over products already taken: `q` is the common area over the area that either box covers. */
  predicate IsRatio(q: real, areaA: real, areaB: real, common: real) {
    areaA + areaB - common > 0.0 && q * (areaA + areaB - common) == common
  }

  /** The same of boxes `a` and `b` with common part `c`. */
  predicate IsAreaRatio(q: real, a: Rect, b: Rect, c: Rect) {
    var areaA, areaB, common := a.width * a.height, b.width * b.height, c.width * c.height;
    areaA + areaB - common > 0.0 && q * (areaA + areaB - common) == common
  }

  lemma RatioOfBoxes(q: real, a: Rect, b: Rect, c: Rect)
    requires IsRatio(q, Product(a.width, a.height), Product(b.width, b.height), Product(c.width, c.height))
    ensures IsAreaRatio(q, a, b, c)
  {}

  lemma SpansGiveRatio(a: Rect, b: Rect, c: Rect)
    requires Positive(a) && Positive(b)
    requires Span(a.x, a.width, b.x, b.width) == c.width && Span(a.y, a.height, b.y, b.height) == c.height
    ensures IsRatio(Iou(a, b), Product(a.width, a.height), Product(b.width, b.height), Product(c.width, c.height))
  {
    IouByAreas(a, b, c);
    AreaBounds(a, c.width, c.height);
    AreaBounds(b, c.width, c.height);
    RatioOfAreas(Product(c.width, c.height), Product(a.width, a.height), Product(b.width, b.height));
  }

  /** Overlap is the area of the common part over the area that either box covers. */
  lemma IouIsAreaRatio(a: Rect, b: Rect, c: Rect)
    requires Positive(a) && Positive(b) && IsCommon(a, b, c)
    ensures IsAreaRatio(Iou(a, b), a, b, c)
  {
    CommonSpans(a, b, c);
    SpansGiveRatio(a, b, c);
    RatioOfBoxes(Iou(a, b), a, b, c);
  }

  lemma IouByAreas(a: Rect, b: Rect, c: Rect)
    requires Positive(a) && Positive(b)
    requires Span(a.x, a.width, b.x, b.width) == c.width && Span(a.y, a.height, b.y, b.height) == c.height
    ensures Iou(a, b)
      == OverlapRatio(Product(c.width, c.height), Product(a.width, a.height), Product(b.width, b.height))
    ensures c.width > 0.0 ==> c.width <= a.width && c.width <= b.width
    ensures c.height > 0.0 ==> c.height <= a.height && c.height <= b.height
  {
    SpanBound(a.x, a.width, b.x, b.width);
    SpanBound(a.y, a.height, b.y, b.height);
  }

  lemma AreaBounds(r: Rect, w: real, h: real)
    requires Positive(r) && w >= 0.0 && h >= 0.0 && (w > 0.0 ==> w <= r.width) && (h > 0.0 ==> h <= r.height)
    ensures Product(r.width, r.height) > 0.0
    ensures Product(w, h) >= 0.0 && (Product(w, h) > 0.0 ==> Product(w, h) <= Product(r.width, r.height))
  {
    ProductBound(w, h, r.width, r.height);
    PositiveArea(r.width, r.height);
  }

  lemma PositiveArea(w: real, h: real)
    requires w > 0.0 && h > 0.0
    ensures Product(w, h) > 0.0
  {}

  /** Boxes without a common point do not overlap. */
  lemma IouApart(a: Rect, b: Rect)
    requires forall p :: !(Contains(a, p) && Contains(b, p))
    ensures Iou(a, b) == 0.0
  {
    var s, t := Span(a.x, a.width, b.x, b.width), Span(a.y, a.height, b.y, b.height);
    if s > 0.0 && t > 0.0 {
      var near := Point(Max(a.x, b.x), Max(a.y, b.y));
      assert !(Contains(a, near) && Contains(b, near));
    }
    assert Product(s, t) == 0.0;
  }

  lemma FullOverlap(i: real, areaA: real, areaB: real)
    requires 0.0 <= i <= areaA && i <= areaB && areaA > 0.0
    ensures OverlapRatio(i, areaA, areaB) == 1.0 <==> i == areaA && i == areaB
  {
    var u := areaA + areaB - i;
    RatioBack(i, u);
    QuotientRange(Ratio(i, u), i, u);
  }

  lemma FullProduct(s: real, t: real, w: real, h: real)
    requires 0.0 <= s <= w && 0.0 <= t <= h && w > 0.0 && h > 0.0
    ensures Product(s, t) == Product(w, h) <==> s == w && t == h
  {
    if s < w { LessProduct(s, t, w, h); }
    if t < h { LessProduct(t, s, h, w); }
  }

  lemma LessProduct(s: real, t: real, w: real, h: real)
    requires 0.0 <= s < w && 0.0 <= t <= h && h > 0.0
    ensures s * t < w * h
  {
    PositiveArea(w - s, h);
    assert (w - s) * h == w * h - s * h;
    assert s * h - s * t == s * (h - t);
    assert s * (h - t) >= 0.0;
  }

  /** Overlap is complete exactly for equal boxes. */
  lemma IouComplete(a: Rect, b: Rect)
    requires Positive(a) && Positive(b)
    ensures Iou(a, b) == 1.0 <==> a == b
  {
    var s, t := Span(a.x, a.width, b.x, b.width), Span(a.y, a.height, b.y, b.height);
    SpanBound(a.x, a.width, b.x, b.width);
    SpanBound(a.y, a.height, b.y, b.height);
    ProductBound(s, t, a.width, a.height);
    ProductBound(s, t, b.width, b.height);
    PositiveArea(a.width, a.height);
    FullOverlap(Product(s, t), Product(a.width, a.height), Product(b.width, b.height));
    FullProduct(s, t, a.width, a.height);
    FullProduct(s, t, b.width, b.height);
  }
}
