/** The five-point aligner: a scaled template and the similarity that reaches it. */
module FaceAligner {
  import opened Geometry
  import opened SimilarityTransform

  /** Canonical landmarks of the 112x112 template: eyes, nose, mouth corners. */
  const REFERENCE_112: seq<Point> := [
    Point(38.2946, 51.6963),
    Point(73.5318, 51.5014),
    Point(56.0252, 71.7366),
    Point(41.5493, 92.3655),
    Point(70.7299, 92.2041)
  ]

  const REFERENCE_SIZE := 112.0

  /** The template an aligner of the given side uses. */
  function Template(outputSize: int): seq<Point> { StretchAll(outputSize as real / REFERENCE_SIZE, REFERENCE_112) }

  /** The published five points of the 112-pixel template, in proportion to the side. */
  lemma TemplatePoints(side: int)
    ensures Template(112) == [Point(38.2946, 51.6963), Point(73.5318, 51.5014), Point(56.0252, 71.7366),
                              Point(41.5493, 92.3655), Point(70.7299, 92.2041)]
    ensures |Template(side)| == 5
    ensures forall i :: 0 <= i < 5 ==>
      && 112.0 * Template(side)[i].x == Template(112)[i].x * side as real
      && 112.0 * Template(side)[i].y == Template(112)[i].y * side as real
  {}

  class Aligner {
    const outputSize: int
    const reference: array<Point>

    ghost predicate Valid()
      reads reference
    {
      reference[..] == Template(outputSize)
    }

    constructor (outputSize: int)
      ensures Valid() && fresh(reference)
      ensures this.outputSize == outputSize
    {
      this.outputSize := outputSize;
      reference := new Point[5];
      new;
      var k := outputSize as real / REFERENCE_SIZE;
      for i := 0 to 5
        invariant forall j :: 0 <= j < i ==> reference[j] == Stretch(k, REFERENCE_112[j])
      {
        reference[i] := Point(REFERENCE_112[i].x * k, REFERENCE_112[i].y * k);
      }
    }

    /** The transform `align` warps with; the pixels of the warp are not modelled. */
    method Align(landmarks: seq<Point>, jacobi: Mat2 -> Svd) returns (m: array2<real>)
      requires Valid() && |landmarks| == 5
      requires forall c :: IsSvd(c, jacobi(c))
      ensures fresh(m) && m.Length0 == 2 && m.Length1 == 3
      ensures Read(m) == Estimate(landmarks, Template(outputSize))
      ensures IsLeastSquares(landmarks, Template(outputSize), Read(m))
    {
      var r := EstimateSimilarityTransform(landmarks, reference[..], jacobi);
      m := r.value;
    }
  }

  lemma TimesApply(k: real, m: Affine, p: Point)
    ensures Times(k, m).Apply(p) == Stretch(k, m.Apply(p))
  {}

  lemma StretchTwice(h: real, k: real, ps: seq<Point>)
    ensures StretchAll(h, StretchAll(k, ps)) == StretchAll(h * k, ps)
  {
    forall i | 0 <= i < |ps| ensures StretchAll(h, StretchAll(k, ps))[i] == StretchAll(h * k, ps)[i] {
      assert ps[i].x * k * h == ps[i].x * (h * k);
      assert ps[i].y * k * h == ps[i].y * (h * k);
    }
  }

  lemma TemplateRatio(small: int, large: int)
    requires small != 0
    ensures Template(large) == StretchAll(large as real / small as real, Template(small))
  {
    var k, h := large as real / small as real, small as real / REFERENCE_SIZE;
    assert k * h == large as real / REFERENCE_SIZE;
    StretchTwice(k, h, REFERENCE_112);
  }

  /**
   Aligners of different sizes agree up to the ratio of their sides, on every image point,
   exactly when the landmarks do not all coincide (or the sides are equal).
   */
  lemma AlignersAgree(small: int, large: int, landmarks: seq<Point>)
    requires small != 0 && |landmarks| == 5
    ensures var k := large as real / small as real;
            && (Estimate(landmarks, Template(large)) == Times(k, Estimate(landmarks, Template(small)))
                <==> small == large || !Coincident(landmarks))
            && (!Coincident(landmarks) ==> forall p ::
                Estimate(landmarks, Template(large)).Apply(p)
                == Stretch(k, Estimate(landmarks, Template(small)).Apply(p)))
  {
    var k := large as real / small as real;
    TemplateRatio(small, large);
    UnitRatio(small as real, large as real);
    TargetScaling(k, landmarks, Template(small));
    TimesApplyAll(k, Estimate(landmarks, Template(small)));
  }

  lemma UnitRatio(x: real, y: real)
    requires x != 0.0
    ensures y / x == 1.0 <==> x == y
  {
    assert y / x * x == y;
  }

  lemma TimesApplyAll(k: real, m: Affine)
    ensures forall p :: Times(k, m).Apply(p) == Stretch(k, m.Apply(p))
  {
    forall p ensures Times(k, m).Apply(p) == Stretch(k, m.Apply(p)) {
      TimesApply(k, m, p);
    }
  }
}
