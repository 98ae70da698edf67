/** The anchor grid and the per-stride decoder. */
module ScrfdDecode {
  import opened Outcomes
  import opened Arithmetic
  import opened Geometry
  import opened Letterboxing
  import opened Detections

  const STRIDES: seq<nat> := [8, 16, 32]
  const ANCHORS_PER_LOCATION := 2
  const NUM_LANDMARKS := 5

  function AnchorsAt(rows: nat, cols: nat, anchors: nat): nat { rows * cols * anchors }

  /** One stride level: `anchors` anchors at every cell of a (height/stride) x (width/stride) map. */
  datatype Grid = Grid(stride: nat, width: nat, height: nat, anchors: nat) {
    ghost predicate Valid() { stride > 0 }

    function FeatW(): nat
      requires Valid()
    {
      Quotient(width, stride)
    }

    function FeatH(): nat
      requires Valid()
    {
      Quotient(height, stride)
    }

    function Count(): nat
      requires Valid()
    {
      AnchorsAt(FeatH(), FeatW(), anchors)
    }

    /** Position of anchor `a` of cell (x, y) in the output tensors. */
    function Flat(y: nat, x: nat, a: nat): nat
      requires Valid()
    {
      (y * FeatW() + x) * anchors + a
    }
  }

  // ----------------------------------------------------------- anchor counts

  method AnchorCount(inputW: nat, inputH: nat, stride: int, anchors: nat) returns (r: Result<nat>)
    ensures r.Err? <==> stride <= 0
    ensures r.Err? ==> r.error == InvalidArgument
    ensures r.Ok? ==> r.value == Grid(stride, inputW, inputH, anchors).Count()
    ensures r.Ok? ==> r.value == (inputH / stride) * (inputW / stride) * anchors
  {
    if stride <= 0 {
      return Err(InvalidArgument);
    }
    return Ok(AnchorsAt(inputH / stride, inputW / stride, anchors));
  }

  /** The anchors of the first `n` stride levels. */
  function CountThrough(inputW: nat, inputH: nat, anchors: nat, n: nat): nat
    requires n <= |STRIDES|
  {
    if n == 0 then 0
    else CountThrough(inputW, inputH, anchors, n - 1) + Grid(STRIDES[n - 1], inputW, inputH, anchors).Count()
  }

  method TotalAnchorCount(inputW: nat, inputH: nat, anchors: nat) returns (total: nat)
    ensures total == CountThrough(inputW, inputH, anchors, 3)
  {
    total := 0;
    for i := 0 to |STRIDES|
      invariant total == CountThrough(inputW, inputH, anchors, i)
    {
      var r := AnchorCount(inputW, inputH, STRIDES[i], anchors);
      total := total + r.value;
    }
  }

  /** For inputs that survive the stride-32 path, 42 anchors for every 32x32 block. */
  lemma TotalForMultiplesOf32(w: nat, h: nat)
    ensures CountThrough(32 * w, 32 * h, ANCHORS_PER_LOCATION, 3) == 42 * (w * h)
  {
    assert 32 * w / 8 == 4 * w && 32 * w / 16 == 2 * w && 32 * w / 32 == w;
    assert 32 * h / 8 == 4 * h && 32 * h / 16 == 2 * h && 32 * h / 32 == h;
    assert CountThrough(32 * w, 32 * h, 2, 1) == 4 * h * (4 * w) * 2 == 32 * (w * h);
    assert CountThrough(32 * w, 32 * h, 2, 2) == 32 * (w * h) + 2 * h * (2 * w) * 2 == 40 * (w * h);
  }

  // ------------------------------------------------------------ flat indices

  lemma FlatSteps(g: Grid, y: nat, x: nat)
    requires g.Valid()
    ensures g.Flat(y, x, g.anchors) == g.Flat(y, x + 1, 0)
    ensures g.Flat(y, g.FeatW(), 0) == g.Flat(y + 1, 0, 0)
    ensures g.Flat(0, 0, 0) == 0 && g.Flat(g.FeatH(), 0, 0) == g.Count()
  {
    var fw := g.FeatW();
    assert (y * fw + x) * g.anchors + g.anchors == (y * fw + (x + 1)) * g.anchors;
    assert y * fw + fw == (y + 1) * fw;
  }

  /** Which row, column and anchor a flat index names. */
  function RowOf(g: Grid, k: nat): nat
    requires g.Valid() && k < g.Count()
  {
    PositiveCount(g, k);
    Quotient(Quotient(k, g.anchors), g.FeatW())
  }

  function ColOf(g: Grid, k: nat): nat
    requires g.Valid() && k < g.Count()
  {
    PositiveCount(g, k);
    Remainder(Quotient(k, g.anchors), g.FeatW())
  }

  function AnchorOf(g: Grid, k: nat): nat
    requires g.Valid() && k < g.Count()
  {
    PositiveCount(g, k);
    Remainder(k, g.anchors)
  }

  lemma PositiveCount(g: Grid, k: nat)
    requires g.Valid() && k < g.Count()
    ensures g.anchors > 0 && g.FeatW() > 0 && g.FeatH() > 0
  {
    PositiveFactors(g.FeatH(), g.FeatW(), g.anchors);
  }

  /** Flat indices and (row, column, anchor) triples are in bijection: every anchor is visited once. */
  lemma FlatBijection(g: Grid, y: nat, x: nat, a: nat)
    requires g.Valid() && y < g.FeatH() && x < g.FeatW() && a < g.anchors
    ensures g.Flat(y, x, a) < g.Count()
    ensures RowOf(g, g.Flat(y, x, a)) == y && ColOf(g, g.Flat(y, x, a)) == x && AnchorOf(g, g.Flat(y, x, a)) == a
  {
    ProductBelow(y, g.FeatH(), x, g.FeatW());
    ProductBelow(y * g.FeatW() + x, g.FeatH() * g.FeatW(), a, g.anchors);
    DivMod(y * g.FeatW() + x, a, g.anchors);
    DivMod(y, x, g.FeatW());
  }

  lemma FlatOnto(g: Grid, k: nat)
    requires g.Valid() && k < g.Count()
    ensures RowOf(g, k) < g.FeatH() && ColOf(g, k) < g.FeatW() && AnchorOf(g, k) < g.anchors
    ensures g.Flat(RowOf(g, k), ColOf(g, k), AnchorOf(g, k)) == k
  {
    PositiveCount(g, k);
    Divided(k, g.FeatH() * g.FeatW(), g.anchors);
    Divided(Quotient(k, g.anchors), g.FeatH(), g.FeatW());
  }

  lemma Divided(n: nat, m: nat, d: nat)
    requires d > 0 && n < m * d
    ensures Quotient(n, d) < m && Remainder(n, d) < d && n == Quotient(n, d) * d + Remainder(n, d)
  {
    QuotientBelow(n, m, d);
  }

  // ------------------------------------------------------- regressed geometry

  /** Raw outputs of one stride level, in the upstream layout. */
  datatype Tensors = Tensors(scores: seq<real>, bboxes: seq<real>, kps: seq<real>) {
    /** The reads that decoding `n` anchors performs are in bounds. */
    predicate Holds(n: nat) { n <= |scores| && 4 * n <= |bboxes| && 10 * n <= |kps| }
  }

  /** `distance2bbox`: left, top, right, bottom in stride units. */
  function Distance2Bbox(anchor: Point, d: seq<real>, stride: real, f: Frame): Rect
    requires |d| >= 4 && f.scale != 0.0
  {
    var tl := UndoLetterbox(anchor.x - d[0] * stride, anchor.y - d[1] * stride, f);
    var br := UndoLetterbox(anchor.x + d[2] * stride, anchor.y + d[3] * stride, f);
    Rect(tl.x, tl.y, br.x - tl.x, br.y - tl.y)
  }

  function Landmark(anchor: Point, o: seq<real>, stride: real, f: Frame, k: nat): Point
    requires k < NUM_LANDMARKS && |o| >= 10 && f.scale != 0.0
  {
    UndoLetterbox(anchor.x + o[k * 2] * stride, anchor.y + o[k * 2 + 1] * stride, f)
  }

  function Landmarks(anchor: Point, o: seq<real>, stride: real, f: Frame): seq<Point>
    requires |o| >= 10 && f.scale != 0.0
  {
    seq(NUM_LANDMARKS, k requires 0 <= k < NUM_LANDMARKS => Landmark(anchor, o, stride, f, k))
  }

  /** `distance2kps` */
  method Distance2Kps(anchor: Point, offsets: seq<real>, stride: real, f: Frame) returns (kps: seq<Point>)
    requires |offsets| >= 10 && f.scale != 0.0
    ensures kps == Landmarks(anchor, offsets, stride, f)
  {
    var points := new Point[NUM_LANDMARKS];
    for k := 0 to NUM_LANDMARKS
      invariant forall j :: 0 <= j < k ==> points[j] == Landmark(anchor, offsets, stride, f, j)
    {
      var x := anchor.x + offsets[k * 2 + 0] * stride;
      var y := anchor.y + offsets[k * 2 + 1] * stride;
      points[k] := UndoLetterbox(x, y, f);
    }
    kps := points[..];
  }

  // ----------------------------------------------------------- specification

  function AnchorPoint(g: Grid, k: nat): Point
    requires g.Valid() && k < g.Count()
  {
    Point((ColOf(g, k) * g.stride) as real, (RowOf(g, k) * g.stride) as real)
  }

  /** What the anchor with flat index `k` regresses to. */
  function DetectionAt(g: Grid, ts: Tensors, f: Frame, k: nat): FaceDetection
    requires g.Valid() && k < g.Count() && ts.Holds(g.Count()) && f.scale != 0.0
  {
    FaceDetection(Distance2Bbox(AnchorPoint(g, k), ts.bboxes[k * 4..], g.stride as real, f),
                  Landmarks(AnchorPoint(g, k), ts.kps[k * 10..], g.stride as real, f),
                  ts.scores[k])
  }

  /** One in-order filter and map over the first `n` flat indices. */
  function Decoded(g: Grid, ts: Tensors, t: real, f: Frame, n: nat): seq<FaceDetection>
    requires g.Valid() && n <= g.Count() && ts.Holds(g.Count()) && f.scale != 0.0
  {
    if n == 0 then []
    else
      Decoded(g, ts, t, f, n - 1) + (if ts.scores[n - 1] < t then [] else [DetectionAt(g, ts, f, n - 1)])
  }

  function Decode(g: Grid, ts: Tensors, t: real, f: Frame): seq<FaceDetection>
    requires g.Valid() && ts.Holds(g.Count()) && f.scale != 0.0
  {
    Decoded(g, ts, t, f, g.Count())
  }

  // ----------------------------------------------------------------- decoder

  /** One cell and anchor of the triple loop. */
  method DecodeAnchor(g: Grid, ts: Tensors, t: real, f: Frame, y: nat, x: nat, a: nat, out: Vector<FaceDetection>)
    requires g.Valid() && ts.Holds(g.Count()) && f.scale != 0.0
    requires y < g.FeatH() && x < g.FeatW() && a < g.anchors
    modifies out
    ensures g.Flat(y, x, a) < g.Count()
    ensures out.items == old(out.items)
      + (if ts.scores[g.Flat(y, x, a)] < t then [] else [DetectionAt(g, ts, f, g.Flat(y, x, a))])
    ensures Regresses(DetectionAt(g, ts, f, g.Flat(y, x, a)), g, ts, f, g.Flat(y, x, a))
  {
    FlatBijection(g, y, x, a);
    DetectionRegresses(g, ts, f, g.Flat(y, x, a));
    var idx := (y * g.FeatW() + x) * g.anchors + a;
    var score := ts.scores[idx];
    if score < t {
      return;
    }
    var anchor := Point((x * g.stride) as real, (y * g.stride) as real);
    var bbox := Distance2Bbox(anchor, ts.bboxes[idx * 4..], g.stride as real, f);
    var landmarks := Distance2Kps(anchor, ts.kps[idx * 10..], g.stride as real, f);
    out.PushBack(FaceDetection(bbox, landmarks, score));
  }

  /** `decode_stride`: the triple loop appends exactly the filtered, mapped flat indices. */
  method DecodeStride(g: Grid, ts: Tensors, scoreThresh: real, f: Frame, out: Vector<FaceDetection>)
    requires g.Valid() && ts.Holds(g.Count()) && f.scale != 0.0
    modifies out
    ensures out.items == old(out.items) + Decode(g, ts, scoreThresh, f)
    ensures IsDecoding(out.items[|old(out.items)|..], g, ts, scoreThresh, f)
  {
    var featH, featW := g.height / g.stride, g.width / g.stride;
    ghost var before := out.items;
    FlatSteps(g, 0, 0);
    for y := 0 to featH
      invariant g.Flat(y, 0, 0) <= g.Count()
      invariant out.items == before + Decoded(g, ts, scoreThresh, f, g.Flat(y, 0, 0))
    {
      for x := 0 to featW
        invariant g.Flat(y, x, 0) <= g.Count()
        invariant out.items == before + Decoded(g, ts, scoreThresh, f, g.Flat(y, x, 0))
      {
        for a := 0 to g.anchors
          invariant g.Flat(y, x, a) <= g.Count()
          invariant out.items == before + Decoded(g, ts, scoreThresh, f, g.Flat(y, x, a))
        {
          DecodeAnchor(g, ts, scoreThresh, f, y, x, a, out);
          assert g.Flat(y, x, a + 1) == g.Flat(y, x, a) + 1;
        }
        FlatSteps(g, y, x);
      }
      FlatSteps(g, y, 0);
    }
    ghost var at := DecodeMeans(g, ts, scoreThresh, f);
    assert out.items[|before|..] == Decode(g, ts, scoreThresh, f);
  }

  // ------------------------------------------------------------ main results

  function AtLeast(ds: seq<FaceDetection>, t: real): seq<FaceDetection> {
    if ds == [] then []
    else AtLeast(ds[..|ds| - 1], t) + (if ds[|ds| - 1].score < t then [] else [ds[|ds| - 1]])
  }

  lemma AtLeastAppend(ds: seq<FaceDetection>, d: FaceDetection, t: real)
    ensures AtLeast(ds + [d], t) == AtLeast(ds, t) + (if d.score < t then [] else [d])
  {
    assert (ds + [d])[..|ds|] == ds;
  }

  /** A higher threshold keeps, in order, exactly the detections that reach it. */
  lemma {:induction false} HigherThreshold(g: Grid, ts: Tensors, low: real, high: real, f: Frame, n: nat)
    requires g.Valid() && n <= g.Count() && ts.Holds(g.Count()) && f.scale != 0.0
    requires low <= high
    ensures Decoded(g, ts, high, f, n) == AtLeast(Decoded(g, ts, low, f, n), high)
  {
    if n > 0 {
      HigherThreshold(g, ts, low, high, f, n - 1);
      var d := Decoded(g, ts, low, f, n - 1);
      AtLeastAppend(d, DetectionAt(g, ts, f, n - 1), high);
      if ts.scores[n - 1] < low {
        assert Decoded(g, ts, low, f, n) == d;
      }
    }
  }

  lemma {:induction false} DecodedBound(g: Grid, ts: Tensors, t: real, f: Frame, n: nat)
    requires g.Valid() && n <= g.Count() && ts.Holds(g.Count()) && f.scale != 0.0
    ensures |Decoded(g, ts, t, f, n)| <= n
    ensures forall d :: d in Decoded(g, ts, t, f, n) ==> d.score >= t && |d.landmarks| == NUM_LANDMARKS
  {
    if n > 0 {
      DecodedBound(g, ts, t, f, n - 1);
    }
  }

  lemma BoxFrame(anchor: Point, d: seq<real>, stride: real, f: Frame)
    requires |d| >= 4 && f.scale > 0.0
    ensures Distance2Bbox(anchor, d, stride, f) == UndoBox(Distance2Bbox(anchor, d, stride, IDENTITY_FRAME), f)
  {
    ExtentFrame(anchor.x - d[0] * stride, anchor.x + d[2] * stride, f.padX as real, f.scale);
    ExtentFrame(anchor.y - d[1] * stride, anchor.y + d[3] * stride, f.padY as real, f.scale);
  }

  /** Padding cancels out of an extent; only the scale survives. */
  lemma ExtentFrame(lo: real, hi: real, p: real, s: real)
    requires s > 0.0
    ensures (hi - p) / s - (lo - p) / s == (hi / 1.0 - lo / 1.0) / s
  {}

  lemma DetectionFrame(g: Grid, ts: Tensors, f: Frame, k: nat)
    requires g.Valid() && k < g.Count() && ts.Holds(g.Count()) && f.scale > 0.0
    ensures DetectionAt(g, ts, f, k) == UndoDetection(DetectionAt(g, ts, IDENTITY_FRAME, k), f)
  {
    BoxFrame(AnchorPoint(g, k), ts.bboxes[k * 4..], g.stride as real, f);
  }

  /** Decoding straight into the original frame is decoding in the letterbox, then mapping back. */
  lemma {:induction false} DecodeFrame(g: Grid, ts: Tensors, t: real, f: Frame, n: nat)
    requires g.Valid() && n <= g.Count() && ts.Holds(g.Count()) && f.scale > 0.0
    ensures Decoded(g, ts, t, f, n) == UndoAll(Decoded(g, ts, t, IDENTITY_FRAME, n), f)
  {
    if n > 0 {
      DecodeFrame(g, ts, t, f, n - 1);
      DetectionFrame(g, ts, f, n - 1);
    }
  }

  // ------------------------------------------------ what a detection says

  /** Flat index `k` stands for anchor `a` of the cell in column `x` and row `y`. */
  predicate IsCell(g: Grid, y: nat, x: nat, a: nat, k: nat)
    requires g.stride > 0
  {
    && y < g.height / g.stride && x < g.width / g.stride && a < g.anchors
    && k == (y * (g.width / g.stride) + x) * g.anchors + a
  }

  /** A value of the original frame, taken back into the letterbox. */
  function Boxed(v: real, scale: real, pad: int): real { v * scale + pad as real }

  /** In the letterbox, each edge lies its own distance, in strides, from the corner (u, v), on its own side. */
  predicate BoxRegresses(b: Rect, ts: Tensors, k: nat, stride: real, u: real, v: real, f: Frame)
    requires 4 * k + 4 <= |ts.bboxes|
  {
    && Boxed(b.x, f.scale, f.padX) == u - ts.bboxes[4 * k] * stride
    && Boxed(b.y, f.scale, f.padY) == v - ts.bboxes[4 * k + 1] * stride
    && Boxed(b.x + b.width, f.scale, f.padX) == u + ts.bboxes[4 * k + 2] * stride
    && Boxed(b.y + b.height, f.scale, f.padY) == v + ts.bboxes[4 * k + 3] * stride
  }

  /** And so does each landmark, at its own offset. */
  predicate LandmarksRegress(ps: seq<Point>, ts: Tensors, k: nat, stride: real, u: real, v: real, f: Frame)
    requires 10 * k + 10 <= |ts.kps|
  {
    && |ps| == 5
    && forall j :: 0 <= j < 5 ==>
        && Boxed(ps[j].x, f.scale, f.padX) == u + ts.kps[10 * k + 2 * j] * stride
        && Boxed(ps[j].y, f.scale, f.padY) == v + ts.kps[10 * k + 2 * j + 1] * stride
  }

  /** The detection is that of anchor `k`, regressed from the corner of the anchor's cell. */
  ghost predicate Regresses(d: FaceDetection, g: Grid, ts: Tensors, f: Frame, k: nat)
    requires g.stride > 0 && k < |ts.scores| && 4 * k + 4 <= |ts.bboxes| && 10 * k + 10 <= |ts.kps|
  {
    exists y: nat, x: nat, a: nat :: IsCell(g, y, x, a, k) && RegressesFrom(d, g, ts, f, k, y, x)
  }

  predicate RegressesFrom(d: FaceDetection, g: Grid, ts: Tensors, f: Frame, k: nat, y: nat, x: nat)
    requires k < |ts.scores| && 4 * k + 4 <= |ts.bboxes| && 10 * k + 10 <= |ts.kps|
  {
    var stride, u, v := g.stride as real, (x * g.stride) as real, (y * g.stride) as real;
    && BoxRegresses(d.bbox, ts, k, stride, u, v, f)
    && LandmarksRegress(d.landmarks, ts, k, stride, u, v, f)
    && d.score == ts.scores[k]
  }

  lemma BoxedBack(v: real, q: real, scale: real, pad: int)
    requires scale != 0.0 && q == (v - pad as real) / scale
    ensures Boxed(q, scale, pad) == v
  {
    assert q * scale == v - pad as real;
  }

  lemma EdgesBack(p: Point, d: seq<real>, stride: real, f: Frame)
    requires |d| >= 4 && f.scale != 0.0
    ensures var b := Distance2Bbox(p, d, stride, f);
            && Boxed(b.x, f.scale, f.padX) == p.x - d[0] * stride
            && Boxed(b.y, f.scale, f.padY) == p.y - d[1] * stride
            && Boxed(b.x + b.width, f.scale, f.padX) == p.x + d[2] * stride
            && Boxed(b.y + b.height, f.scale, f.padY) == p.y + d[3] * stride
  {
    var b := Distance2Bbox(p, d, stride, f);
    BoxedBack(p.x - d[0] * stride, b.x, f.scale, f.padX);
    BoxedBack(p.y - d[1] * stride, b.y, f.scale, f.padY);
    BoxedBack(p.x + d[2] * stride, b.x + b.width, f.scale, f.padX);
    BoxedBack(p.y + d[3] * stride, b.y + b.height, f.scale, f.padY);
  }

  lemma LandmarkBack(p: Point, o: seq<real>, stride: real, f: Frame, j: nat)
    requires j < 5 && |o| >= 10 && f.scale != 0.0
    ensures var q := Landmark(p, o, stride, f, j);
            && Boxed(q.x, f.scale, f.padX) == p.x + o[2 * j] * stride
            && Boxed(q.y, f.scale, f.padY) == p.y + o[2 * j + 1] * stride
  {
    var q := Landmark(p, o, stride, f, j);
    BoxedBack(p.x + o[2 * j] * stride, q.x, f.scale, f.padX);
    BoxedBack(p.y + o[2 * j + 1] * stride, q.y, f.scale, f.padY);
  }

  lemma BoxFrom(ts: Tensors, k: nat, p: Point, stride: real, f: Frame)
    requires 4 * k + 4 <= |ts.bboxes| && f.scale != 0.0
    ensures BoxRegresses(Distance2Bbox(p, ts.bboxes[k * 4..], stride, f), ts, k, stride, p.x, p.y, f)
  {
    EdgesBack(p, ts.bboxes[k * 4..], stride, f);
  }

  lemma LandmarksFrom(ts: Tensors, k: nat, p: Point, stride: real, f: Frame)
    requires 10 * k + 10 <= |ts.kps| && f.scale != 0.0
    ensures LandmarksRegress(Landmarks(p, ts.kps[k * 10..], stride, f), ts, k, stride, p.x, p.y, f)
  {
    forall j | 0 <= j < 5
      ensures Boxed(Landmarks(p, ts.kps[k * 10..], stride, f)[j].x, f.scale, f.padX)
           == p.x + ts.kps[10 * k + 2 * j] * stride
      ensures Boxed(Landmarks(p, ts.kps[k * 10..], stride, f)[j].y, f.scale, f.padY)
           == p.y + ts.kps[10 * k + 2 * j + 1] * stride
    {
      LandmarkBack(p, ts.kps[k * 10..], stride, f, j);
    }
  }

  lemma DetectionRegresses(g: Grid, ts: Tensors, f: Frame, k: nat)
    requires g.Valid() && ts.Holds(g.Count()) && f.scale != 0.0 && k < g.Count()
    ensures Regresses(DetectionAt(g, ts, f, k), g, ts, f, k)
  {
    FlatOnto(g, k);
    var p := AnchorPoint(g, k);
    BoxFrom(ts, k, p, g.stride as real, f);
    LandmarksFrom(ts, k, p, g.stride as real, f);
    assert RegressesFrom(DetectionAt(g, ts, f, k), g, ts, f, k, RowOf(g, k), ColOf(g, k));
    assert IsCell(g, RowOf(g, k), ColOf(g, k), AnchorOf(g, k), k);
  }

  /** `at` lists the positions below `n` whose score reaches the threshold, in order, and no other. */
  ghost predicate Lists(at: seq<nat>, scores: seq<real>, t: real, n: nat)
    requires n <= |scores|
  {
    && (forall i, j :: 0 <= i < j < |at| ==> at[i] < at[j])
    && (forall i :: 0 <= i < |at| ==> at[i] < n && scores[at[i]] >= t)
    && (forall k :: 0 <= k < n && scores[k] >= t ==> k in at)
  }

  function Reaching(scores: seq<real>, t: real, n: nat): seq<nat>
    requires n <= |scores|
  {
    if n == 0 then [] else Reaching(scores, t, n - 1) + (if scores[n - 1] < t then [] else [n - 1])
  }

  lemma {:induction false} ReachingBelow(scores: seq<real>, t: real, n: nat, i: nat)
    requires n <= |scores| && i < |Reaching(scores, t, n)|
    ensures var at := Reaching(scores, t, n);
            at[i] < n && scores[at[i]] >= t && forall j :: 0 <= j < i ==> at[j] < at[i]
  {
    var before := Reaching(scores, t, n - 1);
    if i < |before| {
      ReachingBelow(scores, t, n - 1, i);
    } else {
      forall j | 0 <= j < i ensures before[j] < n - 1 {
        ReachingBelow(scores, t, n - 1, j);
      }
    }
  }

  lemma {:induction false} ReachingAll(scores: seq<real>, t: real, n: nat, k: nat)
    requires n <= |scores| && k < n && scores[k] >= t
    ensures k in Reaching(scores, t, n)
  {
    if k < n - 1 { ReachingAll(scores, t, n - 1, k); }
  }

  lemma ReachingLists(scores: seq<real>, t: real, n: nat)
    requires n <= |scores|
    ensures Lists(Reaching(scores, t, n), scores, t, n)
  {
    var at := Reaching(scores, t, n);
    forall i | 0 <= i < |at|
      ensures at[i] < n && scores[at[i]] >= t && forall j :: 0 <= j < i ==> at[j] < at[i]
    {
      ReachingBelow(scores, t, n, i);
    }
    forall k | 0 <= k < n && scores[k] >= t ensures k in at {
      ReachingAll(scores, t, n, k);
    }
  }

  lemma {:induction false} DecodedLength(g: Grid, ts: Tensors, t: real, f: Frame, n: nat)
    requires g.Valid() && n <= g.Count() && ts.Holds(g.Count()) && f.scale != 0.0
    ensures |Decoded(g, ts, t, f, n)| == |Reaching(ts.scores, t, n)|
  {
    if n > 0 { DecodedLength(g, ts, t, f, n - 1); }
  }

  lemma {:induction false} DecodedEntry(g: Grid, ts: Tensors, t: real, f: Frame, n: nat, i: nat)
    requires g.Valid() && n <= g.Count() && ts.Holds(g.Count()) && f.scale != 0.0
    requires i < |Reaching(ts.scores, t, n)|
    ensures i < |Decoded(g, ts, t, f, n)| && Reaching(ts.scores, t, n)[i] < n
    ensures Decoded(g, ts, t, f, n)[i] == DetectionAt(g, ts, f, Reaching(ts.scores, t, n)[i])
  {
    DecodedLength(g, ts, t, f, n - 1);
    ReachingBelow(ts.scores, t, n, i);
    if i < |Reaching(ts.scores, t, n - 1)| { DecodedEntry(g, ts, t, f, n - 1, i); }
  }

  /** One detection for each listed anchor, regressed from its own cell with its own tensor entries. */
  ghost predicate AllRegress(ds: seq<FaceDetection>, g: Grid, ts: Tensors, f: Frame, at: seq<nat>)
    requires g.stride > 0
  {
    && |ds| == |at|
    && forall i :: 0 <= i < |at| ==>
        && at[i] < |ts.scores| && 4 * at[i] + 4 <= |ts.bboxes| && 10 * at[i] + 10 <= |ts.kps|
        && Regresses(ds[i], g, ts, f, at[i])
  }

  /** The detections are those of some list of exactly the anchors that reach the threshold. */
  ghost predicate IsDecoding(ds: seq<FaceDetection>, g: Grid, ts: Tensors, t: real, f: Frame)
    requires g.Valid() && ts.Holds(g.Count())
  {
    exists at :: Lists(at, ts.scores, t, g.Count()) && AllRegress(ds, g, ts, f, at)
  }

  /**
   What decoding appends: one detection for each anchor whose score reaches the threshold, in
   flat order, and no other.
   */
  lemma DecodeMeans(g: Grid, ts: Tensors, t: real, f: Frame) returns (at: seq<nat>)
    requires g.Valid() && ts.Holds(g.Count()) && f.scale != 0.0
    ensures Lists(at, ts.scores, t, g.Count()) && AllRegress(Decode(g, ts, t, f), g, ts, f, at)
  {
    at := Reaching(ts.scores, t, g.Count());
    ReachingLists(ts.scores, t, g.Count());
    DecodedLength(g, ts, t, f, g.Count());
    forall i | 0 <= i < |at| ensures Regresses(Decode(g, ts, t, f)[i], g, ts, f, at[i]) {
      DecodedEntry(g, ts, t, f, g.Count(), i);
      DetectionRegresses(g, ts, f, at[i]);
    }
  }
}
