/** Images, and the letterbox that fits one into the detector's canvas. */
module Letterboxing {
  import opened Outcomes
  import opened Arithmetic
  import opened Geometry

  // ------------------------------------------------------------------ images

  type byte = x: int | 0 <= x < 256

  /** One `cv::Vec3b`, in OpenCV's channel order. */
  datatype Pixel = Pixel(b: byte, g: byte, r: byte)

  const BLACK := Pixel(0, 0, 0)

  /** `cv::Mat::type()`, as far as the code distinguishes it. */
  datatype MatType = Bgr8 | OtherType

  datatype Image = Image(kind: MatType, rows: nat, cols: nat, data: seq<seq<Pixel>>) {
    ghost predicate Valid() {
      |data| == rows && forall y :: 0 <= y < rows ==> |data[y]| == cols
    }

    predicate Empty() { rows == 0 || cols == 0 }
  }

  type Resize = (Image, nat, nat) -> Image

  /** `cv::resize`: any interpolation that honours the requested size and the type. */
  ghost predicate IsResize(resize: Resize) {
    forall src: Image, w, h {:trigger resize(src, w, h)} ::
      var out := resize(src, w, h);
      out.Valid() && out.kind == src.kind && out.cols == w && out.rows == h
  }

  // ------------------------------------------------------- coordinate change

  /** What maps letterboxed coordinates back: scale and left/top padding. */
  datatype Frame = Frame(scale: real, padX: int, padY: int)

  const IDENTITY_FRAME := Frame(1.0, 0, 0)

  function UndoLetterbox(x: real, y: real, f: Frame): Point
    requires f.scale != 0.0
  {
    Point((x - f.padX as real) / f.scale, (y - f.padY as real) / f.scale)
  }

  function DoLetterbox(p: Point, f: Frame): Point {
    Point(p.x * f.scale + f.padX as real, p.y * f.scale + f.padY as real)
  }

  lemma CoordinateRoundTrip(p: Point, f: Frame)
    requires f.scale != 0.0
    ensures var q := DoLetterbox(p, f); UndoLetterbox(q.x, q.y, f) == p
    ensures DoLetterbox(UndoLetterbox(p.x, p.y, f), f) == p
  {}

  // -------------------------------------------------------------- arithmetic

  /** `std::round`: to the nearest integer, halves away from zero. */
  function Round(x: real): int {
    if x >= 0.0 then (x + 0.5).Floor else -((-x + 0.5).Floor)
  }

  function Min(x: real, y: real): real { if y < x then y else x }

  function FitScale(cols: nat, rows: nat, targetW: nat, targetH: nat): real
    requires cols > 0 && rows > 0
  {
    Min(targetW as real / cols as real, targetH as real / rows as real)
  }

  /** One dimension of the fit: the side of the resized content, and the padding before it. */
  function ContentSide(side: nat, r: real): int { Round(side as real * r) }

  /** C++ integer halving of the leftover, truncating toward zero. */
  function PadBefore(target: int, content: int): int {
    if target >= content then (target - content) / 2 else -((content - target) / 2)
  }

  lemma RoundedSide(x: real, target: nat)
    requires 0.0 <= x <= target as real
    ensures 0 <= Round(x) <= target
    ensures x == target as real ==> Round(x) == target
    ensures Round(x) == 0 <==> x < 0.5
    ensures -0.5 <= Round(x) as real - x <= 0.5
  {
    var k := (x + 0.5).Floor;
    assert k as real <= x + 0.5 < k as real + 1.0;
  }

  lemma ScaledSide(side: nat, target: nat, r: real)
    requires side > 0 && target > 0
    requires 0.0 < r <= target as real / side as real
    ensures 0 <= ContentSide(side, r) <= target
    ensures r == target as real / side as real ==> ContentSide(side, r) == target
    ensures ContentSide(side, r) == 0 <==> side as real * r < 0.5
    ensures -0.5 <= ContentSide(side, r) as real - side as real * r <= 0.5
  {
    ScaledWithin(side as real, target as real, r);
    RoundedSide(side as real * r, target);
  }

  lemma ScaledWithin(s: real, t: real, r: real)
    requires s > 0.0 && 0.0 < r <= t / s
    ensures 0.0 < s * r <= t && (r == t / s ==> s * r == t)
  {
    var q := t / s;
    assert s * q == t;
    PositiveProduct(s, r);
    PositiveProduct(s, q - r);
    assert s * (q - r) == s * q - s * r;
  }

  /** Both dimensions of the fit, and when one of them vanishes, in integers. */
  lemma FitGeometry(cols: nat, rows: nat, targetW: nat, targetH: nat)
    requires cols > 0 && rows > 0 && targetW > 0 && targetH > 0
    ensures var r := FitScale(cols, rows, targetW, targetH);
            var w, h := ContentSide(cols, r), ContentSide(rows, r);
            && r > 0.0
            && 0 <= w <= targetW && 0 <= h <= targetH
            && (w == targetW || h == targetH)
            && (w == 0 <==> 2 * (cols * targetH) < rows)
            && (h == 0 <==> 2 * (rows * targetW) < cols)
  {
    var r := FitScale(cols, rows, targetW, targetH);
    var x, y := targetW as real / cols as real, targetH as real / rows as real;
    assert x > 0.0 && y > 0.0;
    ScaledSide(cols, targetW, r);
    ScaledSide(rows, targetH, r);
    VanishingSide(cols, rows, targetW, targetH, x, y, r);
    VanishingSide(rows, cols, targetH, targetW, y, x, r);
  }

  /** A side vanishes exactly when the other side forces the scale that far down. */
  lemma VanishingSide(c: nat, q: nat, tw: nat, th: nat, x: real, y: real, r: real)
    requires c > 0 && q > 0 && tw > 0 && th > 0
    requires x == tw as real / c as real && y == th as real / q as real && r == Min(x, y)
    ensures c as real * r < 0.5 <==> 2 * (c * th) < q
  {
    MinScaled(c as real, x, y);
    assert c as real * x == tw as real;
    assert y * q as real == th as real;
    Regroup(c as real, y, q as real, th as real);
    CastProduct(c, th);
    SmallerSide(tw as real, c as real * y, c as real * r, q as real, (c * th) as real);
  }

  lemma Regroup(c: real, y: real, q: real, t: real)
    requires y * q == t
    ensures c * y * q == c * t
  {}

  lemma MinScaled(c: real, x: real, y: real)
    requires c > 0.0
    ensures c * Min(x, y) == Min(c * x, c * y)
  {
    assert x < y ==> c * (y - x) > 0.0;
    assert y < x ==> c * (x - y) > 0.0;
  }

  lemma SmallerSide(cx: real, cy: real, cr: real, q: real, v: real)
    requires cx >= 1.0 && q > 0.0 && cy * q == v && cr == Min(cx, cy)
    ensures cr < 0.5 <==> 2.0 * v < q
  {
    BelowHalf(cy, q, v);
  }

  lemma CastProduct(x: nat, y: nat)
    ensures (x * y) as real == x as real * y as real
  {}

  lemma BelowHalf(u: real, q: real, v: real)
    requires q > 0.0 && u * q == v
    ensures u < 0.5 <==> 2.0 * v < q
  {
    if u < 0.5 { assert (0.5 - u) * q > 0.0; } else { assert (u - 0.5) * q >= 0.0; }
  }

  // --------------------------------------------------------------- letterbox

  datatype LetterboxResult = LetterboxResult(image: Image, frame: Frame)

  function FrameOf(src: Image, targetW: int, targetH: int): Frame
    requires !src.Empty() && targetW > 0 && targetH > 0
  {
    var r := FitScale(src.cols, src.rows, targetW, targetH);
    Frame(r, PadBefore(targetW, ContentSide(src.cols, r)), PadBefore(targetH, ContentSide(src.rows, r)))
  }

  /** Why `letterbox` throws, if it does: the last case is `cv::resize` refusing a zero side. */
  function LetterboxFailure(src: Image, targetW: int, targetH: int): Option<Exception> {
    if src.Empty() || targetW <= 0 || targetH <= 0 then Some(InvalidArgument)
    else if 2 * (src.cols * targetH) < src.rows || 2 * (src.rows * targetW) < src.cols then Some(CvException)
    else None
  }

  /** The canvas: `content` with its top-left corner at the padding, black elsewhere. */
  ghost predicate IsCanvas(out: Image, content: Image, f: Frame)
    requires out.Valid() && content.Valid()
  {
    forall y, x :: 0 <= y < out.rows && 0 <= x < out.cols ==>
      out.data[y][x] == if 0 <= y - f.padY < content.rows && 0 <= x - f.padX < content.cols
                        then content.data[y - f.padY][x - f.padX] else BLACK
  }

  /** The canvas as one value. */
  function Canvas(rows: nat, cols: nat, content: Image, f: Frame): (out: Image)
    requires content.Valid()
    ensures out.Valid() && out.kind == content.kind && out.rows == rows && out.cols == cols
    ensures IsCanvas(out, content, f)
  {
    var data := seq(rows, y requires 0 <= y < rows => seq(cols, x requires 0 <= x < cols =>
      if 0 <= y - f.padY < content.rows && 0 <= x - f.padX < content.cols
      then content.data[y - f.padY][x - f.padX] else BLACK));
    Image(content.kind, rows, cols, data)
  }

  lemma CanvasUnique(a: Image, b: Image, content: Image, f: Frame)
    requires a.Valid() && b.Valid() && content.Valid()
    requires a.kind == b.kind && a.rows == b.rows && a.cols == b.cols
    requires IsCanvas(a, content, f) && IsCanvas(b, content, f)
    ensures a == b
  {
    forall y | 0 <= y < a.rows ensures a.data[y] == b.data[y] {
      assert forall x :: 0 <= x < a.cols ==> a.data[y][x] == b.data[y][x];
    }
  }

  /** The letterboxed image and its frame as one value. */
  function LetterboxOf(src: Image, targetW: int, targetH: int, resize: Resize): (out: LetterboxResult)
    requires IsResize(resize) && LetterboxFailure(src, targetW, targetH) == None
    ensures out.frame == FrameOf(src, targetW, targetH) && out.frame.scale > 0.0
    ensures out.image.Valid() && out.image.kind == src.kind && out.image.cols == targetW && out.image.rows == targetH
  {
    FitGeometry(src.cols, src.rows, targetW, targetH);
    var f := FrameOf(src, targetW, targetH);
    var content := resize(src, ContentSide(src.cols, f.scale), ContentSide(src.rows, f.scale));
    LetterboxResult(Canvas(targetH, targetW, content, f), f)
  }

  /** The pixels of a canvas as rows. */
  function Rows(canvas: array2<Pixel>): (data: seq<seq<Pixel>>)
    reads canvas
    ensures |data| == canvas.Length0
    ensures forall y :: 0 <= y < |data| ==> |data[y]| == canvas.Length1
    ensures forall y, x :: 0 <= y < |data| && 0 <= x < canvas.Length1 ==> data[y][x] == canvas[y, x]
  {
    seq(canvas.Length0, y requires 0 <= y < canvas.Length0 reads canvas =>
      seq(canvas.Length1, x requires 0 <= x < canvas.Length1 reads canvas => canvas[y, x]))
  }

  /** A zero-filled canvas with the content copied into its region of interest. */
  method Draw(rows: nat, cols: nat, content: Image, f: Frame) returns (image: Image)
    requires content.Valid()
    requires 0 <= f.padX <= cols - content.cols && 0 <= f.padY <= rows - content.rows
    ensures image == Canvas(rows, cols, content, f)
  {
    var out := new Pixel[rows, cols]((y, x) => BLACK);
    forall y, x | 0 <= y < content.rows && 0 <= x < content.cols {
      out[f.padY + y, f.padX + x] := content.data[y][x];
    }
    image := Image(content.kind, rows, cols, Rows(out));
    forall y, x | 0 <= y < rows && 0 <= x < cols
      ensures image.data[y][x] == if 0 <= y - f.padY < content.rows && 0 <= x - f.padX < content.cols
                                  then content.data[y - f.padY][x - f.padX] else BLACK
    {
      assert image.data[y][x] == out[y, x];
    }
    CanvasUnique(image, Canvas(rows, cols, content, f), content, f);
  }

  lemma LetterboxFit(src: Image, targetW: int, targetH: int)
    requires !src.Empty() && targetW > 0 && targetH > 0
    ensures var f := FrameOf(src, targetW, targetH);
            var w, h := ContentSide(src.cols, f.scale), ContentSide(src.rows, f.scale);
            && 0 <= w && 0 <= h && 0 <= f.padX <= targetW - w && 0 <= f.padY <= targetH - h
            && (w == 0 || h == 0 <==> LetterboxFailure(src, targetW, targetH) == Some(CvException))
            && (w != 0 && h != 0 <==> LetterboxFailure(src, targetW, targetH) == None)
  {
    FitGeometry(src.cols, src.rows, targetW, targetH);
  }

  /** `k` is the integer nearest to `x`, the larger of two. */
  predicate IsNearest(k: int, x: real) { k as real - 0.5 <= x < k as real + 0.5 }

  /** The largest scale at which the source fits the target, and the content at that scale. */
  predicate FitsAt(src: Image, targetW: int, targetH: int, r: real, w: int, h: int) {
    && r > 0.0
    && src.cols as real * r <= targetW as real && src.rows as real * r <= targetH as real
    && (src.cols as real * r == targetW as real || src.rows as real * r == targetH as real)
    && IsNearest(w, src.cols as real * r) && IsNearest(h, src.rows as real * r)
  }

  /** The content in the middle, rounded up and left, and zeros in all three channels around it. */
  ghost predicate Surrounded(out: Image, content: Image, padX: int, padY: int)
    requires out.Valid() && content.Valid()
  {
    && 0 <= 2 * padX <= out.cols - content.cols <= 2 * padX + 1
    && 0 <= 2 * padY <= out.rows - content.rows <= 2 * padY + 1
    && forall y, x :: 0 <= y < out.rows && 0 <= x < out.cols ==>
        out.data[y][x] == if padY <= y < padY + content.rows && padX <= x < padX + content.cols
                          then content.data[y - padY][x - padX] else Pixel(0, 0, 0)
  }

  /** What a letterboxed image is, for content of `w` by `h` pixels. */
  ghost predicate IsLetterboxBy(src: Image, targetW: int, targetH: int, resize: Resize, out: LetterboxResult,
                                w: nat, h: nat)
    requires IsResize(resize)
  {
    && out.image.Valid() && out.image.kind == src.kind
    && out.image.cols == targetW && out.image.rows == targetH
    && FitsAt(src, targetW, targetH, out.frame.scale, w, h)
    && Surrounded(out.image, resize(src, w, h), out.frame.padX, out.frame.padY)
  }

  ghost predicate IsLetterbox(src: Image, targetW: int, targetH: int, resize: Resize, out: LetterboxResult)
    requires IsResize(resize)
  {
    exists w: nat, h: nat :: IsLetterboxBy(src, targetW, targetH, resize, out, w, h)
  }

  lemma SideFits(side: nat, target: nat, r: real)
    requires side > 0 && target > 0 && 0.0 < r <= target as real / side as real
    ensures side as real * r <= target as real && IsNearest(ContentSide(side, r), side as real * r)
    ensures r == target as real / side as real ==> side as real * r == target as real
  {
    ScaledWithin(side as real, target as real, r);
    NearestRound(side as real * r);
  }

  lemma NearestRound(x: real)
    requires x >= 0.0
    ensures IsNearest(Round(x), x)
  {}

  lemma PositiveQuotient(x: real, y: real)
    requires x > 0.0 && y > 0.0
    ensures x / y > 0.0
  {}

  lemma ScaleIsLeast(cols: nat, rows: nat, targetW: nat, targetH: nat)
    requires cols > 0 && rows > 0 && targetW > 0 && targetH > 0
    ensures var r := FitScale(cols, rows, targetW, targetH);
            && 0.0 < r <= targetW as real / cols as real && r <= targetH as real / rows as real
            && (r == targetW as real / cols as real || r == targetH as real / rows as real)
  {
    PositiveQuotient(targetW as real, cols as real);
    PositiveQuotient(targetH as real, rows as real);
  }

  lemma FrameFits(src: Image, targetW: int, targetH: int, r: real)
    requires !src.Empty() && targetW > 0 && targetH > 0 && r == FitScale(src.cols, src.rows, targetW, targetH)
    ensures FitsAt(src, targetW, targetH, r, ContentSide(src.cols, r), ContentSide(src.rows, r))
  {
    ScaleIsLeast(src.cols, src.rows, targetW, targetH);
    SideFits(src.cols, targetW, r);
    SideFits(src.rows, targetH, r);
  }

  lemma CanvasSurrounds(out: Image, content: Image, f: Frame)
    requires out.Valid() && content.Valid() && IsCanvas(out, content, f)
    requires 0 <= f.padX <= out.cols - content.cols - f.padX <= f.padX + 1
    requires 0 <= f.padY <= out.rows - content.rows - f.padY <= f.padY + 1
    ensures Surrounded(out, content, f.padX, f.padY)
  {}

  /** The predicted result is a letterboxed image. */
  lemma LetterboxMeans(src: Image, targetW: int, targetH: int, resize: Resize)
    requires IsResize(resize) && LetterboxFailure(src, targetW, targetH) == None
    ensures IsLetterbox(src, targetW, targetH, resize, LetterboxOf(src, targetW, targetH, resize))
  {
    var out := LetterboxOf(src, targetW, targetH, resize);
    var r := out.frame.scale;
    var w, h := ContentSide(src.cols, r), ContentSide(src.rows, r);
    LetterboxFit(src, targetW, targetH);
    FrameFits(src, targetW, targetH, r);
    ContentCentered(src, targetW, targetH);
    CanvasSurrounds(out.image, resize(src, w, h), out.frame);
    assert IsLetterboxBy(src, targetW, targetH, resize, out, w, h);
  }

  /** `letterbox`: it throws exactly as predicted, and otherwise builds the predicted canvas. */
  method Letterbox(src: Image, targetW: int, targetH: int, resize: Resize)
    returns (r: Result<LetterboxResult>)
    requires IsResize(resize)
    ensures r.Err? <==> LetterboxFailure(src, targetW, targetH).Some?
    ensures r.Err? ==> LetterboxFailure(src, targetW, targetH) == Some(r.error)
    ensures r.Ok? ==> r.value == LetterboxOf(src, targetW, targetH, resize)
    ensures r.Ok? ==> IsLetterbox(src, targetW, targetH, resize, r.value)
  {
    if src.rows == 0 || src.cols == 0 {
      return Err(InvalidArgument);
    }
    if targetW <= 0 || targetH <= 0 {
      return Err(InvalidArgument);
    }
    LetterboxFit(src, targetW, targetH);
    var scale := FitScale(src.cols, src.rows, targetW, targetH);
    var newW, newH := ContentSide(src.cols, scale), ContentSide(src.rows, scale);
    if newW == 0 || newH == 0 {
      return Err(CvException);
    }
    var frame := Frame(scale, PadBefore(targetW, newW), PadBefore(targetH, newH));
    LetterboxMeans(src, targetW, targetH, resize);
    var image := Draw(targetH, targetW, resize(src, newW, newH), frame);
    return Ok(LetterboxResult(image, frame));
  }

  /**
   The content fits the canvas, fills it in at least one dimension, and is centered to
   within a pixel.
   */
  lemma ContentCentered(src: Image, targetW: int, targetH: int)
    requires !src.Empty() && targetW > 0 && targetH > 0
    ensures var f := FrameOf(src, targetW, targetH);
            var w, h := ContentSide(src.cols, f.scale), ContentSide(src.rows, f.scale);
            && 0 <= f.padX <= targetW - w - f.padX <= f.padX + 1
            && 0 <= f.padY <= targetH - h - f.padY <= f.padY + 1
            && (w == targetW || h == targetH)
  {
    FitGeometry(src.cols, src.rows, targetW, targetH);
  }

  /** Undoing the letterbox sends the content's near corner to the origin and its far corner
      to the source extents, up to half a letterboxed pixel. */
  lemma ContentEdges(src: Image, targetW: int, targetH: int)
    requires !src.Empty() && targetW > 0 && targetH > 0
    ensures var f := FrameOf(src, targetW, targetH);
            var w, h := ContentSide(src.cols, f.scale), ContentSide(src.rows, f.scale);
            && f.scale > 0.0
            && UndoLetterbox(f.padX as real, f.padY as real, f) == Point(0.0, 0.0)
            && var far := UndoLetterbox((f.padX + w) as real, (f.padY + h) as real, f);
               && -0.5 / f.scale <= far.x - src.cols as real <= 0.5 / f.scale
               && -0.5 / f.scale <= far.y - src.rows as real <= 0.5 / f.scale
  {
    var r := FitScale(src.cols, src.rows, targetW, targetH);
    ScaleIsLeast(src.cols, src.rows, targetW, targetH);
    SideEdge(src.cols, targetW, r, FrameOf(src, targetW, targetH).padX);
    SideEdge(src.rows, targetH, r, FrameOf(src, targetW, targetH).padY);
  }

  /** One dimension of that. */
  lemma SideEdge(side: nat, target: nat, r: real, pad: int)
    requires side > 0 && target > 0 && 0.0 < r <= target as real / side as real
    ensures (pad as real - pad as real) / r == 0.0
    ensures var far := ((pad + ContentSide(side, r)) as real - pad as real) / r - side as real;
            -0.5 / r <= far <= 0.5 / r
  {
    ScaledSide(side, target, r);
    FarEdge(ContentSide(side, r) as real, side as real, r);
    assert (pad + ContentSide(side, r)) as real - pad as real == ContentSide(side, r) as real;
  }

  lemma FarEdge(w: real, side: real, r: real)
    requires r > 0.0 && -0.5 <= w - side * r <= 0.5
    ensures -0.5 / r <= w / r - side <= 0.5 / r
  {
    var x := w / r - side;
    assert x * r == w - side * r;
    Divide(x, -0.5, r);
    Divide(-x, -0.5, r);
    assert 0.5 / r == -(-0.5 / r);
  }

  lemma Divide(x: real, y: real, r: real)
    requires r > 0.0 && x * r >= y
    ensures x >= y / r
  {
    var z := y / r;
    assert z * r == y;
    if x < z { assert (z - x) * r > 0.0; }
  }
}
