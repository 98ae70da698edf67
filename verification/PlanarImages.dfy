/** Interleaved BGR bytes to planar, normalized RGB. */
module PlanarImages {
  import opened Outcomes
  import opened Arithmetic
  import opened Letterboxing

  const PIXEL_MEAN := 127.5

  function Normalized(v: byte, scale: real): real
    requires scale != 0.0
  {
    (v as real - PIXEL_MEAN) / scale
  }

  // ------------------------------------------------------------------ layout

  /** Row-major number of pixel (y, x). */
  function PixelNo(cols: nat, y: nat, x: nat): nat { y * cols + x }

  /** Start of plane `c` when a plane has `n` cells. */
  function Plane(n: nat, c: nat): nat { if c == 0 then 0 else if c == 1 then n else 2 * n }

  lemma PixelInside(rows: nat, cols: nat, y: nat, x: nat)
    requires y < rows && x < cols
    ensures PixelNo(cols, y, x) < rows * cols
  {
    RowStep(y, rows, cols);
  }

  lemma PixelInjective(cols: nat, y: nat, x: nat, y': nat, x': nat)
    requires x < cols && x' < cols && PixelNo(cols, y, x) == PixelNo(cols, y', x')
    ensures y == y' && x == x'
  {
    RowStep(y, y', cols);
    RowStep(y', y, cols);
  }

  lemma RowColumn(rows: nat, cols: nat, p: nat)
    requires p < rows * cols
    ensures cols > 0 && p / cols < rows && p % cols < cols && PixelNo(cols, p / cols, p % cols) == p
  {
    assert cols > 0;
    assert p == p / cols * cols + p % cols;
    RowStep(rows, p / cols, cols);
  }

  /**
   Planes, rows and columns are in bijection with the 3 * rows * cols destination cells:
   none is written twice, none is skipped.
   */
  lemma CellInjective(rows: nat, cols: nat, c: nat, y: nat, x: nat, c': nat, y': nat, x': nat)
    requires c < 3 && y < rows && x < cols && c' < 3 && y' < rows && x' < cols
    requires Plane(rows * cols, c) + PixelNo(cols, y, x) == Plane(rows * cols, c') + PixelNo(cols, y', x')
    ensures c == c' && y == y' && x == x'
  {
    PixelInside(rows, cols, y, x);
    PixelInside(rows, cols, y', x');
    PlanesApart(rows * cols, c, PixelNo(cols, y, x), c', PixelNo(cols, y', x'));
    PixelInjective(cols, y, x, y', x');
  }

  lemma PlanesApart(n: nat, c: nat, p: nat, c': nat, p': nat)
    requires c < 3 && c' < 3 && p < n && p' < n && Plane(n, c) + p == Plane(n, c') + p'
    ensures c == c' && p == p'
  {}

  lemma CellOnto(rows: nat, cols: nat, k: nat) returns (c: nat, y: nat, x: nat)
    requires k < 3 * (rows * cols)
    ensures c < 3 && y < rows && x < cols && Plane(rows * cols, c) + PixelNo(cols, y, x) == k
  {
    var n := rows * cols;
    c := PlaneOf(n, k);
    RowColumn(rows, cols, k - Plane(n, c));
    y, x := (k - Plane(n, c)) / cols, (k - Plane(n, c)) % cols;
  }

  /** The plane that cell `k` belongs to. */
  function PlaneOf(n: nat, k: nat): (c: nat)
    requires k < 3 * n
    ensures c < 3 && Plane(n, c) <= k < Plane(n, c) + n
  {
    if k < n then 0 else if k < 2 * n then 1 else 2
  }

  /** The `p`-th pixel in row-major order. */
  function PixelAt(img: Image, p: nat): Pixel
    requires img.Valid() && p < img.rows * img.cols
  {
    RowColumn(img.rows, img.cols, p);
    img.data[p / img.cols][p % img.cols]
  }

  lemma PixelAtNo(img: Image, y: nat, x: nat)
    requires img.Valid() && y < img.rows && x < img.cols
    ensures PixelNo(img.cols, y, x) < img.rows * img.cols
    ensures PixelAt(img, PixelNo(img.cols, y, x)) == img.data[y][x]
  {
    PixelInside(img.rows, img.cols, y, x);
    var p := PixelNo(img.cols, y, x);
    RowColumn(img.rows, img.cols, p);
    PixelInjective(img.cols, p / img.cols, p % img.cols, y, x);
  }

  // ----------------------------------------------------------- specification

  /** What plane `c` takes from a BGR pixel: plane 0 is red, plane 2 is blue. */
  function Component(px: Pixel, c: nat): byte { if c == 0 then px.r else if c == 1 then px.g else px.b }

  /** The three cells of one pixel. */
  ghost predicate HoldsPixel(px: Pixel, n: nat, scale: real, dst: seq<real>, base: nat, p: nat)
    requires scale != 0.0 && p < n && base + 3 * n <= |dst|
  {
    forall c :: 0 <= c < 3 ==> dst[base + Plane(n, c) + p] == Normalized(Component(px, c), scale)
  }

  /** The first `m` pixels of an image, in planar form from `base` on. */
  ghost predicate HoldsFirst(img: Image, scale: real, dst: seq<real>, base: nat, m: nat)
    requires img.Valid() && scale != 0.0
    requires m <= img.rows * img.cols && base + 3 * (img.rows * img.cols) <= |dst|
  {
    forall p :: 0 <= p < m ==> HoldsPixel(PixelAt(img, p), img.rows * img.cols, scale, dst, base, p)
  }

  ghost predicate HoldsPlanar(img: Image, scale: real, dst: seq<real>, base: nat)
    requires img.Valid() && scale != 0.0 && base + 3 * (img.rows * img.cols) <= |dst|
  {
    HoldsFirst(img, scale, dst, base, img.rows * img.cols)
  }

  // -------------------------------------------------------------- conversion

  /** One pixel: three stores. */
  method WritePixel(px: Pixel, n: nat, scale: real, dst: array<real>, base: nat, p: nat)
    requires scale != 0.0 && p < n && base + 3 * n <= dst.Length
    modifies dst
    ensures HoldsPixel(px, n, scale, dst[..], base, p)
    ensures forall k :: 0 <= k < dst.Length && k != base + p && k != base + n + p && k != base + 2 * n + p ==>
      dst[k] == old(dst[k])
  {
    dst[base + 0 * n + p] := (px.r as real - PIXEL_MEAN) / scale;
    dst[base + 1 * n + p] := (px.g as real - PIXEL_MEAN) / scale;
    dst[base + 2 * n + p] := (px.b as real - PIXEL_MEAN) / scale;
  }

  /** The stores of one pixel leave the cells of every other pixel alone. */
  lemma OtherPixel(px: Pixel, n: nat, scale: real, a: seq<real>, b: seq<real>, base: nat, p: nat, q: nat)
    requires scale != 0.0 && base + 3 * n <= |a| == |b| && p < n && q < n && p != q
    requires HoldsPixel(px, n, scale, a, base, q)
    requires forall k :: 0 <= k < |a| && k != base + p && k != base + n + p && k != base + 2 * n + p ==> b[k] == a[k]
    ensures HoldsPixel(px, n, scale, b, base, q)
  {}

  lemma FirstStep(img: Image, scale: real, a: seq<real>, b: seq<real>, base: nat, p: nat, n: nat)
    requires img.Valid() && scale != 0.0 && n == img.rows * img.cols && p < n && base + 3 * n <= |a| == |b|
    requires HoldsFirst(img, scale, a, base, p) && HoldsPixel(PixelAt(img, p), n, scale, b, base, p)
    requires forall k :: 0 <= k < |a| && k != base + p && k != base + n + p && k != base + 2 * n + p ==> b[k] == a[k]
    ensures HoldsFirst(img, scale, b, base, p + 1)
  {
    forall q | 0 <= q < p ensures HoldsPixel(PixelAt(img, q), n, scale, b, base, q) {
      OtherPixel(PixelAt(img, q), n, scale, a, b, base, p, q);
    }
  }

  /** The conversion loop, into a slice of a larger buffer. */
  method WritePlanar(img: Image, scale: real, dst: array<real>, base: nat)
    requires img.Valid() && scale != 0.0
    requires base + 3 * (img.rows * img.cols) <= dst.Length
    modifies dst
    ensures HoldsPlanar(img, scale, dst[..], base)
    ensures forall k :: 0 <= k < base || base + 3 * (img.rows * img.cols) <= k < dst.Length ==> dst[k] == old(dst[k])
  {
    var channelStride := img.rows * img.cols;
    for y := 0 to img.rows
      invariant y * img.cols <= channelStride
      invariant HoldsFirst(img, scale, dst[..], base, y * img.cols)
      invariant forall k :: 0 <= k < base || base + 3 * channelStride <= k < dst.Length ==> dst[k] == old(dst[k])
    {
      RowStep(y, img.rows, img.cols);
      for x := 0 to img.cols
        invariant HoldsFirst(img, scale, dst[..], base, y * img.cols + x)
        invariant forall k :: 0 <= k < base || base + 3 * channelStride <= k < dst.Length ==> dst[k] == old(dst[k])
      {
        PixelAtNo(img, y, x);
        var idx := y * img.cols + x;
        ghost var before := dst[..];
        WritePixel(img.data[y][x], channelStride, scale, dst, base, idx);
        FirstStep(img, scale, before, dst[..], base, idx, channelStride);
      }
      assert y * img.cols + img.cols == (y + 1) * img.cols;
    }
  }

  const SCRFD_SCALE := 128.0

  /** `hwc_bgr_to_chw_rgb_normalized` */
  method HwcBgrToChwRgb(src: Image, dst: array<real>) returns (r: Result<()>)
    requires src.Valid() && 3 * (src.rows * src.cols) <= dst.Length
    modifies dst
    ensures r.Err? <==> src.kind != Bgr8
    ensures r.Err? ==> r.error == InvalidArgument && dst[..] == old(dst[..])
    ensures r.Ok? ==> HoldsPlanar(src, SCRFD_SCALE, dst[..], 0)
    ensures r.Ok? ==> dst[..3 * (src.rows * src.cols)] == Planar(src, SCRFD_SCALE)
    ensures r.Ok? ==> forall k :: 3 * (src.rows * src.cols) <= k < dst.Length ==> dst[k] == old(dst[k])
  {
    if src.kind != Bgr8 {
      return Err(InvalidArgument);
    }
    WritePlanar(src, SCRFD_SCALE, dst, 0);
    PlanarSlice(src, SCRFD_SCALE, dst[..], 0, src.rows * src.cols);
    return Ok(());
  }

  // ------------------------------------------------------------ main results

  /** The planar form as one value. */
  function PlanarCell(img: Image, scale: real, k: nat): real
    requires img.Valid() && scale != 0.0 && k < 3 * (img.rows * img.cols)
  {
    var n := img.rows * img.cols;
    var c := PlaneOf(n, k);
    Normalized(Component(PixelAt(img, k - Plane(n, c)), c), scale)
  }

  function Planar(img: Image, scale: real): seq<real>
    requires img.Valid() && scale != 0.0
  {
    seq(3 * (img.rows * img.cols), k requires 0 <= k < 3 * (img.rows * img.cols) => PlanarCell(img, scale, k))
  }

  /** A buffer that holds an image holds its planar form and nothing else: no cell is left over. */
  lemma PlanarSlice(img: Image, scale: real, dst: seq<real>, base: nat, n: nat)
    requires img.Valid() && scale != 0.0 && n == img.rows * img.cols && base + 3 * n <= |dst|
    requires HoldsPlanar(img, scale, dst, base)
    ensures dst[base..base + 3 * n] == Planar(img, scale)
  {
    forall k | 0 <= k < 3 * n ensures dst[base + k] == PlanarCell(img, scale, k) {
      var c := PlaneOf(n, k);
      var p := k - Plane(n, c);
      assert HoldsPixel(PixelAt(img, p), n, scale, dst, base, p);
      assert dst[base + Plane(n, c) + p] == Normalized(Component(PixelAt(img, p), c), scale);
    }
  }

  /** What the cells of pixel (y, x) hold: its red, green and blue, each less 127.5 and divided by the scale. */
  lemma PlanarMeans(img: Image, scale: real, y: nat, x: nat, n: nat, k: nat)
    requires img.Valid() && scale != 0.0 && y < img.rows && x < img.cols
    requires n == img.rows * img.cols && k == y * img.cols + x
    ensures k < n
    ensures Planar(img, scale)[k] == (img.data[y][x].r as real - 127.5) / scale
    ensures Planar(img, scale)[n + k] == (img.data[y][x].g as real - 127.5) / scale
    ensures Planar(img, scale)[2 * n + k] == (img.data[y][x].b as real - 127.5) / scale
  {
    PixelAtNo(img, y, x);
    PlanarAt(img, scale, n, k, 0);
    PlanarAt(img, scale, n, k, 1);
    PlanarAt(img, scale, n, k, 2);
  }

  /** The detector's input: the scale is 128, so that 0 becomes -0.99609375 and 255 its opposite. */
  lemma ScrfdPixels(img: Image, y: nat, x: nat, n: nat, k: nat)
    requires img.Valid() && y < img.rows && x < img.cols
    requires n == img.rows * img.cols && k == y * img.cols + x
    ensures k < n
    ensures Planar(img, SCRFD_SCALE)[k] == (img.data[y][x].r as real - 127.5) / 128.0
    ensures img.data[y][x].b == 0 ==> Planar(img, SCRFD_SCALE)[2 * n + k] == -0.99609375
    ensures img.data[y][x].b == 255 ==> Planar(img, SCRFD_SCALE)[2 * n + k] == 0.99609375
  {
    PlanarMeans(img, SCRFD_SCALE, y, x, n, k);
  }

  function Denormalized(v: real, scale: real): byte {
    var x := (v * scale + PIXEL_MEAN).Floor;
    if 0 <= x < 256 then x else 0
  }

  lemma DenormalizedRoundTrip(v: byte, scale: real)
    requires scale != 0.0
    ensures Denormalized(Normalized(v, scale), scale) == v
  {
    assert Normalized(v, scale) * scale + PIXEL_MEAN == v as real;
  }

  /** The inverse conversion of one pixel, and of a whole buffer. */
  function PixelFrom(s: seq<real>, n: nat, p: nat, scale: real): Pixel
    requires |s| == 3 * n && p < n
  {
    Pixel(Denormalized(s[2 * n + p], scale), Denormalized(s[n + p], scale), Denormalized(s[p], scale))
  }

  function FromPlanar(s: seq<real>, rows: nat, cols: nat, scale: real): Image
    requires |s| == 3 * (rows * cols)
  {
    Image(Bgr8, rows, cols, seq(rows, y requires 0 <= y < rows => seq(cols, x requires 0 <= x < cols =>
      PixelInside(rows, cols, y, x);
      PixelFrom(s, rows * cols, PixelNo(cols, y, x), scale))))
  }

  lemma PlanarAt(img: Image, scale: real, n: nat, p: nat, c: nat)
    requires img.Valid() && scale != 0.0 && n == img.rows * img.cols && p < n && c < 3
    ensures Planar(img, scale)[Plane(n, c) + p] == Normalized(Component(PixelAt(img, p), c), scale)
  {
    assert PlaneOf(n, Plane(n, c) + p) == c;
  }

  lemma PixelRoundTrip(img: Image, scale: real, n: nat, p: nat)
    requires img.Valid() && scale != 0.0 && n == img.rows * img.cols && p < n
    ensures PixelFrom(Planar(img, scale), n, p, scale) == PixelAt(img, p)
  {
    var px := PixelAt(img, p);
    DenormalizedRoundTrip(px.r, scale);
    DenormalizedRoundTrip(px.g, scale);
    DenormalizedRoundTrip(px.b, scale);
    PlanarAt(img, scale, n, p, 0);
    PlanarAt(img, scale, n, p, 1);
    PlanarAt(img, scale, n, p, 2);
  }

  /** The conversion loses nothing: the whole image comes back. */
  lemma PlanarRoundTrip(img: Image, scale: real)
    requires img.Valid() && img.kind == Bgr8 && scale != 0.0
    ensures FromPlanar(Planar(img, scale), img.rows, img.cols, scale) == img
  {
    var back := FromPlanar(Planar(img, scale), img.rows, img.cols, scale);
    forall y | 0 <= y < img.rows ensures back.data[y] == img.data[y] {
      forall x | 0 <= x < img.cols ensures back.data[y][x] == img.data[y][x] {
        PixelAtNo(img, y, x);
        PixelRoundTrip(img, scale, img.rows * img.cols, PixelNo(img.cols, y, x));
      }
    }
  }

  /** Every cell lies in [-1, 1] for a scale of at least the mean. */
  lemma PlanarRange(img: Image, scale: real, k: nat)
    requires img.Valid() && scale >= PIXEL_MEAN && k < 3 * (img.rows * img.cols)
    ensures -1.0 <= Planar(img, scale)[k] <= 1.0
  {
    var n := img.rows * img.cols;
    NormalizedRange(Component(PixelAt(img, k - Plane(n, PlaneOf(n, k))), PlaneOf(n, k)), scale);
  }

  lemma NormalizedRange(v: byte, scale: real)
    requires scale >= PIXEL_MEAN
    ensures -1.0 <= Normalized(v, scale) <= 1.0
  {
    var z := Normalized(v, scale);
    assert z * scale == v as real - PIXEL_MEAN;
    assert z > 1.0 ==> (z - 1.0) * scale > 0.0;
    assert z < -1.0 ==> (-1.0 - z) * scale > 0.0;
  }
}
