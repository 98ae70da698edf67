/** Inferring a stride from an anchor count: the arithmetic, and when it is right. */
module StrideInference {
  import opened Letterboxing
  import opened Arithmetic
  import opened ScrfdDecode

  // --------------------------------------------------------- stride inference

  /**
   `s` is `lround(w / sqrt(n / 2))`, without the square root: the quotient lies in
   [s - 1/2, s + 1/2), squared and cleared of denominators.
   */
  predicate IsStride(w: nat, n: nat, s: nat) {
    && (s > 0 ==> (2 * s - 1) * (2 * s - 1) * n <= 8 * (w * w))
    && 8 * (w * w) < (2 * s + 1) * (2 * s + 1) * n
  }

  function StrideFrom(w: nat, n: nat, s: nat): (r: nat)
    requires n > 0
    requires s > 0 ==> (2 * s - 1) * (2 * s - 1) * n <= 8 * (w * w)
    ensures IsStride(w, n, r)
    decreases 8 * (w * w) + 1 - s
  {
    if 8 * (w * w) < (2 * s + 1) * (2 * s + 1) * n then s
    else
      SquareGrows(s, n);
      assert 2 * (s + 1) - 1 == 2 * s + 1;
      StrideFrom(w, n, s + 1)
  }

  lemma SquareGrows(s: nat, n: nat)
    requires n > 0
    ensures (2 * s + 1) * (2 * s + 1) * n > s
  {
    assert (2 * s + 1) * (2 * s + 1) >= 2 * s + 1;
    RowStep(0, n, (2 * s + 1) * (2 * s + 1));
  }

  /** The stride inferred from an anchor count. */
  function InferStride(w: nat, n: nat): (s: nat)
    requires n > 0
    ensures IsStride(w, n, s)
  {
    StrideFrom(w, n, 0)
  }

  lemma StrideUnique(w: nat, n: nat, s: nat, s': nat)
    requires n > 0 && IsStride(w, n, s) && IsStride(w, n, s')
    ensures s == s'
  {
    if s < s' { OddSquares(s, s', n); }
    if s' < s { OddSquares(s', s, n); }
  }

  lemma OddSquares(s: nat, s': nat, n: nat)
    requires s < s'
    ensures (2 * s + 1) * (2 * s + 1) * n <= (2 * s' - 1) * (2 * s' - 1) * n
  {
    var a, b := 2 * s + 1, 2 * s' - 1;
    RowMono(a, b, a);
    RowMono(a, b, b);
    RowMono(a * a, b * b, n);
  }

  /** The integer form is the source's arithmetic: round half up of the quotient by the root. */
  lemma StrideIsRounding(w: nat, n: nat, feat: real, s: nat)
    requires n > 0 && feat > 0.0 && 2.0 * (feat * feat) == n as real
    ensures IsStride(w, n, s) <==> s == Round(w as real / feat)
  {
    var q := w as real / feat;
    assert q * feat == w as real;
    assert q >= 0.0;
    RootBound(w, n, feat, q, 2 * s + 1);
    if s > 0 { RootBound(w, n, feat, q, 2 * s - 1); }
    RoundIs(q, s);
  }

  lemma RoundIs(q: real, s: nat)
    requires q >= 0.0
    ensures Round(q) == s <==> (s > 0 ==> (2 * s - 1) as real / 2.0 <= q) && !((2 * s + 1) as real / 2.0 <= q)
  {
    assert (2 * s + 1) as real / 2.0 == s as real + 0.5 && (2 * s - 1) as real / 2.0 == s as real - 0.5;
  }

  /** The quotient reaches m/2 exactly when the integer inequality says so. */
  lemma RootBound(w: nat, n: nat, feat: real, q: real, m: nat)
    requires feat > 0.0 && 2.0 * (feat * feat) == n as real && q * feat == w as real && q >= 0.0
    ensures m * m * n <= 8 * (w * w) <==> m as real / 2.0 <= q
  {
    var z := m as real;
    var y := 2.0 * q;
    CastProduct(m, m);
    CastProduct(m * m, n);
    CastProduct(w, w);
    assert y * feat == 2.0 * w as real;
    assert 2.0 * ((2.0 * w as real) * (2.0 * w as real)) == 8.0 * (w as real * w as real);
    ScaledSquares(z, y, feat, n as real, 2.0 * w as real);
  }

  lemma ScaledSquares(x: real, y: real, f: real, n: real, v: real)
    requires f > 0.0 && x >= 0.0 && y >= 0.0 && n == 2.0 * (f * f) && v == y * f
    ensures x * x * n <= 2.0 * (v * v) <==> x <= y
  {
    var u := x * f;
    assert x * x * n == 2.0 * (u * u) by { assert u * u == x * x * (f * f); }
    ScaleOrder(x, y, f);
    PositiveProduct(x, f);
    PositiveProduct(y, f);
    SquareOrder(u, v);
  }

  lemma ScaleOrder(x: real, y: real, f: real)
    requires f > 0.0
    ensures x <= y <==> x * f <= y * f
  {
    if x <= y { PositiveProduct(y - x, f); } else { PositiveProduct(x - y, f); }
    assert (y - x) * f == y * f - x * f;
  }

  // -------------------------------------------- when the inference is right

  /** The anchors a stride emits: two per cell. */
  function AnchorsFor(w: nat, h: nat, stride: nat): nat
    requires stride > 0
  {
    Grid(stride, w, h, ANCHORS_PER_LOCATION).Count()
  }

  lemma CancelFactor(x: nat, y: nat, k: nat)
    requires k > 0
    ensures x * k <= y * k <==> x <= y
  {
    RowStep(y, x, k);
    if x <= y { RowMono(x, y, k); }
  }

  lemma AreaForm(lo: nat, mid: nat, cols: nat, rows: nat)
    requires cols > 0
    ensures lo * (2 * (cols * rows)) <= mid * (2 * (cols * cols)) <==> lo * rows <= mid * cols
  {
    AreaRegroup(lo, cols, rows);
    AreaRegroup(mid, cols, cols);
    CancelFactor(lo * rows, mid * cols, 2 * cols);
  }

  lemma AreaRegroup(k: nat, cols: nat, rows: nat)
    ensures k * (2 * (cols * rows)) == k * rows * (2 * cols)
  {}

  lemma WidthSquare(st: nat, cols: nat)
    ensures 8 * (st * cols * (st * cols)) == 4 * (st * st) * (2 * (cols * cols))
  {}

  /** Cells across and down are in a ratio between two bounds. */
  predicate InBand(lo: nat, mid: nat, hi: nat, cols: nat, rows: nat) { lo * rows <= mid * cols < hi * rows }

  /** `IsStride` for a width of `cols` cells and a count of 2 * cols * rows. */
  lemma StrideByCells(st: nat, cols: nat, rows: nat, lo: nat, mid: nat, hi: nat)
    requires st > 0 && cols > 0
    requires lo == (2 * st - 1) * (2 * st - 1) && hi == (2 * st + 1) * (2 * st + 1) && mid == 4 * (st * st)
    ensures IsStride(st * cols, 2 * (cols * rows), st) <==> InBand(lo, mid, hi, cols, rows)
  {
    WidthSquare(st, cols);
    AreaForm(lo, mid, cols, rows);
    AreaForm(hi, mid, cols, rows);
  }

  lemma ExactQuotient(st: nat, k: nat)
    requires st > 0
    ensures st * k / st == k
  {
    DivMod(k, 0, st);
    assert st * k == k * st + 0;
  }

  lemma CellCount(st: nat, cols: nat, rows: nat)
    requires st > 0
    ensures AnchorsFor(st * cols, st * rows, st) == 2 * (cols * rows)
  {
    ExactQuotient(st, cols);
    ExactQuotient(st, rows);
    CountForm(Grid(st, st * cols, st * rows, 2), cols, rows);
  }

  lemma CountForm(g: Grid, cols: nat, rows: nat)
    requires g.Valid() && g.FeatW() == cols && g.FeatH() == rows && g.anchors == 2
    ensures g.Count() == 2 * (cols * rows)
  {}

  /**
   For an input of cols x rows cells of one stride, that stride is recovered exactly when the
   aspect ratio is close enough to one for its own size.
   */
  lemma StrideRecovered(st: nat, cols: nat, rows: nat, lo: nat, mid: nat, hi: nat)
    requires st > 0 && cols > 0 && rows > 0
    requires lo == (2 * st - 1) * (2 * st - 1) && hi == (2 * st + 1) * (2 * st + 1) && mid == 4 * (st * st)
    ensures 2 * (cols * rows) > 0
    ensures InferStride(st * cols, 2 * (cols * rows)) == st <==> InBand(lo, mid, hi, cols, rows)
  {
    RowStep(0, cols, rows);
    StrideByCells(st, cols, rows, lo, mid, hi);
    RecoveredIffIsStride(st * cols, 2 * (cols * rows), st);
  }

  lemma RecoveredIffIsStride(w: nat, n: nat, st: nat)
    requires n > 0
    ensures InferStride(w, n) == st <==> IsStride(w, n, st)
  {
    if IsStride(w, n, st) { StrideUnique(w, n, st, InferStride(w, n)); }
  }

  /** Square inputs: every stride is recovered. */
  lemma SquareRecovered(st: nat, cells: nat)
    requires st > 0 && cells > 0
    ensures 2 * (cells * cells) > 0 && InferStride(st * cells, 2 * (cells * cells)) == st
  {
    var lo, mid, hi := (2 * st - 1) * (2 * st - 1), 4 * (st * st), (2 * st + 1) * (2 * st + 1);
    AroundSquare(st, lo, mid, hi, cells);
    StrideRecovered(st, cells, cells, lo, mid, hi);
  }

  lemma AroundSquare(st: nat, lo: nat, mid: nat, hi: nat, cells: nat)
    requires st > 0 && cells > 0
    requires lo == (2 * st - 1) * (2 * st - 1) && hi == (2 * st + 1) * (2 * st + 1) && mid == 4 * (st * st)
    ensures InBand(lo, mid, hi, cells, cells)
  {
    assert lo == mid - 4 * st + 1 && hi == mid + 4 * st + 1;
    RowMono(lo, mid, cells);
    RowStep(mid, hi, cells);
  }

  lemma RecoveredFor(st: nat, k: nat, cols: nat, rows: nat, lo: nat, mid: nat, hi: nat)
    requires st > 0 && st * k == 32 && cols > 0 && rows > 0
    requires lo == (2 * st - 1) * (2 * st - 1) && hi == (2 * st + 1) * (2 * st + 1) && mid == 4 * (st * st)
    ensures AnchorsFor(32 * cols, 32 * rows, st) > 0
    ensures InferStride(32 * cols, AnchorsFor(32 * cols, 32 * rows, st)) == st <==> InBand(lo, mid, hi, cols, rows)
  {
    assert k > 0;
    CellsOf(st, k, cols, rows, k * cols, k * rows);
    StrideRecovered(st, k * cols, k * rows, lo, mid, hi);
    ScaledBand(lo, mid, hi, k, cols, rows);
  }

  /** A multiple of 32 is a whole number of cells of each stride that divides 32. */
  lemma CellsOf(st: nat, k: nat, cols: nat, rows: nat, c: nat, r: nat)
    requires st > 0 && k > 0 && st * k == 32 && cols > 0 && rows > 0 && c == k * cols && r == k * rows
    ensures c > 0 && r > 0 && st * c == 32 * cols && st * r == 32 * rows
    ensures AnchorsFor(32 * cols, 32 * rows, st) == 2 * (c * r)
  {
    Regrouped(st, k, cols);
    Regrouped(st, k, rows);
    RowStep(0, k, cols);
    RowStep(0, k, rows);
    CellCount(st, c, r);
  }

  lemma Regrouped(st: nat, k: nat, cells: nat)
    ensures st * (k * cells) == st * k * cells
  {}

  lemma ScaledBand(lo: nat, mid: nat, hi: nat, k: nat, cols: nat, rows: nat)
    requires k > 0
    ensures InBand(lo, mid, hi, k * cols, k * rows) <==> InBand(lo, mid, hi, cols, rows)
  {
    ScaledBounds(lo, mid, k, cols, rows);
    ScaledBounds(hi, mid, k, cols, rows);
  }

  lemma ScaledBounds(lo: nat, mid: nat, k: nat, cols: nat, rows: nat)
    requires k > 0
    ensures lo * (k * rows) <= mid * (k * cols) <==> lo * rows <= mid * cols
  {
    assert lo * (k * rows) == lo * rows * k && mid * (k * cols) == mid * cols * k;
    CancelFactor(lo * rows, mid * cols, k);
  }

  /**
   All three strides of an input that is a multiple of 32 are recovered exactly when
   3969 h <= 4096 w < 4225 h: the coarsest stride decides.
   */
  lemma AllRecovered(cols: nat, rows: nat)
    requires cols > 0 && rows > 0
    ensures forall i :: 0 <= i < 3 ==> AnchorsFor(32 * cols, 32 * rows, STRIDES[i]) > 0
    ensures (forall i :: 0 <= i < 3 ==>
      InferStride(32 * cols, AnchorsFor(32 * cols, 32 * rows, STRIDES[i])) == STRIDES[i])
      <==> 3969 * (32 * rows) <= 4096 * (32 * cols) < 4225 * (32 * rows)
  {
    RecoveredFor(8, 4, cols, rows, 225, 256, 289);
    RecoveredFor(16, 2, cols, rows, 961, 1024, 1089);
    RecoveredFor(32, 1, cols, rows, 3969, 4096, 4225);
    assert STRIDES[0] == 8 && STRIDES[1] == 16 && STRIDES[2] == 32;
  }

  /** A 640x480 input, which the configuration accepts, has its stride-8 outputs taken for stride 9. */
  lemma NonSquareMisread()
    ensures AnchorsFor(640, 480, 8) == 9600 && InferStride(640, 9600) == 9
  {
    assert IsStride(640, 9600, 9);
    StrideUnique(640, 9600, 9, InferStride(640, 9600));
  }

  /** A 480x640 input has them taken for stride 7, whose grid has more anchors than they hold. */
  lemma TallMisread()
    ensures STRIDES[0] == 8 && AnchorsFor(480, 640, 8) == 9600 && InferStride(480, 9600) == 7
    ensures AnchorsFor(480, 640, 7) == 12376
  {
    assert IsStride(480, 9600, 7);
    StrideUnique(480, 9600, 7, InferStride(480, 9600));
  }

  // ------------------------------------------- when the inference is not right

  /** The stride inferred for the outputs of level `i`. */
  function Inferred(w: nat, h: nat, i: nat): nat
    requires i < 3 && AnchorsFor(w, h, STRIDES[i]) > 0
  {
    InferStride(w, AnchorsFor(w, h, STRIDES[i]))
  }

  /** The sizes the configuration accepts: positive multiples of 32. */
  predicate IsInputSize(w: nat, h: nat) { w > 0 && h > 0 && w % 32 == 0 && h % 32 == 0 }

  /** A level has four times the anchors of the next one. */
  lemma LevelAnchors(w: nat, h: nat)
    requires IsInputSize(w, h)
    ensures var n := 2 * (w / 32 * (h / 32));
            && n > 0 && AnchorsFor(w, h, STRIDES[2]) == n
            && AnchorsFor(w, h, STRIDES[1]) == 4 * n && AnchorsFor(w, h, STRIDES[0]) == 16 * n
  {
    var c, r := w / 32, h / 32;
    CellsOf(8, 4, c, r, 4 * c, 4 * r);
    CellsOf(16, 2, c, r, 2 * c, 2 * r);
    CellsOf(32, 1, c, r, c, r);
    BlockProduct(c, r);
  }

  lemma BlockProduct(c: nat, r: nat)
    requires c > 0 && r > 0
    ensures c * r > 0 && 2 * c * (2 * r) == 4 * (c * r) && 4 * c * (4 * r) == 16 * (c * r)
  {
    RowStep(0, c, r);
  }

  /** The grid of a coarser stride is no larger. */
  lemma CoarserCount(w: nat, h: nat, s: nat, t: nat)
    requires 0 < s <= t
    ensures AnchorsFor(w, h, t) <= AnchorsFor(w, h, s)
  {
    QuotientMono(w, s, t);
    QuotientMono(h, s, t);
    ProductMono(Quotient(h, t), Quotient(h, s), Quotient(w, t), Quotient(w, s));
    RowMono(Quotient(h, t) * Quotient(w, t), Quotient(h, s) * Quotient(w, s), ANCHORS_PER_LOCATION);
  }

  /** Inputs at least as wide as high: no stride is taken for a finer one. */
  lemma WideInferred(st: nat, k: nat, cols: nat, rows: nat)
    requires st > 0 && st * k == 32 && cols >= rows > 0
    ensures AnchorsFor(32 * cols, 32 * rows, st) > 0
    ensures InferStride(32 * cols, AnchorsFor(32 * cols, 32 * rows, st)) >= st
  {
    assert k > 0;
    var c, r := k * cols, k * rows;
    CellsOf(st, k, cols, rows, c, r);
    RowStep(0, c, r);
    RowMono(rows, cols, k);
    var t := InferStride(st * c, 2 * (c * r));
    if t < st { FinerRefuted(st, t, c, r); }
  }

  lemma FinerRefuted(st: nat, t: nat, c: nat, r: nat)
    requires t < st && c >= r > 0
    ensures !IsStride(st * c, 2 * (c * r), t)
  {
    var lo, mid := (2 * t + 1) * (2 * t + 1), 4 * (st * st);
    OddBelow(t, st);
    ProductMono(lo, mid, r, c);
    WidthSquare(st, c);
    AreaForm(lo, mid, c, r);
  }

  lemma OddBelow(t: nat, st: nat)
    requires t < st
    ensures (2 * t + 1) * (2 * t + 1) <= 4 * (st * st)
  {
    ProductMono(2 * t + 1, 2 * st, 2 * t + 1, 2 * st);
    assert 2 * st * (2 * st) == 4 * (st * st);
  }

  /** Two levels share an inferred stride only at stride one. */
  lemma SharedStride(w: nat, n: nat, m: nat, t: nat)
    requires n > 0 && m >= 4 * n && t > 0 && IsStride(w, n, t) && IsStride(w, m, t)
    ensures t == 1
  {
    if t > 1 { SharedRefuted(8 * (w * w), n, m, t, (2 * t - 1) * (2 * t - 1), (2 * t + 1) * (2 * t + 1)); }
  }

  lemma SharedRefuted(x: nat, n: nat, m: nat, t: nat, lo: nat, hi: nat)
    requires n > 0 && m >= 4 * n && t > 1 && lo == (2 * t - 1) * (2 * t - 1) && hi == (2 * t + 1) * (2 * t + 1)
    requires x < hi * n
    ensures x < lo * m
  {
    SquaresApart(t, lo, hi);
    RowMono(hi, 4 * lo, n);
    RowMono(4 * n, m, lo);
    assert 4 * lo * n == lo * (4 * n);
  }

  lemma SquaresApart(t: nat, lo: nat, hi: nat)
    requires t > 1 && lo == (2 * t - 1) * (2 * t - 1) && hi == (2 * t + 1) * (2 * t + 1)
    ensures hi <= 4 * lo
  {
    ProductMono(2 * t + 1, 2 * (2 * t - 1), 2 * t + 1, 2 * (2 * t - 1));
    assert 2 * (2 * t - 1) * (2 * (2 * t - 1)) == 4 * lo;
  }

  lemma BlockArea(c: nat, r: nat, w: nat, h: nat)
    requires w == 32 * c && h == 32 * r
    ensures w * h == 1024 * (c * r)
  {
    assert 32 * c * (32 * r) == 1024 * (c * r);
  }

  lemma LevelAtMost(w: nat, h: nat, i: nat, area: nat)
    requires IsInputSize(w, h) && i < 3 && area == w / 32 * (h / 32)
    ensures 0 < AnchorsFor(w, h, STRIDES[i]) <= 32 * area
  {
    LevelAnchors(w, h);
  }

  lemma FinestCount(w: nat, h: nat, area: nat)
    requires IsInputSize(w, h) && area == w / 32 * (h / 32)
    ensures AnchorsFor(w, h, 1) == 2048 * area
  {
    CellCount(1, w, h);
    BlockArea(w / 32, h / 32, w, h);
  }

  /** At stride one the grid outnumbers the anchors of every level. */
  lemma FinestOverruns(w: nat, h: nat, i: nat)
    requires IsInputSize(w, h) && i < 3
    ensures AnchorsFor(w, h, 1) > AnchorsFor(w, h, STRIDES[i]) > 0
  {
    var area := w / 32 * (h / 32);
    LevelAtMost(w, h, i, area);
    FinestCount(w, h, area);
  }
}
