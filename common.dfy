// Shared data model of the editor core: the pixel formats and presets of
// common.h, RGBA frames and ARGB bitmaps as values, and the integer helpers
// (clamping, truncation toward zero, 16-bit saturation) that the C++ and
// Kotlin sources spell out inline.
module Common {

  datatype Option<T> = None | Some(value: T)

  // ---------------------------------------------------------------------
  // Integer helpers
  // ---------------------------------------------------------------------

  function Min(a: int, b: int): int { if a <= b then a else b }
  function Max(a: int, b: int): int { if a >= b then a else b }
  function Abs(a: int): int { if a < 0 then -a else a }

  /** std::max(lo, std::min(hi, x)) and Kotlin's coerceIn(lo, hi). */
  function Clamp(x: int, lo: int, hi: int): (r: int)
    requires lo <= hi
    ensures lo <= r <= hi
    ensures lo <= x <= hi ==> r == x
    ensures x < lo ==> r == lo
    ensures x > hi ==> r == hi
  {
    if x < lo then lo else if x > hi then hi else x
  }

  function ClampReal(x: real, lo: real, hi: real): (r: real)
    requires lo <= hi
    ensures lo <= r <= hi
    ensures lo <= x <= hi ==> r == x
  {
    if x < lo then lo else if x > hi then hi else x
  }

  /** static_cast<int>(float) and Kotlin toInt(): truncation toward zero. */
  function Trunc(x: real): (r: int)
    ensures x >= 0.0 ==> r as real <= x < r as real + 1.0
    ensures x < 0.0 ==> r as real - 1.0 < x <= r as real
  {
    if x >= 0.0 then x.Floor else -((-x).Floor)
  }

  /** Kotlin Float.toInt(): truncation toward zero, saturating at the Int range. */
  function FloatToInt(x: real): (r: int)
    ensures -0x8000_0000 <= r < 0x8000_0000
    ensures -0x8000_0000 as real <= x < 0x8000_0000 as real ==> r == Trunc(x)
  {
    Clamp(Trunc(x), -0x8000_0000, 0x7fff_ffff)
  }

  /** Kotlin Float.toLong(): truncation toward zero, saturating at the Long range. */
  function FloatToLong(x: real): (r: int)
    ensures -0x8000_0000_0000_0000 <= r < 0x8000_0000_0000_0000
    ensures -0x8000_0000_0000_0000 as real <= x < 0x8000_0000_0000_0000 as real ==> r == Trunc(x)
  {
    Clamp(Trunc(x), -0x8000_0000_0000_0000, 0x7fff_ffff_ffff_ffff)
  }

  /**
   * Kotlin (a / b).toInt() on Float operands: a zero divisor gives +∞ or −∞,
   * which saturate, or NaN for 0 / 0, which converts to 0.
   */
  function FloatDivToInt(a: real, b: real): (r: int)
    ensures -0x8000_0000 <= r < 0x8000_0000
    ensures b != 0.0 ==> r == FloatToInt(a / b)
    ensures b == 0.0 ==> (r > 0 <==> a > 0.0) && (r < 0 <==> a < 0.0)
  {
    if b != 0.0 then FloatToInt(a / b)
    else if a > 0.0 then 0x7fff_ffff
    else if a < 0.0 then -0x8000_0000
    else 0
  }

  /** Truncation, and so Float.toInt(), never decreases as its argument grows. */
  lemma FloatToIntMonotone(x: real, y: real)
    requires x <= y
    ensures Trunc(x) <= Trunc(y) && FloatToInt(x) <= FloatToInt(y)
  {
  }

  /** Scaling by a non-negative factor keeps the order. */
  lemma ScaleMonotone(a: real, p: real, q: real)
    requires a >= 0.0 && p <= q
    ensures a * p <= a * q
  {
    assert a * q - a * p == a * (q - p);
  }

  /** A non-negative amount scaled by a factor in [0, 1] stays between 0 and the amount. */
  lemma RealMulBetween(a: real, v: real)
    requires a >= 0.0 && 0.0 <= v <= 1.0
    ensures 0.0 <= a * v <= a
  {
    assert a * v <= a * 1.0;
  }

  /** fg * alpha + bg * (1 - alpha), as reals, lies between fg and bg. */
  lemma MixBetween(fg: real, bg: real, alpha: real)
    requires 0.0 <= alpha <= 1.0
    ensures var v := fg * alpha + bg * (1.0 - alpha);
      (fg <= bg ==> fg <= v <= bg) && (bg <= fg ==> bg <= v <= fg)
  {
    if bg <= fg {
      MixAtMostFirst(fg, bg, alpha);
    }
    if fg <= bg {
      MixAtMostSecond(fg, bg, alpha);
    }
  }

  lemma MixAtMostFirst(fg: real, bg: real, alpha: real)
    requires 0.0 <= alpha <= 1.0 && bg <= fg
    ensures bg <= fg * alpha + bg * (1.0 - alpha) <= fg
  {
    MixGaps(fg, bg, alpha);
    RealMulNonneg(fg - bg, alpha);
    RealMulNonneg(fg - bg, 1.0 - alpha);
  }

  lemma MixAtMostSecond(fg: real, bg: real, alpha: real)
    requires 0.0 <= alpha <= 1.0 && fg <= bg
    ensures fg <= fg * alpha + bg * (1.0 - alpha) <= bg
  {
    MixGaps(fg, bg, alpha);
    RealMulNonneg(bg - fg, alpha);
    RealMulNonneg(bg - fg, 1.0 - alpha);
  }

  /** The distances of the mix from its two ends, as products of the gap between them. */
  lemma MixGaps(fg: real, bg: real, alpha: real)
    ensures fg * alpha + bg * (1.0 - alpha) - bg == (fg - bg) * alpha
    ensures fg - (fg * alpha + bg * (1.0 - alpha)) == (fg - bg) * (1.0 - alpha)
    ensures bg - (fg * alpha + bg * (1.0 - alpha)) == (bg - fg) * alpha
    ensures fg * alpha + bg * (1.0 - alpha) - fg == (bg - fg) * (1.0 - alpha)
  {
  }

  lemma RealMulNonneg(a: real, b: real)
    requires a >= 0.0 && b >= 0.0
    ensures a * b >= 0.0
  {
  }

  lemma RealDivSelf(a: real)
    requires a > 0.0
    ensures a / a == 1.0
  {
  }

  lemma MixWithinBytes(fgC: int, bgC: int, alpha: real)
    requires IsByte(fgC) && IsByte(bgC) && 0.0 <= alpha <= 1.0
    ensures var x := (fgC as real) * alpha + (bgC as real) * (1.0 - alpha);
      0 <= Min(fgC, bgC) && Min(fgC, bgC) as real <= x <= Max(fgC, bgC) as real
  {
    MixBetween(fgC as real, bgC as real, alpha);
  }

  /** Truncation keeps a value between 0 and an integer bound on either side of 0. */
  lemma TruncBetween(x: real, bound: int)
    requires if bound >= 0 then 0.0 <= x <= bound as real else bound as real <= x <= 0.0
    ensures Abs(Trunc(x)) <= Abs(bound)
    ensures x >= 0.0 ==> Trunc(x) >= 0
    ensures x <= 0.0 ==> Trunc(x) <= 0
  {
  }

  /** Truncating a value between two non-negative integers stays between them. */
  lemma TruncWithin(x: real, lo: int, hi: int)
    requires 0 <= lo && lo as real <= x <= hi as real
    ensures lo <= Trunc(x) <= hi
  {
  }

  /** Truncating a non-negative integer scaled by a factor in [0, 1] stays between 0 and the integer. */
  lemma PosScaleTrunc(s: int, factor: real)
    requires s >= 0 && 0.0 <= factor <= 1.0
    ensures 0 <= Trunc((s as real) * factor) <= s
  {
    RealMulBetween(s as real, factor);
    TruncBetween((s as real) * factor, s);
  }

  /** A non-negative amount divided by a ratio of at least 1 stays between 0 and the amount. */
  lemma RealDivAtLeastOne(e: real, ratio: real)
    requires e >= 0.0 && ratio >= 1.0
    ensures 0.0 <= e / ratio <= e
  {
    var q := e / ratio;
    assert q * ratio == e;
    assert q >= 0.0;
    assert q * (ratio - 1.0) >= 0.0;
  }

  /** A quotient of integers e / d with e >= d > 0 is at least 1, and with 0 <= e it is not negative. */
  lemma QuotientAtLeastOne(e: int, d: int)
    requires d >= 1
    ensures e >= d ==> (e as real) / (d as real) >= 1.0
    ensures e >= 0 ==> (e as real) / (d as real) >= 0.0
  {
    var q := (e as real) / (d as real);
    assert q * (d as real) == e as real;
    assert (q - 1.0) * (d as real) == (e - d) as real;
  }

  /** C++ integer division truncates toward zero. */
  function CDiv(a: int, b: int): (r: int)
    requires b != 0
    ensures a >= 0 && b > 0 ==> r == a / b
  {
    if (a >= 0) == (b > 0) then Abs(a) / Abs(b) else -(Abs(a) / Abs(b))
  }

  /** C++ remainder: takes the sign of the dividend. */
  function CRem(a: int, b: int): (r: int)
    requires b != 0
    ensures a == CDiv(a, b) * b + r
    ensures Abs(r) < Abs(b)
  {
    a - CDiv(a, b) * b
  }

  const ShortMin: int := -32768
  const ShortMax: int := 32767

  predicate IsShort(x: int) { ShortMin <= x <= ShortMax }

  /** The explicit 16-bit saturation written out at every PCM accumulation. */
  function Saturate(x: int): (r: int)
    ensures IsShort(r)
    ensures IsShort(x) ==> r == x
  {
    Clamp(x, ShortMin, ShortMax)
  }

  /**
   * A value narrowed to a signed 32-bit int (C++ int64-to-int conversion,
   * Kotlin Long.toInt(), and Kotlin Int arithmetic): the low 32 bits.
   */
  function ToInt32(x: int): (r: int)
    ensures -0x8000_0000 <= r < 0x8000_0000
    ensures -0x8000_0000 <= x < 0x8000_0000 ==> r == x
  {
    (x + 0x8000_0000) % 0x1_0000_0000 - 0x8000_0000
  }

  /** Kotlin Long and C++ int64_t values. */
  predicate IsLong(v: int) { -0x8000_0000_0000_0000 <= v < 0x8000_0000_0000_0000 }

  /** Kotlin Long arithmetic: the low 64 bits, signed. */
  function ToInt64(x: int): (r: int)
    ensures -0x8000_0000_0000_0000 <= r < 0x8000_0000_0000_0000
    ensures -0x8000_0000_0000_0000 <= x < 0x8000_0000_0000_0000 ==> r == x
  {
    (x + 0x8000_0000_0000_0000) % 0x1_0000_0000_0000_0000 - 0x8000_0000_0000_0000
  }

  /** Kotlin Int.toShort(): keeps the low 16 bits (two's complement wrap). */
  function ToShort(x: int): (r: int)
    ensures IsShort(r)
    ensures IsShort(x) ==> r == x
    ensures (r - x) % 65536 == 0
  {
    (x + 32768) % 65536 - 32768
  }

  predicate IsByte(x: int) { 0 <= x <= 255 }

  function ClampByte(x: int): (r: int)
    ensures IsByte(r)
    ensures IsByte(x) ==> r == x
  {
    Clamp(x, 0, 255)
  }

  // ---------------------------------------------------------------------
  // common.h: pixel formats, presets and frame sizes
  // ---------------------------------------------------------------------

  datatype PixelFormat = RGBA | RGB | NV21 | YUV420P | UNKNOWN

  datatype Resolution = Resolution(width: int, height: int)

  const HD: Resolution := Resolution(1280, 720)
  const FHD: Resolution := Resolution(1920, 1080)
  const QHD: Resolution := Resolution(2560, 1440)
  const UHD: Resolution := Resolution(3840, 2160)

  /** EffectParams: an effect name, its intensity and extra parameters. */
  datatype EffectParams = EffectParams(effectType: string, intensity: real, params: seq<real>)

  /** VideoFrame::dataSize. */
  function DataSize(format: PixelFormat, width: int, height: int): int
  {
    match format
    case RGBA => width * height * 4
    case RGB => width * height * 3
    case NV21 => width * height * 3 / 2
    case YUV420P => width * height * 3 / 2
    case UNKNOWN => 0
  }

  /** Every preset is 16:9 and its RGBA buffer holds four bytes per pixel. */
  lemma PresetsAreWidescreen()
    ensures forall r :: r in [HD, FHD, QHD, UHD] ==>
      r.width * 9 == r.height * 16 && DataSize(RGBA, r.width, r.height) == 4 * r.width * r.height
    ensures DataSize(RGBA, FHD.width, FHD.height) == 8294400
  {
  }

  /**
   * For even dimensions the two planar YUV formats hold a full-size luma
   * plane plus two quarter-size chroma planes, the layout rgbaToYuv420 writes.
   */
  lemma {:induction false} Yuv420Layout(width: int, height: int)
    requires width >= 0 && height >= 0 && width % 2 == 0 && height % 2 == 0
    ensures DataSize(NV21, width, height) == DataSize(YUV420P, width, height)
    ensures DataSize(YUV420P, width, height) == width * height + 2 * ((width / 2) * (height / 2))
    ensures (width / 2) * (height / 2) == (width * height) / 4
  {
    var a, b := width / 2, height / 2;
    assert width == 2 * a && height == 2 * b;
    assert width * height == 4 * (a * b) by {
      assert (2 * a) * (2 * b) == 4 * (a * b);
    }
  }

  /** Known pixel formats take one to four bytes per pixel; an unknown one takes none. */
  lemma DataSizeBounds(format: PixelFormat, width: int, height: int)
    requires width >= 0 && height >= 0
    ensures format == UNKNOWN ==> DataSize(format, width, height) == 0
    ensures format != UNKNOWN ==> DataSize(format, width, height) >= width * height
    ensures DataSize(format, width, height) <= 4 * width * height
  {
  }

  // ---------------------------------------------------------------------
  // Index arithmetic shared by frames and bitmaps
  // ---------------------------------------------------------------------

  /** A value already in [0, m) is its own remainder modulo m. */
  lemma SmallMod(x: int, m: int)
    requires 0 <= x < m
    ensures x % m == x
  {
  }

  lemma {:induction false} DivModUnique(p: int, w: int, q: int, r: int)
    requires w > 0 && 0 <= r < w && p == q * w + r
    ensures p / w == q && p % w == r
  {
    var q', r' := p / w, p % w;
    assert p == q' * w + r' && 0 <= r' < w;
    assert (q - q') * w == r' - r;
    if q - q' >= 1 {
      MulAtLeast(q - q', w);
    } else if q - q' <= -1 {
      MulAtLeast(q' - q, w);
    }
  }

  lemma MulAtLeast(a: int, w: int)
    requires a >= 1 && w > 0
    ensures a * w >= w
  {
  }

  lemma MulLeCancel(x: int, y: int, n: int)
    requires n > 0 && x * n <= y * n
    ensures x <= y
  {
  }

  lemma {:induction false} RowMajorBound(w: int, h: int, x: int, y: int)
    requires 0 <= x < w && 0 <= y < h
    ensures 0 <= y * w + x < w * h
  {
    IntMulLe(0, y, w);
    IntMulLe(y + 1, h, w);
    assert (y + 1) * w == y * w + w;
    assert h * w == w * h;
  }

  lemma IntMulLe(a: int, b: int, w: int)
    requires w >= 0
    ensures a <= b ==> a * w <= b * w
  {
    assert b * w - a * w == (b - a) * w;
  }

  /** Row of a row-major cell index in a grid of width w. */
  function RowOf(w: int, p: int): int { if w <= 0 then 0 else p / w }
  /** Column of a row-major cell index in a grid of width w. */
  function ColOf(w: int, p: int): int { if w <= 0 then 0 else p % w }

  lemma {:induction false} CellDecompose(w: int, h: int, p: int)
    requires 0 <= p < w * h && w > 0
    ensures 0 <= ColOf(w, p) < w && 0 <= RowOf(w, p) < h
    ensures p == RowOf(w, p) * w + ColOf(w, p)
  {
    var y := p / w;
    assert p == y * w + p % w;
    IntMulLe(h, y, w);
    assert h * w == w * h;
  }

  lemma {:induction false} CellCompose(w: int, h: int, x: int, y: int)
    requires 0 <= x < w && 0 <= y < h
    ensures 0 <= y * w + x < w * h
    ensures ColOf(w, y * w + x) == x && RowOf(w, y * w + x) == y
  {
    RowMajorBound(w, h, x, y);
    DivModUnique(y * w + x, w, y, x);
  }

  /** Every cell index of a w x h grid has its column and row inside the grid. */
  lemma {:induction false} AllCellsInGrid(w: int, h: int)
    requires w >= 0 && h >= 0
    ensures forall p :: 0 <= p < w * h ==> 0 <= ColOf(w, p) < w && 0 <= RowOf(w, p) < h
  {
    forall p | 0 <= p < w * h ensures 0 <= ColOf(w, p) < w && 0 <= RowOf(w, p) < h {
      CellDecompose(w, h, p);
    }
  }

  predicate InGrid(w: int, h: int, x: int, y: int) { 0 <= x < w && 0 <= y < h }

  // ---------------------------------------------------------------------
  // RGBA frames (VideoFrame with format RGBA)
  // ---------------------------------------------------------------------

  /** A VideoFrame in RGBA: bytes R,G,B,A per pixel, rows top to bottom. */
  datatype Frame = Frame(width: int, height: int, data: seq<int>)

  /** Byte index of channel c of pixel (x, y). */
  function Idx(w: int, x: int, y: int, c: int): int { (y * w + x) * 4 + c }

  predicate Shaped(f: Frame)
  {
    f.width >= 0 && f.height >= 0 && |f.data| == DataSize(RGBA, f.width, f.height)
  }

  predicate AllBytes(s: seq<int>) { forall i :: 0 <= i < |s| ==> IsByte(s[i]) }

  predicate ValidFrame(f: Frame) { Shaped(f) && AllBytes(f.data) }

  lemma {:induction false} IdxCompose(w: int, h: int, x: int, y: int, c: int)
    requires InGrid(w, h, x, y) && 0 <= c < 4
    ensures 0 <= Idx(w, x, y, c) < w * h * 4
    ensures ColOf(w, Idx(w, x, y, c) / 4) == x && RowOf(w, Idx(w, x, y, c) / 4) == y
    ensures Idx(w, x, y, c) % 4 == c
  {
    CellCompose(w, h, x, y);
  }

  lemma {:induction false} IdxDecompose(w: int, h: int, i: int)
    requires w > 0 && 0 <= i < w * h * 4
    ensures InGrid(w, h, ColOf(w, i / 4), RowOf(w, i / 4))
    ensures i == Idx(w, ColOf(w, i / 4), RowOf(w, i / 4), i % 4)
  {
    CellDecompose(w, h, i / 4);
  }

  /** Byte k of a w-wide RGBA buffer belongs to pixel (x, y). */
  predicate PixelIs(w: int, k: int, x: int, y: int)
  {
    ColOf(w, k / 4) == x && RowOf(w, k / 4) == y
  }

  /** The bytes of pixel (x, y) are exactly the four starting at Idx(w, x, y, 0). */
  lemma {:induction false} PixelIndex(w: int, h: int, k: int, x: int, y: int)
    requires 0 <= k < w * h * 4 && InGrid(w, h, x, y)
    ensures PixelIs(w, k, x, y) <==> Idx(w, x, y, 0) <= k < Idx(w, x, y, 0) + 4
    ensures PixelIs(w, k, x, y) ==> k == Idx(w, x, y, k % 4)
  {
    var p := y * w + x;
    CellCompose(w, h, x, y);
    CellDecompose(w, h, k / 4);
    if p * 4 <= k < p * 4 + 4 {
      DivModUnique(k, 4, p, k - p * 4);
    }
  }

  /** Every byte of a w x h buffer lies in a pixel of the grid. */
  lemma {:induction false} AllInGrid(w: int, h: int)
    requires w >= 0 && h >= 0
    ensures forall k :: 0 <= k < w * h * 4 ==> InGrid(w, h, ColOf(w, k / 4), RowOf(w, k / 4))
  {
    forall k | 0 <= k < w * h * 4 ensures InGrid(w, h, ColOf(w, k / 4), RowOf(w, k / 4)) {
      CellDecompose(w, h, k / 4);
    }
  }

  /** Channel c of pixel (x, y), or 0 outside the frame. */
  function At(f: Frame, x: int, y: int, c: int): int
  {
    if InGrid(f.width, f.height, x, y) && 0 <= c < 4 && 0 <= Idx(f.width, x, y, c) < |f.data|
    then f.data[Idx(f.width, x, y, c)] else 0
  }

  /** The four bytes of a pixel of a shaped frame sit at its index and the three after it. */
  lemma {:induction false} PixelBytes(f: Frame, x: int, y: int)
    requires Shaped(f) && InGrid(f.width, f.height, x, y)
    ensures 0 <= Idx(f.width, x, y, 0) && Idx(f.width, x, y, 0) + 3 < |f.data|
    ensures forall c :: 0 <= c < 4 ==> f.data[Idx(f.width, x, y, 0) + c] == At(f, x, y, c)
  {
    IdxCompose(f.width, f.height, x, y, 3);
  }

  /** The w x h frame whose channel c at (x, y) is px(x, y, c). */
  function Build(w: int, h: int, px: (int, int, int) -> int): (f: Frame)
    requires w >= 0 && h >= 0
    ensures Shaped(f) && f.width == w && f.height == h
    ensures forall x, y, c :: InGrid(w, h, x, y) && 0 <= c < 4 ==> At(f, x, y, c) == px(x, y, c)
    ensures forall i :: 0 <= i < |f.data| ==> f.data[i] == px(ColOf(w, i / 4), RowOf(w, i / 4), i % 4)
  {
    var data := seq(w * h * 4, i => px(ColOf(w, i / 4), RowOf(w, i / 4), i % 4));
    BuildAtAll(w, h, px, data);
    Frame(w, h, data)
  }

  lemma BuildAtAll(w: int, h: int, px: (int, int, int) -> int, data: seq<int>)
    requires w >= 0 && h >= 0 && |data| == w * h * 4
    requires forall i :: 0 <= i < |data| ==> data[i] == px(ColOf(w, i / 4), RowOf(w, i / 4), i % 4)
    ensures forall x, y, c :: InGrid(w, h, x, y) && 0 <= c < 4 ==> At(Frame(w, h, data), x, y, c) == px(x, y, c)
  {
    forall x, y, c | InGrid(w, h, x, y) && 0 <= c < 4
      ensures At(Frame(w, h, data), x, y, c) == px(x, y, c)
    {
      IdxCompose(w, h, x, y, c);
    }
  }

  /** Two frames of the same shape are equal when they agree pixel by pixel. */
  lemma {:induction false} FrameExt(a: Frame, b: Frame)
    requires Shaped(a) && Shaped(b) && a.width == b.width && a.height == b.height
    requires forall x, y, c :: InGrid(a.width, a.height, x, y) && 0 <= c < 4 ==> At(a, x, y, c) == At(b, x, y, c)
    ensures a == b
  {
    forall i | 0 <= i < |a.data| ensures a.data[i] == b.data[i] {
      IdxDecompose(a.width, a.height, i);
      var x, y := ColOf(a.width, i / 4), RowOf(a.width, i / 4);
      assert At(a, x, y, i % 4) == At(b, x, y, i % 4);
    }
  }

  /** A shaped frame holds bytes exactly when every channel value is a byte. */
  lemma {:induction false} AllBytesByPixel(f: Frame)
    requires Shaped(f)
    requires forall x, y, c :: InGrid(f.width, f.height, x, y) && 0 <= c < 4 ==> IsByte(At(f, x, y, c))
    ensures AllBytes(f.data)
  {
    forall i | 0 <= i < |f.data| ensures IsByte(f.data[i]) {
      IdxDecompose(f.width, f.height, i);
      assert IsByte(At(f, ColOf(f.width, i / 4), RowOf(f.width, i / 4), i % 4));
    }
  }

  lemma {:induction false} AtIsByte(f: Frame, x: int, y: int, c: int)
    requires ValidFrame(f)
    ensures IsByte(At(f, x, y, c))
  {
  }

  // ---------------------------------------------------------------------
  // Paint alpha, shared by the text and sticker renderers
  // ---------------------------------------------------------------------

  function MinReal(a: real, b: real): (r: real)
    ensures r <= a && r <= b && (r == a || r == b)
  {
    if a <= b then a else b
  }

  function MaxReal(a: real, b: real): (r: real)
    ensures r >= a && r >= b && (r == a || r == b)
  {
    if a >= b then a else b
  }

  /** factor * alpha; a factor in [0, 1] keeps a non-negative alpha between 0 and itself. */
  function ScaleAlpha(f: real, a: real): (r: real)
    ensures 0.0 <= f <= 1.0 && a >= 0.0 ==> 0.0 <= r <= a
  {
    if 0.0 <= f <= 1.0 && a >= 0.0 then
      RealMulBetween(a, f);
      assert f * a == a * f;
      f * a
    else f * a
  }

  /** Paint.alpha = (alpha * 255).toInt(). */
  function PaintAlpha(alpha: real): (a: int)
    ensures 0.0 <= alpha <= 1.0 ==> IsByte(a)
  {
    if 0.0 <= alpha <= 1.0 then
      PosScaleTrunc(255, alpha);
      assert 255.0 * alpha == alpha * 255.0;
      FloatToInt(alpha * 255.0)
    else FloatToInt(alpha * 255.0)
  }

  // ---------------------------------------------------------------------
  // Android bitmaps: one packed ARGB colour per pixel
  // ---------------------------------------------------------------------

  /** An ARGB_8888 Bitmap; each colour is the unsigned 32-bit value of the Int. */
  datatype Bitmap = Bitmap(width: int, height: int, pixels: seq<int>)

  predicate BitmapShaped(b: Bitmap)
  {
    b.width >= 0 && b.height >= 0 && |b.pixels| == b.width * b.height
  }

  predicate IsColor(p: int) { 0 <= p < 0x1_0000_0000 }

  predicate ValidBitmap(b: Bitmap)
  {
    BitmapShaped(b) && forall i :: 0 <= i < |b.pixels| ==> IsColor(b.pixels[i])
  }

  /** Color.alpha / Color.red / Color.green / Color.blue. */
  function Alpha(p: int): int { (p / 0x100_0000) % 256 }
  function Red(p: int): int { (p / 0x1_0000) % 256 }
  function Green(p: int): int { (p / 0x100) % 256 }
  function Blue(p: int): int { p % 256 }

  /** Color.argb for channel values in [0, 255]. */
  function Argb(a: int, r: int, g: int, b: int): (p: int)
    requires IsByte(a) && IsByte(r) && IsByte(g) && IsByte(b)
    ensures IsColor(p)
    ensures Alpha(p) == a && Red(p) == r && Green(p) == g && Blue(p) == b
  {
    var p := a * 0x100_0000 + r * 0x1_0000 + g * 0x100 + b;
    DivModUnique(p, 256, a * 0x1_0000 + r * 0x100 + g, b);
    DivModUnique(p, 0x100, a * 0x1_0000 + r * 0x100 + g, b);
    DivModUnique(a * 0x1_0000 + r * 0x100 + g, 256, a * 0x100 + r, g);
    DivModUnique(p, 0x1_0000, a * 0x100 + r, g * 0x100 + b);
    DivModUnique(a * 0x100 + r, 256, a, r);
    DivModUnique(p, 0x100_0000, a, r * 0x1_0000 + g * 0x100 + b);
    DivModUnique(a, 256, 0, a);
    p
  }

  /** A colour is Color.argb of its own four channels. */
  lemma {:induction false} ArgbOfChannels(p: int)
    requires IsColor(p)
    ensures Argb(Alpha(p), Red(p), Green(p), Blue(p)) == p
  {
    var q1 := p / 0x100;
    var q2 := q1 / 0x100;
    var q3 := q2 / 0x100;
    assert p == q1 * 0x100 + Blue(p);
    assert Green(p) == q1 % 256;
    assert q1 == q2 * 0x100 + Green(p);
    DivModUnique(p, 0x1_0000, q2, Green(p) * 0x100 + Blue(p));
    assert q2 == q3 * 0x100 + Red(p);
    DivModUnique(p, 0x100_0000, q3, Red(p) * 0x1_0000 + Green(p) * 0x100 + Blue(p));
    SmallMod(q3, 256);
  }

  /** Color.rgb: an opaque colour. */
  function Rgb(r: int, g: int, b: int): (p: int)
    requires IsByte(r) && IsByte(g) && IsByte(b)
    ensures IsColor(p) && Alpha(p) == 255 && Red(p) == r && Green(p) == g && Blue(p) == b
  {
    Argb(255, r, g, b)
  }

  const Transparent: int := 0

  /** The pixel at (x, y), or 0 outside the bitmap. */
  function PixelAt(b: Bitmap, x: int, y: int): int
  {
    if InGrid(b.width, b.height, x, y) && 0 <= y * b.width + x < |b.pixels|
    then b.pixels[y * b.width + x] else 0
  }

  /** The w x h bitmap whose pixel at (x, y) is px(x, y). */
  function BuildBitmap(w: int, h: int, px: (int, int) -> int): (b: Bitmap)
    requires w >= 0 && h >= 0
    ensures BitmapShaped(b) && b.width == w && b.height == h
    ensures forall x, y :: InGrid(w, h, x, y) ==> PixelAt(b, x, y) == px(x, y)
    ensures forall i :: 0 <= i < |b.pixels| ==> b.pixels[i] == px(ColOf(w, i), RowOf(w, i))
  {
    var pixels := seq(w * h, i => px(ColOf(w, i), RowOf(w, i)));
    BuildBitmapAtAll(w, h, px, pixels);
    Bitmap(w, h, pixels)
  }

  lemma BuildBitmapAtAll(w: int, h: int, px: (int, int) -> int, pixels: seq<int>)
    requires w >= 0 && h >= 0 && |pixels| == w * h
    requires forall i :: 0 <= i < |pixels| ==> pixels[i] == px(ColOf(w, i), RowOf(w, i))
    ensures forall x, y :: InGrid(w, h, x, y) ==> PixelAt(Bitmap(w, h, pixels), x, y) == px(x, y)
  {
    forall x, y | InGrid(w, h, x, y) ensures PixelAt(Bitmap(w, h, pixels), x, y) == px(x, y) {
      CellCompose(w, h, x, y);
    }
  }

  /** Two bitmaps of the same shape are equal when they agree pixel by pixel. */
  lemma {:induction false} BitmapExt(a: Bitmap, b: Bitmap)
    requires BitmapShaped(a) && BitmapShaped(b) && a.width == b.width && a.height == b.height
    requires forall x, y :: InGrid(a.width, a.height, x, y) ==> PixelAt(a, x, y) == PixelAt(b, x, y)
    ensures a == b
  {
    forall i | 0 <= i < |a.pixels| ensures a.pixels[i] == b.pixels[i] {
      CellDecompose(a.width, a.height, i);
      assert PixelAt(a, ColOf(a.width, i), RowOf(a.width, i)) == PixelAt(b, ColOf(a.width, i), RowOf(a.width, i));
    }
  }

  lemma {:induction false} BitmapValidByPixel(b: Bitmap)
    requires BitmapShaped(b)
    requires forall x, y :: InGrid(b.width, b.height, x, y) ==> IsColor(PixelAt(b, x, y))
    ensures ValidBitmap(b)
  {
    forall i | 0 <= i < |b.pixels| ensures IsColor(b.pixels[i]) {
      CellDecompose(b.width, b.height, i);
      assert IsColor(PixelAt(b, ColOf(b.width, i), RowOf(b.width, i)));
    }
  }
}
