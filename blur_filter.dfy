// BlurFilter (blur_filter.cpp): the integer two-pass box blur. Each pass
// averages, per channel, the in-bounds pixels of a window of 2r + 1 pixels
// along a row (horizontal pass) or a column (vertical pass); the window
// shrinks at the edges and the mean is truncated.
module BlurFilter {
  import opened Common

  /** How many of lo, lo + 1, ..., hi - 1 lie in [0, n). */
  function InRange(lo: int, hi: int, n: int): (k: int)
    ensures k >= 0
  {
    Max(0, Min(hi, n) - Max(lo, 0))
  }

  /** Sum of channel c over the pixels lo .. hi - 1 of row y (outside pixels count 0). */
  function RowSum(f: Frame, y: int, c: int, lo: int, hi: int): int
    decreases hi - lo
  {
    if hi <= lo then 0 else RowSum(f, y, c, lo, hi - 1) + At(f, hi - 1, y, c)
  }

  /** Sum of channel c over the pixels lo .. hi - 1 of column x. */
  function ColSum(f: Frame, x: int, c: int, lo: int, hi: int): int
    decreases hi - lo
  {
    if hi <= lo then 0 else ColSum(f, x, c, lo, hi - 1) + At(f, x, hi - 1, c)
  }

  /** Channel c of pixel (x, y) after the horizontal pass. The buffers hold
      uint8 values, so the sums are never negative and Dafny's division agrees
      with C++'s truncating one. An empty window (radius < 0, which boxBlur
      never passes) divides by zero in C++; it is 0 here. */
  function HorizontalPixel(f: Frame, radius: int, x: int, y: int, c: int): int
  {
    var n := InRange(x - radius, x + radius + 1, f.width);
    if n == 0 then 0 else RowSum(f, y, c, x - radius, x + radius + 1) / n
  }

  function VerticalPixel(f: Frame, radius: int, x: int, y: int, c: int): int
  {
    var n := InRange(y - radius, y + radius + 1, f.height);
    if n == 0 then 0 else ColSum(f, x, c, y - radius, y + radius + 1) / n
  }

  /** The frame horizontalBlur writes. */
  function HorizontalBlurred(f: Frame, radius: int): Frame
    requires f.width >= 0 && f.height >= 0
  {
    Build(f.width, f.height, (x, y, c) => HorizontalPixel(f, radius, x, y, c))
  }

  /** The frame verticalBlur writes. */
  function VerticalBlurred(f: Frame, radius: int): Frame
    requires f.width >= 0 && f.height >= 0
  {
    Build(f.width, f.height, (x, y, c) => VerticalPixel(f, radius, x, y, c))
  }

  /** boxBlur: vertical after horizontal, all four channels; nothing for radius <= 0. */
  function BoxBlurred(f: Frame, radius: int): Frame
    requires f.width >= 0 && f.height >= 0
  {
    if radius <= 0 then f else VerticalBlurred(HorizontalBlurred(f, radius), radius)
  }

  // ---------------------------------------------------------------------
  // Properties
  // ---------------------------------------------------------------------

  lemma InRangeStep(lo: int, hi: int, n: int)
    requires lo <= hi
    ensures InRange(lo, hi + 1, n) == InRange(lo, hi, n) + (if 0 <= hi < n then 1 else 0)
  {
  }

  /** A window around an in-bounds pixel contains that pixel. */
  lemma InRangeCentre(v: int, radius: int, n: int)
    requires 0 <= v < n && radius >= 0
    ensures InRange(v - radius, v + radius + 1, n) >= 1
  {
  }

  /** Sums of values all in [a, b] lie in [a * count, b * count]. */
  lemma {:induction false} RowSumBetween(f: Frame, y: int, c: int, lo: int, hi: int, a: int, b: int)
    requires lo <= hi && 0 <= y < f.height && 0 <= c < 4
    requires forall x :: lo <= x < hi && 0 <= x < f.width ==> a <= At(f, x, y, c) <= b
    ensures a * InRange(lo, hi, f.width) <= RowSum(f, y, c, lo, hi) <= b * InRange(lo, hi, f.width)
    decreases hi - lo
  {
    if hi > lo {
      RowSumBetween(f, y, c, lo, hi - 1, a, b);
      InRangeStep(lo, hi - 1, f.width);
      var n0 := InRange(lo, hi - 1, f.width);
      Distribute(a, n0);
      Distribute(b, n0);
    }
  }

  lemma {:induction false} ColSumBetween(f: Frame, x: int, c: int, lo: int, hi: int, a: int, b: int)
    requires lo <= hi && 0 <= x < f.width && 0 <= c < 4
    requires forall y :: lo <= y < hi && 0 <= y < f.height ==> a <= At(f, x, y, c) <= b
    ensures a * InRange(lo, hi, f.height) <= ColSum(f, x, c, lo, hi) <= b * InRange(lo, hi, f.height)
    decreases hi - lo
  {
    if hi > lo {
      ColSumBetween(f, x, c, lo, hi - 1, a, b);
      InRangeStep(lo, hi - 1, f.height);
      var n0 := InRange(lo, hi - 1, f.height);
      Distribute(a, n0);
      Distribute(b, n0);
    }
  }

  lemma Distribute(a: int, n: int)
    ensures a * (n + 1) == a * n + a
  {
  }

  lemma MeanBetween(sum: int, n: int, a: int, b: int)
    requires n >= 1 && a * n <= sum <= b * n
    ensures a <= sum / n <= b
  {
    var q := sum / n;
    assert q * n <= sum < (q + 1) * n;
    MulLeCancel(a, q + 1, n);
    MulLeCancel(q, b, n);
  }

  /** Each output channel lies between the least and greatest value of its window. */
  lemma {:induction false} HorizontalWithin(f: Frame, radius: int, x: int, y: int, c: int, a: int, b: int)
    requires Shaped(f) && radius >= 0 && InGrid(f.width, f.height, x, y) && 0 <= c < 4
    requires forall sx :: x - radius <= sx <= x + radius && 0 <= sx < f.width ==> a <= At(f, sx, y, c) <= b
    ensures a <= HorizontalPixel(f, radius, x, y, c) <= b
  {
    InRangeCentre(x, radius, f.width);
    RowSumBetween(f, y, c, x - radius, x + radius + 1, a, b);
    MeanBetween(RowSum(f, y, c, x - radius, x + radius + 1), InRange(x - radius, x + radius + 1, f.width), a, b);
  }

  lemma {:induction false} VerticalWithin(f: Frame, radius: int, x: int, y: int, c: int, a: int, b: int)
    requires Shaped(f) && radius >= 0 && InGrid(f.width, f.height, x, y) && 0 <= c < 4
    requires forall sy :: y - radius <= sy <= y + radius && 0 <= sy < f.height ==> a <= At(f, x, sy, c) <= b
    ensures a <= VerticalPixel(f, radius, x, y, c) <= b
  {
    InRangeCentre(y, radius, f.height);
    ColSumBetween(f, x, c, y - radius, y + radius + 1, a, b);
    MeanBetween(ColSum(f, x, c, y - radius, y + radius + 1), InRange(y - radius, y + radius + 1, f.height), a, b);
  }

  /** The box blur keeps the shape and keeps every channel a byte. */
  lemma {:induction false} BoxBlurValid(f: Frame, radius: int)
    requires ValidFrame(f)
    ensures var g := BoxBlurred(f, radius); ValidFrame(g) && g.width == f.width && g.height == f.height
  {
    if radius > 0 {
      var h := HorizontalBlurred(f, radius);
      forall x, y, c | InGrid(h.width, h.height, x, y) && 0 <= c < 4 ensures IsByte(At(h, x, y, c)) {
        HorizontalWithin(f, radius, x, y, c, 0, 255);
      }
      AllBytesByPixel(h);
      var v := VerticalBlurred(h, radius);
      forall x, y, c | InGrid(v.width, v.height, x, y) && 0 <= c < 4 ensures IsByte(At(v, x, y, c)) {
        VerticalWithin(h, radius, x, y, c, 0, 255);
      }
      AllBytesByPixel(v);
    }
  }

  /** Where every pixel has the same colour, blurring changes nothing. */
  ghost predicate Uniform(f: Frame)
  {
    forall x, y, c :: InGrid(f.width, f.height, x, y) && 0 <= c < 4 ==> At(f, x, y, c) == At(f, 0, 0, c)
  }

  lemma {:induction false} BoxBlurUniform(f: Frame, radius: int)
    requires Shaped(f) && Uniform(f)
    ensures BoxBlurred(f, radius) == f
  {
    if radius > 0 && f.width > 0 && f.height > 0 {
      var h := HorizontalBlurred(f, radius);
      forall x, y, c | InGrid(f.width, f.height, x, y) && 0 <= c < 4 ensures At(h, x, y, c) == At(f, x, y, c) {
        var v := At(f, 0, 0, c);
        HorizontalWithin(f, radius, x, y, c, v, v);
      }
      FrameExt(h, f);
      var g := VerticalBlurred(f, radius);
      forall x, y, c | InGrid(f.width, f.height, x, y) && 0 <= c < 4 ensures At(g, x, y, c) == At(f, x, y, c) {
        var v := At(f, 0, 0, c);
        VerticalWithin(f, radius, x, y, c, v, v);
      }
      FrameExt(g, f);
    }
  }

  /** The bytes of pixel (x, y) in the frame a pass writes. */
  lemma HorizontalAt(f: Frame, radius: int, x: int, y: int)
    requires f.width >= 0 && f.height >= 0 && InGrid(f.width, f.height, x, y)
    ensures HorizontalWritten(f, radius, HorizontalBlurred(f, radius).data, x, y)
  {
    IdxCompose(f.width, f.height, x, y, 0);
    IdxCompose(f.width, f.height, x, y, 1);
    IdxCompose(f.width, f.height, x, y, 2);
    IdxCompose(f.width, f.height, x, y, 3);
  }

  lemma VerticalAt(f: Frame, radius: int, x: int, y: int)
    requires f.width >= 0 && f.height >= 0 && InGrid(f.width, f.height, x, y)
    ensures VerticalWritten(f, radius, VerticalBlurred(f, radius).data, x, y)
  {
    IdxCompose(f.width, f.height, x, y, 0);
    IdxCompose(f.width, f.height, x, y, 1);
    IdxCompose(f.width, f.height, x, y, 2);
    IdxCompose(f.width, f.height, x, y, 3);
  }

  // ---------------------------------------------------------------------
  // The passes
  // ---------------------------------------------------------------------

  /** The pixel index after the last one of row y is the first of row y + 1. */
  lemma NextRow(w: int, y: int)
    ensures y * w + w == (y + 1) * w
  {
  }

  /** The kx loop's state after the pixels lo .. hi - 1 of row y: their count in bounds and channel sums. */
  ghost predicate RowWindowSoFar(f: Frame, y: int, lo: int, hi: int, count: int, r: int, g: int, b: int, a: int)
  {
    count == InRange(lo, hi, f.width) && r == RowSum(f, y, 0, lo, hi) && g == RowSum(f, y, 1, lo, hi)
    && b == RowSum(f, y, 2, lo, hi) && a == RowSum(f, y, 3, lo, hi)
  }

  /** Extending a row window by pixel sx adds that pixel's channels when it is in bounds. */
  lemma {:induction false} RowWindowStep(f: Frame, y: int, lo: int, sx: int, count: int, r: int, g: int, b: int, a: int)
    requires Shaped(f) && 0 <= y < f.height && lo <= sx && RowWindowSoFar(f, y, lo, sx, count, r, g, b, a)
    ensures var i := (y * f.width + sx) * 4;
      (0 <= sx < f.width ==>
         (0 <= i && i + 4 <= |f.data| &&
          RowWindowSoFar(f, y, lo, sx + 1, count + 1, r + f.data[i], g + f.data[i + 1], b + f.data[i + 2], a + f.data[i + 3]))) &&
      (!(0 <= sx < f.width) ==> RowWindowSoFar(f, y, lo, sx + 1, count, r, g, b, a))
  {
    InRangeStep(lo, sx, f.width);
    if 0 <= sx < f.width {
      PixelBytes(f, sx, y);
    }
  }

  /** The ky loop's state after the pixels lo .. hi - 1 of column x. */
  ghost predicate ColumnWindowSoFar(f: Frame, x: int, lo: int, hi: int, count: int, r: int, g: int, b: int, a: int)
  {
    count == InRange(lo, hi, f.height) && r == ColSum(f, x, 0, lo, hi) && g == ColSum(f, x, 1, lo, hi)
    && b == ColSum(f, x, 2, lo, hi) && a == ColSum(f, x, 3, lo, hi)
  }

  /** Extending a column window by pixel sy adds that pixel's channels when it is in bounds. */
  lemma {:induction false} ColumnWindowStep(f: Frame, x: int, lo: int, sy: int, count: int, r: int, g: int, b: int, a: int)
    requires Shaped(f) && 0 <= x < f.width && lo <= sy && ColumnWindowSoFar(f, x, lo, sy, count, r, g, b, a)
    ensures var i := (sy * f.width + x) * 4;
      (0 <= sy < f.height ==>
         (0 <= i && i + 4 <= |f.data| &&
          ColumnWindowSoFar(f, x, lo, sy + 1, count + 1, r + f.data[i], g + f.data[i + 1], b + f.data[i + 2], a + f.data[i + 3]))) &&
      (!(0 <= sy < f.height) ==> ColumnWindowSoFar(f, x, lo, sy + 1, count, r, g, b, a))
  {
    InRangeStep(lo, sy, f.height);
    if 0 <= sy < f.height {
      PixelBytes(f, x, sy);
    }
  }

  /** The kx loop of horizontalBlur: channel sums and count over the in-bounds part of the window. */
  method RowWindow(src: array<int>, width: int, height: int, radius: int, x: int, y: int)
    returns (sumR: int, sumG: int, sumB: int, sumA: int, count: int)
    requires width >= 0 && height >= 0 && src.Length == width * height * 4
    requires radius >= 0 && InGrid(width, height, x, y)
    ensures count == InRange(x - radius, x + radius + 1, width) && count >= 1
    ensures sumR == RowSum(Frame(width, height, src[..]), y, 0, x - radius, x + radius + 1)
    ensures sumG == RowSum(Frame(width, height, src[..]), y, 1, x - radius, x + radius + 1)
    ensures sumB == RowSum(Frame(width, height, src[..]), y, 2, x - radius, x + radius + 1)
    ensures sumA == RowSum(Frame(width, height, src[..]), y, 3, x - radius, x + radius + 1)
  {
    ghost var f := Frame(width, height, src[..]);
    sumR, sumG, sumB, sumA := 0, 0, 0, 0;
    count := 0;
    var kx := -radius;
    while kx <= radius
      invariant -radius <= kx <= radius + 1
      invariant RowWindowSoFar(f, y, x - radius, x + kx, count, sumR, sumG, sumB, sumA)
    {
      var sx := x + kx;
      RowWindowStep(f, y, x - radius, sx, count, sumR, sumG, sumB, sumA);
      if sx >= 0 && sx < width {
        var idx := (y * width + sx) * 4;
        sumR := sumR + src[idx + 0];
        sumG := sumG + src[idx + 1];
        sumB := sumB + src[idx + 2];
        sumA := sumA + src[idx + 3];
        count := count + 1;
      }
      kx := kx + 1;
      assert x + kx == sx + 1;
    }
    InRangeCentre(x, radius, width);
  }

  /** The ky loop of verticalBlur. */
  method ColumnWindow(src: array<int>, width: int, height: int, radius: int, x: int, y: int)
    returns (sumR: int, sumG: int, sumB: int, sumA: int, count: int)
    requires width >= 0 && height >= 0 && src.Length == width * height * 4
    requires radius >= 0 && InGrid(width, height, x, y)
    ensures count == InRange(y - radius, y + radius + 1, height) && count >= 1
    ensures sumR == ColSum(Frame(width, height, src[..]), x, 0, y - radius, y + radius + 1)
    ensures sumG == ColSum(Frame(width, height, src[..]), x, 1, y - radius, y + radius + 1)
    ensures sumB == ColSum(Frame(width, height, src[..]), x, 2, y - radius, y + radius + 1)
    ensures sumA == ColSum(Frame(width, height, src[..]), x, 3, y - radius, y + radius + 1)
  {
    ghost var f := Frame(width, height, src[..]);
    sumR, sumG, sumB, sumA := 0, 0, 0, 0;
    count := 0;
    var ky := -radius;
    while ky <= radius
      invariant -radius <= ky <= radius + 1
      invariant ColumnWindowSoFar(f, x, y - radius, y + ky, count, sumR, sumG, sumB, sumA)
    {
      var sy := y + ky;
      ColumnWindowStep(f, x, y - radius, sy, count, sumR, sumG, sumB, sumA);
      if sy >= 0 && sy < height {
        var idx := (sy * width + x) * 4;
        sumR := sumR + src[idx + 0];
        sumG := sumG + src[idx + 1];
        sumB := sumB + src[idx + 2];
        sumA := sumA + src[idx + 3];
        count := count + 1;
      }
      ky := ky + 1;
      assert y + ky == sy + 1;
    }
    InRangeCentre(y, radius, height);
  }

  /** Writing pixel p's four channels extends a correct prefix of p pixels to p + 1. */
  lemma ExtendPrefix(before: seq<int>, after: seq<int>, target: seq<int>, p: int)
    requires |before| == |after| == |target| && 0 <= p && p * 4 + 4 <= |target|
    requires forall k :: 0 <= k < p * 4 ==> before[k] == target[k]
    requires forall k :: 0 <= k < |before| && !(p * 4 <= k < p * 4 + 4) ==> after[k] == before[k]
    requires after[p * 4] == target[p * 4] && after[p * 4 + 1] == target[p * 4 + 1]
    requires after[p * 4 + 2] == target[p * 4 + 2] && after[p * 4 + 3] == target[p * 4 + 3]
    ensures forall k :: 0 <= k < (p + 1) * 4 ==> after[k] == target[k]
  {
  }

  /** Pixel (x, y) of t holds the four channel values of the horizontal pass. */
  ghost predicate HorizontalWritten(f: Frame, radius: int, t: seq<int>, x: int, y: int)
  {
    var i := (y * f.width + x) * 4;
    0 <= i && i + 4 <= |t|
    && t[i] == HorizontalPixel(f, radius, x, y, 0) && t[i + 1] == HorizontalPixel(f, radius, x, y, 1)
    && t[i + 2] == HorizontalPixel(f, radius, x, y, 2) && t[i + 3] == HorizontalPixel(f, radius, x, y, 3)
  }

  lemma HorizontalTarget(f: Frame, radius: int)
    requires f.width >= 0 && f.height >= 0
    ensures forall x, y :: InGrid(f.width, f.height, x, y) ==> HorizontalWritten(f, radius, HorizontalBlurred(f, radius).data, x, y)
  {
    forall x, y | InGrid(f.width, f.height, x, y) ensures HorizontalWritten(f, radius, HorizontalBlurred(f, radius).data, x, y) {
      HorizontalAt(f, radius, x, y);
    }
  }

  /** One pixel of the horizontal pass: the window sums of (x, y), averaged into dst. */
  method HorizontalPixelStep(src: array<int>, dst: array<int>, width: int, height: int, radius: int, x: int, y: int,
                     ghost f: Frame, ghost target: seq<int>)
    requires src != dst && width >= 0 && height >= 0 && radius >= 0 && InGrid(width, height, x, y)
    requires src.Length == dst.Length == |target| == width * height * 4 && f == Frame(width, height, src[..])
    requires HorizontalWritten(f, radius, target, x, y)
    requires forall k :: 0 <= k < (y * width + x) * 4 ==> dst[k] == target[k]
    modifies dst
    ensures forall k :: 0 <= k < (y * width + x + 1) * 4 ==> dst[k] == target[k]
  {
    ghost var p := y * width + x;
    var sumR, sumG, sumB, sumA, count := RowWindow(src, width, height, radius, x, y);
    ghost var before := dst[..];
    var dstIdx := (y * width + x) * 4;
    dst[dstIdx + 0] := sumR / count;
    dst[dstIdx + 1] := sumG / count;
    dst[dstIdx + 2] := sumB / count;
    dst[dstIdx + 3] := sumA / count;
    ExtendPrefix(before, dst[..], target, p);
  }

  /** The y and x loops of the horizontal pass, writing every pixel of target into dst. */
  method HorizontalPass(src: array<int>, dst: array<int>, width: int, height: int, radius: int,
                ghost f: Frame, ghost target: seq<int>)
    requires src != dst && width >= 0 && height >= 0 && radius >= 0
    requires src.Length == dst.Length == |target| == width * height * 4 && f == Frame(width, height, src[..])
    requires forall x, y :: InGrid(width, height, x, y) ==> HorizontalWritten(f, radius, target, x, y)
    modifies dst
    ensures dst[..] == target
  {
    ghost var p := 0;
    var y := 0;
    while y < height
      invariant 0 <= y <= height && p == y * width && p <= width * height
      invariant forall k :: 0 <= k < p * 4 ==> dst[k] == target[k]
    {
      var x := 0;
      while x < width
        invariant 0 <= x <= width && p == y * width + x && p <= width * height
        invariant forall k :: 0 <= k < p * 4 ==> dst[k] == target[k]
      {
        RowMajorBound(width, height, x, y);
        HorizontalPixelStep(src, dst, width, height, radius, x, y, f, target);
        p := p + 1;
        x := x + 1;
      }
      NextRow(width, y);
      y := y + 1;
    }
  }

  method HorizontalBlur(src: array<int>, dst: array<int>, width: int, height: int, radius: int)
    requires src != dst && width >= 0 && height >= 0 && radius >= 0
    requires src.Length == dst.Length == width * height * 4
    modifies dst
    ensures dst[..] == HorizontalBlurred(Frame(width, height, src[..]), radius).data
  {
    ghost var f := Frame(width, height, src[..]);
    HorizontalTarget(f, radius);
    HorizontalPass(src, dst, width, height, radius, f, HorizontalBlurred(f, radius).data);
  }

  /** Pixel (x, y) of t holds the four channel values of the vertical pass. */
  ghost predicate VerticalWritten(f: Frame, radius: int, t: seq<int>, x: int, y: int)
  {
    var i := (y * f.width + x) * 4;
    0 <= i && i + 4 <= |t|
    && t[i] == VerticalPixel(f, radius, x, y, 0) && t[i + 1] == VerticalPixel(f, radius, x, y, 1)
    && t[i + 2] == VerticalPixel(f, radius, x, y, 2) && t[i + 3] == VerticalPixel(f, radius, x, y, 3)
  }

  lemma VerticalTarget(f: Frame, radius: int)
    requires f.width >= 0 && f.height >= 0
    ensures forall x, y :: InGrid(f.width, f.height, x, y) ==> VerticalWritten(f, radius, VerticalBlurred(f, radius).data, x, y)
  {
    forall x, y | InGrid(f.width, f.height, x, y) ensures VerticalWritten(f, radius, VerticalBlurred(f, radius).data, x, y) {
      VerticalAt(f, radius, x, y);
    }
  }

  /** One pixel of the vertical pass: the window sums of (x, y), averaged into dst. */
  method VerticalPixelStep(src: array<int>, dst: array<int>, width: int, height: int, radius: int, x: int, y: int,
                     ghost f: Frame, ghost target: seq<int>)
    requires src != dst && width >= 0 && height >= 0 && radius >= 0 && InGrid(width, height, x, y)
    requires src.Length == dst.Length == |target| == width * height * 4 && f == Frame(width, height, src[..])
    requires VerticalWritten(f, radius, target, x, y)
    requires forall k :: 0 <= k < (y * width + x) * 4 ==> dst[k] == target[k]
    modifies dst
    ensures forall k :: 0 <= k < (y * width + x + 1) * 4 ==> dst[k] == target[k]
  {
    ghost var p := y * width + x;
    var sumR, sumG, sumB, sumA, count := ColumnWindow(src, width, height, radius, x, y);
    ghost var before := dst[..];
    var dstIdx := (y * width + x) * 4;
    dst[dstIdx + 0] := sumR / count;
    dst[dstIdx + 1] := sumG / count;
    dst[dstIdx + 2] := sumB / count;
    dst[dstIdx + 3] := sumA / count;
    ExtendPrefix(before, dst[..], target, p);
  }

  /** The y and x loops of the vertical pass, writing every pixel of target into dst. */
  method VerticalPass(src: array<int>, dst: array<int>, width: int, height: int, radius: int,
                ghost f: Frame, ghost target: seq<int>)
    requires src != dst && width >= 0 && height >= 0 && radius >= 0
    requires src.Length == dst.Length == |target| == width * height * 4 && f == Frame(width, height, src[..])
    requires forall x, y :: InGrid(width, height, x, y) ==> VerticalWritten(f, radius, target, x, y)
    modifies dst
    ensures dst[..] == target
  {
    ghost var p := 0;
    var y := 0;
    while y < height
      invariant 0 <= y <= height && p == y * width && p <= width * height
      invariant forall k :: 0 <= k < p * 4 ==> dst[k] == target[k]
    {
      var x := 0;
      while x < width
        invariant 0 <= x <= width && p == y * width + x && p <= width * height
        invariant forall k :: 0 <= k < p * 4 ==> dst[k] == target[k]
      {
        RowMajorBound(width, height, x, y);
        VerticalPixelStep(src, dst, width, height, radius, x, y, f, target);
        p := p + 1;
        x := x + 1;
      }
      NextRow(width, y);
      y := y + 1;
    }
  }

  method VerticalBlur(src: array<int>, dst: array<int>, width: int, height: int, radius: int)
    requires src != dst && width >= 0 && height >= 0 && radius >= 0
    requires src.Length == dst.Length == width * height * 4
    modifies dst
    ensures dst[..] == VerticalBlurred(Frame(width, height, src[..]), radius).data
  {
    ghost var f := Frame(width, height, src[..]);
    VerticalTarget(f, radius);
    VerticalPass(src, dst, width, height, radius, f, VerticalBlurred(f, radius).data);
  }

  /** boxBlur through a temporary buffer of the same size. */
  method BoxBlur(data: array<int>, width: int, height: int, radius: int)
    requires width >= 0 && height >= 0 && data.Length == width * height * 4 && AllBytes(data[..])
    modifies data
    ensures Frame(width, height, data[..]) == BoxBlurred(Frame(width, height, old(data[..])), radius)
    ensures AllBytes(data[..])
  {
    if radius <= 0 {
      return;
    }
    var temp := new int[data.Length];
    HorizontalBlur(data, temp, width, height, radius);
    VerticalBlur(temp, data, width, height, radius);
    BoxBlurValid(Frame(width, height, old(data[..])), radius);
  }

  /** apply delegates to boxBlur. */
  method Apply(data: array<int>, width: int, height: int, radius: int)
    requires width >= 0 && height >= 0 && data.Length == width * height * 4 && AllBytes(data[..])
    modifies data
    ensures Frame(width, height, data[..]) == BoxBlurred(Frame(width, height, old(data[..])), radius)
    ensures AllBytes(data[..])
  {
    BoxBlur(data, width, height, radius);
  }

  /** gaussianBlur's guard: a radius of at most 0 leaves the frame alone. */
  method GaussianBlur(data: array<int>, width: int, height: int, radius: int)
    requires radius <= 0
    modifies data
    ensures data[..] == old(data[..])
  {
  }

  /** motionBlur's guard: a distance of at most 0 leaves the frame alone. */
  method MotionBlur(data: array<int>, width: int, height: int, angle: int, distance: int)
    requires distance <= 0
    modifies data
    ensures data[..] == old(data[..])
  {
  }
}
