// SharpenFilter (sharpen_filter.cpp). apply runs a 3 x 3 sharpening kernel
// over the interior pixels into a fresh buffer, copies the border pixels
// and every alpha byte, and replaces the frame's data with the result.
// unsharpMask blurs a copy with the two box-blur passes and then pushes
// each colour byte away from its blurred value where the two differ by
// more than a threshold. Float arithmetic is taken exactly (reals).
module SharpenFilter {
  import opened Common
  import ImageUtils
  import BlurFilter

  // ---------------------------------------------------------------------
  // apply: the 3 x 3 kernel
  // ---------------------------------------------------------------------

  /** The kernel, row by row: -intensity at the four neighbours, 1 + 4 * intensity at the centre. */
  function Kernel(intensity: real): (k: seq<real>)
    ensures |k| == 9
  {
    [0.0, -intensity, 0.0,
     -intensity, 1.0 + 4.0 * intensity, -intensity,
     0.0, -intensity, 0.0]
  }

  /** The nine pixels under the kernel at (x, y), row by row: tap j sits at offset (j % 3 - 1, j / 3 - 1). */
  function Taps(f: Frame, x: int, y: int, c: int): (t: seq<int>)
    ensures |t| == 9
  {
    seq(9, j => At(f, x + j % 3 - 1, y + j / 3 - 1, c))
  }

  /** The first n products tap * weight, summed in the loops' order. */
  function Dot(taps: seq<int>, weights: seq<real>, n: int): real
    requires 0 <= n <= |taps| && n <= |weights|
    decreases n
  {
    if n == 0 then 0.0 else Dot(taps, weights, n - 1) + Term(taps[n - 1], weights[n - 1])
  }

  /** One product of a byte and a kernel weight. */
  function Term(v: int, weight: real): real
  {
    v as real * weight
  }

  /** The closed form: the centre weighted 1 + 4i minus i times the sum of its four neighbours. */
  function Weighted(centre: int, neighbours: int, intensity: real): real
  {
    (1.0 + 4.0 * intensity) * centre as real - intensity * neighbours as real
  }

  /** The sum in closed form: the centre weighted 1 + 4i minus i times its four neighbours. */
  function SharpSum(f: Frame, intensity: real, x: int, y: int, c: int): real
  {
    Weighted(At(f, x, y, c), At(f, x, y - 1, c) + At(f, x - 1, y, c) + At(f, x + 1, y, c) + At(f, x, y + 1, c), intensity)
  }

  /** Nine terms of any tap row against the kernel: the closed form in the taps. */
  lemma {:induction false} DotKernel(t: seq<int>, intensity: real)
    requires |t| == 9
    ensures Dot(t, Kernel(intensity), 9) == Weighted(t[4], t[1] + t[3] + t[5] + t[7], intensity)
  {
    var k := Kernel(intensity);
    assert Dot(t, k, 3) == t[1] as real * -intensity;
    assert Dot(t, k, 6) == Dot(t, k, 3) + t[3] as real * -intensity + t[4] as real * (1.0 + 4.0 * intensity) + t[5] as real * -intensity;
    assert Dot(t, k, 9) == Dot(t, k, 6) + t[7] as real * -intensity;
  }

  /** The kernel loop computes the closed form. */
  lemma {:induction false} KernelSumClosedForm(f: Frame, intensity: real, x: int, y: int, c: int)
    ensures Dot(Taps(f, x, y, c), Kernel(intensity), 9) == SharpSum(f, intensity, x, y, c)
  {
    var t := Taps(f, x, y, c);
    assert t[1] == At(f, x, y - 1, c) && t[3] == At(f, x - 1, y, c) && t[4] == At(f, x, y, c);
    assert t[5] == At(f, x + 1, y, c) && t[7] == At(f, x, y + 1, c);
    DotKernel(t, intensity);
  }

  /** std::max(0, std::min(255, sum)) cast to uint8_t. */
  function SharpByte(f: Frame, intensity: real, x: int, y: int, c: int): int
  {
    Trunc(ClampReal(SharpSum(f, intensity, x, y, c), 0.0, 255.0))
  }

  /** A pixel with all four neighbours inside the frame: the kernel's domain. */
  predicate Interior(w: int, h: int, x: int, y: int)
  {
    1 <= x < w - 1 && 1 <= y < h - 1
  }

  /** Channel c of pixel (x, y) after apply. */
  function SharpPixel(f: Frame, intensity: real, x: int, y: int, c: int): int
  {
    if Interior(f.width, f.height, x, y) && c < 3 then SharpByte(f, intensity, x, y, c) else At(f, x, y, c)
  }

  /** The frame apply leaves: kernel output on interior colour bytes, the input elsewhere. */
  function Sharpened(f: Frame, intensity: real): (r: Frame)
    requires Shaped(f)
    ensures Shaped(r) && r.width == f.width && r.height == f.height
  {
    Build(f.width, f.height, (x, y, c) => SharpPixel(f, intensity, x, y, c))
  }

  // ---------------------------------------------------------------------
  // apply: properties
  // ---------------------------------------------------------------------

  /** Every interior colour byte lies in [0, 255]: the clamp precedes the cast. */
  lemma {:induction false} SharpByteIsByte(f: Frame, intensity: real, x: int, y: int, c: int)
    ensures IsByte(SharpByte(f, intensity, x, y, c))
  {
  }

  /**
   * Border pixels and every alpha byte are copied; the result holds bytes
   * whenever the input does.
   */
  lemma {:induction false} SharpenKeepsBorderAndAlpha(f: Frame, intensity: real, x: int, y: int, c: int)
    requires ValidFrame(f) && InGrid(f.width, f.height, x, y) && 0 <= c < 4
    ensures !Interior(f.width, f.height, x, y) ==> At(Sharpened(f, intensity), x, y, c) == At(f, x, y, c)
    ensures At(Sharpened(f, intensity), x, y, 3) == At(f, x, y, 3)
    ensures IsByte(At(Sharpened(f, intensity), x, y, c))
  {
    AtIsByte(f, x, y, c);
  }

  /** A byte survives the clamp-and-truncate unchanged. */
  lemma {:induction false} ByteClampTrunc(v: int)
    requires IsByte(v)
    ensures Trunc(ClampReal(v as real, 0.0, 255.0)) == v
  {
  }

  /** Intensity 0 makes the kernel the identity: the frame comes back unchanged. */
  lemma {:induction false} SharpenZeroIsIdentity(f: Frame)
    requires ValidFrame(f)
    ensures Sharpened(f, 0.0) == f
  {
    var r := Sharpened(f, 0.0);
    forall x, y, c | InGrid(f.width, f.height, x, y) && 0 <= c < 4
      ensures At(r, x, y, c) == At(f, x, y, c)
    {
      if Interior(f.width, f.height, x, y) && c < 3 {
        AtIsByte(f, x, y, c);
        assert SharpSum(f, 0.0, x, y, c) == At(f, x, y, c) as real;
        ByteClampTrunc(At(f, x, y, c));
      }
    }
    FrameExt(r, f);
  }

  /** Frames narrower or shorter than 3 pixels have no interior and come back unchanged. */
  lemma {:induction false} SharpenSmallFrame(f: Frame, intensity: real)
    requires Shaped(f) && (f.width < 3 || f.height < 3)
    ensures Sharpened(f, intensity) == f
  {
    var r := Sharpened(f, intensity);
    forall x, y, c | InGrid(f.width, f.height, x, y) && 0 <= c < 4
      ensures At(r, x, y, c) == At(f, x, y, c)
    {
    }
    FrameExt(r, f);
  }

  /** The kernel's weights sum to 1, so an interior pixel whose neighbours share its value keeps it. */
  lemma {:induction false} SharpenFlatNeighbourhood(f: Frame, intensity: real, x: int, y: int, c: int)
    requires ValidFrame(f) && Interior(f.width, f.height, x, y) && 0 <= c < 3
    requires At(f, x, y - 1, c) == At(f, x - 1, y, c) == At(f, x + 1, y, c) == At(f, x, y + 1, c) == At(f, x, y, c)
    ensures At(Sharpened(f, intensity), x, y, c) == At(f, x, y, c)
  {
    var v := At(f, x, y, c);
    assert SharpSum(f, intensity, x, y, c) == (1.0 + 4.0 * intensity) * v as real - intensity * (4 * v) as real;
    assert SharpSum(f, intensity, x, y, c) == v as real;
    AtIsByte(f, x, y, c);
    ByteClampTrunc(v);
  }

  // ---------------------------------------------------------------------
  // apply: the loops
  // ---------------------------------------------------------------------

  /** Byte k of the result: what apply's two loops leave there. */
  function Target(f: Frame, intensity: real, k: int): int
  {
    SharpPixel(f, intensity, ColOf(f.width, k / 4), RowOf(f.width, k / 4), k % 4)
  }

  /** Byte k while the interior loops stand at (x, y): written for interior pixels already visited, else 0. */
  function InteriorSoFar(f: Frame, intensity: real, k: int, x: int, y: int): int
  {
    var X, Y := ColOf(f.width, k / 4), RowOf(f.width, k / 4);
    if Interior(f.width, f.height, X, Y) && (Y < y || (Y == y && X < x)) then Target(f, intensity, k) else 0
  }

  /** Byte k while the edge loops stand at (x, y): interior done, border pixels copied up to (x, y). */
  function EdgeSoFar(f: Frame, intensity: real, k: int, x: int, y: int): int
  {
    var X, Y := ColOf(f.width, k / 4), RowOf(f.width, k / 4);
    if Interior(f.width, f.height, X, Y) || Y < y || (Y == y && X < x) then Target(f, intensity, k) else 0
  }

  lemma {:induction false} InteriorStep(f: Frame, intensity: real, x: int, y: int, before: seq<int>, after: seq<int>)
    requires Shaped(f) && Interior(f.width, f.height, x, y) && |before| == |after| == |f.data|
    requires forall k :: 0 <= k < |before| ==> before[k] == InteriorSoFar(f, intensity, k, x, y)
    requires forall k :: 0 <= k < |after| ==>
      after[k] == if PixelIs(f.width, k, x, y) then Target(f, intensity, k) else before[k]
    ensures forall k :: 0 <= k < |after| ==> after[k] == InteriorSoFar(f, intensity, k, x + 1, y)
  {
  }

  lemma {:induction false} InteriorRowDone(f: Frame, intensity: real, y: int, a: seq<int>)
    requires Shaped(f) && |a| == |f.data|
    requires forall k :: 0 <= k < |a| ==> a[k] == InteriorSoFar(f, intensity, k, Max(1, f.width - 1), y)
    ensures forall k :: 0 <= k < |a| ==> a[k] == InteriorSoFar(f, intensity, k, 1, y + 1)
  {
  }

  /** After the interior loops, the interior holds its final values and the border is still 0. */
  lemma {:induction false} InteriorAllDone(f: Frame, intensity: real, y: int, a: seq<int>)
    requires Shaped(f) && |a| == |f.data| && y >= f.height - 1
    requires forall k :: 0 <= k < |a| ==> a[k] == InteriorSoFar(f, intensity, k, 1, y)
    ensures forall k :: 0 <= k < |a| ==> a[k] == EdgeSoFar(f, intensity, k, 0, 0)
  {
    AllInGrid(f.width, f.height);
  }

  lemma {:induction false} EdgeStep(f: Frame, intensity: real, x: int, y: int, before: seq<int>, after: seq<int>)
    requires Shaped(f) && InGrid(f.width, f.height, x, y) && |before| == |after| == |f.data|
    requires forall k :: 0 <= k < |before| ==> before[k] == EdgeSoFar(f, intensity, k, x, y)
    requires Interior(f.width, f.height, x, y) ==> after == before
    requires !Interior(f.width, f.height, x, y) ==>
      forall k :: 0 <= k < |after| ==>
        after[k] == if PixelIs(f.width, k, x, y) then At(f, x, y, k % 4) else before[k]
    ensures forall k :: 0 <= k < |after| ==> after[k] == EdgeSoFar(f, intensity, k, x + 1, y)
  {
  }

  lemma {:induction false} EdgeRowDone(f: Frame, intensity: real, y: int, a: seq<int>)
    requires Shaped(f) && |a| == |f.data|
    requires forall k :: 0 <= k < |a| ==> a[k] == EdgeSoFar(f, intensity, k, f.width, y)
    ensures forall k :: 0 <= k < |a| ==> a[k] == EdgeSoFar(f, intensity, k, 0, y + 1)
  {
    AllInGrid(f.width, f.height);
  }

  lemma {:induction false} EdgeAllDone(f: Frame, intensity: real, a: seq<int>)
    requires Shaped(f) && |a| == |f.data|
    requires forall k :: 0 <= k < |a| ==> a[k] == EdgeSoFar(f, intensity, k, 0, f.height)
    ensures a == Sharpened(f, intensity).data
  {
    AllInGrid(f.width, f.height);
    var r := Sharpened(f, intensity);
    forall k | 0 <= k < |a| ensures a[k] == r.data[k] {
      assert RowOf(f.width, k / 4) < f.height;
    }
  }

  /** The kernel sum for channel c of pixel (x, y), by the ky / kx loops. */
  method SumKernel(f: Frame, kernel: seq<real>, x: int, y: int, c: int) returns (sum: real)
    requires Shaped(f) && |kernel| == 9 && Interior(f.width, f.height, x, y) && 0 <= c < 3
    ensures sum == Dot(Taps(f, x, y, c), kernel, 9)
  {
    sum := 0.0;
    var ky := -1;
    while ky <= 1
      invariant -1 <= ky <= 2
      invariant sum == Dot(Taps(f, x, y, c), kernel, (ky + 1) * 3)
    {
      sum := SumKernelRow(f, kernel, x, y, c, ky, sum);
      ky := ky + 1;
    }
  }

  /** The kx loop for kernel row ky, adding three terms to the running sum. */
  method SumKernelRow(f: Frame, kernel: seq<real>, x: int, y: int, c: int, ky: int, sum0: real) returns (sum: real)
    requires Shaped(f) && |kernel| == 9 && Interior(f.width, f.height, x, y) && 0 <= c < 3 && -1 <= ky <= 1
    requires sum0 == Dot(Taps(f, x, y, c), kernel, (ky + 1) * 3)
    ensures sum == Dot(Taps(f, x, y, c), kernel, (ky + 1) * 3 + 3)
  {
    sum := sum0;
    var kx := -1;
    while kx <= 1
      invariant -1 <= kx <= 2
      invariant sum == Dot(Taps(f, x, y, c), kernel, (ky + 1) * 3 + (kx + 1))
    {
      var idx := Idx(f.width, x + kx, y + ky, c);
      TapIndex(f, x, y, c, kx, ky);
      sum := sum + Term(f.data[idx], kernel[(ky + 1) * 3 + (kx + 1)]);
      kx := kx + 1;
    }
  }

  /** Tap (kx, ky) of an interior pixel is the byte the loop reads. */
  lemma TapIndex(f: Frame, x: int, y: int, c: int, kx: int, ky: int)
    requires Shaped(f) && Interior(f.width, f.height, x, y) && 0 <= c < 3 && -1 <= kx <= 1 && -1 <= ky <= 1
    ensures 0 <= Idx(f.width, x + kx, y + ky, c) < |f.data|
    ensures Taps(f, x, y, c)[(ky + 1) * 3 + (kx + 1)] == f.data[Idx(f.width, x + kx, y + ky, c)]
  {
    IdxCompose(f.width, f.height, x + kx, y + ky, c);
    var j := (ky + 1) * 3 + (kx + 1);
    assert j % 3 - 1 == kx && j / 3 - 1 == ky;
  }

  /** The three colour outputs of one interior pixel, channel by channel. */
  method SharpChannels(f: Frame, kernel: seq<real>, intensity: real, x: int, y: int) returns (r: int, g: int, b: int)
    requires Shaped(f) && kernel == Kernel(intensity) && Interior(f.width, f.height, x, y)
    ensures r == SharpByte(f, intensity, x, y, 0)
    ensures g == SharpByte(f, intensity, x, y, 1)
    ensures b == SharpByte(f, intensity, x, y, 2)
  {
    var vals: seq<int> := [];
    var c := 0;
    while c < 3
      invariant 0 <= c <= 3 && |vals| == c
      invariant forall i :: 0 <= i < c ==> vals[i] == SharpByte(f, intensity, x, y, i)
    {
      var sum := SumKernel(f, kernel, x, y, c);
      KernelSumClosedForm(f, intensity, x, y, c);
      vals := vals + [Trunc(ClampReal(sum, 0.0, 255.0))];
      c := c + 1;
    }
    r, g, b := vals[0], vals[1], vals[2];
  }

  /** One interior pixel: the three kernel outputs, then the copied alpha byte. */
  method SharpenPixel(f: Frame, kernel: seq<real>, intensity: real, result: array<int>, x: int, y: int)
    requires Shaped(f) && kernel == Kernel(intensity) && Interior(f.width, f.height, x, y)
    requires result.Length == |f.data|
    modifies result
    ensures forall k :: 0 <= k < result.Length ==>
      result[k] == if PixelIs(f.width, k, x, y) then Target(f, intensity, k) else old(result[k])
  {
    assert result.Length == f.width * f.height * 4;
    IdxCompose(f.width, f.height, x, y, 3);
    var r, g, b := SharpChannels(f, kernel, intensity, x, y);
    var alphaIdx := (y * f.width + x) * 4 + 3;
    ImageUtils.PaintPixel(result, f.width, f.height, x, y, r, g, b, f.data[alphaIdx]);
    forall k | 0 <= k < result.Length && PixelIs(f.width, k, x, y)
      ensures ImageUtils.Channel(k % 4, r, g, b, f.data[alphaIdx]) == Target(f, intensity, k)
    {
      PixelIndex(f.width, f.height, k, x, y);
    }
  }

  /** The kernel loops: every interior pixel of a zeroed buffer gets its final value. */
  method InteriorPass(frame: Frame, kernel: seq<real>, intensity: real, result: array<int>)
    requires Shaped(frame) && kernel == Kernel(intensity) && result.Length == |frame.data|
    requires forall k :: 0 <= k < result.Length ==> result[k] == 0
    modifies result
    ensures forall k :: 0 <= k < result.Length ==> result[k] == EdgeSoFar(frame, intensity, k, 0, 0)
  {
    var w, h := frame.width, frame.height;
    var y := 1;
    while y < h - 1
      invariant 1 <= y <= Max(1, h - 1)
      invariant forall k :: 0 <= k < result.Length ==> result[k] == InteriorSoFar(frame, intensity, k, 1, y)
    {
      var x := 1;
      while x < w - 1
        invariant 1 <= x <= Max(1, w - 1)
        invariant forall k :: 0 <= k < result.Length ==> result[k] == InteriorSoFar(frame, intensity, k, x, y)
      {
        ghost var before := result[..];
        SharpenPixel(frame, kernel, intensity, result, x, y);
        InteriorStep(frame, intensity, x, y, before, result[..]);
        x := x + 1;
      }
      InteriorRowDone(frame, intensity, y, result[..]);
      y := y + 1;
    }
    InteriorAllDone(frame, intensity, y, result[..]);
  }

  /** The edge loops: every border pixel is copied from the frame. */
  method EdgePass(frame: Frame, intensity: real, result: array<int>)
    requires Shaped(frame) && result.Length == |frame.data|
    requires forall k :: 0 <= k < result.Length ==> result[k] == EdgeSoFar(frame, intensity, k, 0, 0)
    modifies result
    ensures result[..] == Sharpened(frame, intensity).data
  {
    var w, h := frame.width, frame.height;
    assert result.Length == w * h * 4;
    var y := 0;
    while y < h
      invariant 0 <= y <= h
      invariant forall k :: 0 <= k < result.Length ==> result[k] == EdgeSoFar(frame, intensity, k, 0, y)
    {
      var x := 0;
      while x < w
        invariant 0 <= x <= w
        invariant forall k :: 0 <= k < result.Length ==> result[k] == EdgeSoFar(frame, intensity, k, x, y)
      {
        ghost var before := result[..];
        if y == 0 || y == h - 1 || x == 0 || x == w - 1 {
          var idx := (y * w + x) * 4;
          IdxCompose(w, h, x, y, 3);
          ImageUtils.PaintPixel(result, w, h, x, y, frame.data[idx], frame.data[idx + 1], frame.data[idx + 2], frame.data[idx + 3]);
        }
        EdgeStep(frame, intensity, x, y, before, result[..]);
        x := x + 1;
      }
      EdgeRowDone(frame, intensity, y, result[..]);
      y := y + 1;
    }
    EdgeAllDone(frame, intensity, result[..]);
  }

  /**
   * apply: the sharpened frame. frame.data is replaced wholesale by the
   * result buffer, so the method returns the frame's new value.
   */
  method Apply(frame: Frame, intensity: real) returns (sharpened: Frame)
    requires Shaped(frame)
    ensures sharpened == Sharpened(frame, intensity)
  {
    var kernel := Kernel(intensity);
    var result := new int[|frame.data|](i => 0);
    InteriorPass(frame, kernel, intensity, result);
    EdgePass(frame, intensity, result);
    sharpened := Frame(frame.width, frame.height, result[..]);
  }

  // ---------------------------------------------------------------------
  // unsharpMask
  // ---------------------------------------------------------------------

  /**
   * One colour byte of the final pass: pushed away from the blurred value
   * by trunc(diff * amount) and clamped, only where |diff| exceeds the
   * threshold.
   */
  function UnsharpByte(orig: int, blurred: int, amount: real, threshold: int): int
  {
    var diff := orig - blurred;
    if Abs(diff) > threshold then Max(0, Min(255, orig + Push(diff, amount))) else orig
  }

  /** static_cast<int>(diff * amount): the push, truncated toward zero. */
  function Push(diff: int, amount: real): int
  {
    Trunc(diff as real * amount)
  }

  /** The final pass over the whole buffer: colour bytes through UnsharpByte, alpha bytes kept. */
  function Unsharpened(d: seq<int>, blurred: seq<int>, amount: real, threshold: int): (r: seq<int>)
    requires |blurred| == |d|
    ensures |r| == |d|
  {
    seq(|d|, k requires 0 <= k < |d| => if k % 4 != 3 then UnsharpByte(d[k], blurred[k], amount, threshold) else d[k])
  }

  /**
   * The final pass keeps alpha, changes a colour byte only where it
   * differs from the blurred one by more than the threshold, leaves bytes,
   * and with amount 0 changes nothing.
   */
  lemma {:induction false} UnsharpenedProperties(d: seq<int>, blurred: seq<int>, amount: real, threshold: int)
    requires |blurred| == |d| && AllBytes(d)
    ensures var r := Unsharpened(d, blurred, amount, threshold);
      AllBytes(r) &&
      (forall k :: 0 <= k < |d| && (k % 4 == 3 || Abs(d[k] - blurred[k]) <= threshold) ==> r[k] == d[k]) &&
      (amount == 0.0 ==> r == d)
  {
    var r := Unsharpened(d, blurred, amount, threshold);
    assert forall k :: 0 <= k < |d| ==> IsByte(d[k]);
    if amount == 0.0 {
      forall k | 0 <= k < |d| ensures r[k] == d[k] {
        assert Push(d[k] - blurred[k], 0.0) == 0;
      }
    }
  }

  /**
   * The blurred copy unsharpMask builds. Its colour bytes are the means of
   * the horizontal then vertical box-blur pass; its alpha bytes are the
   * frame's own, because the horizontal pass copies alpha into temp and
   * the vertical pass never writes it.
   */
  function UnsharpBlurred(f: Frame, radius: int): (r: seq<int>)
    requires Shaped(f)
    ensures |r| == |f.data|
    ensures forall k :: 0 <= k < |r| && k % 4 == 3 ==> r[k] == f.data[k]
    ensures forall k :: 0 <= k < |r| && k % 4 != 3 ==>
      r[k] == BlurFilter.VerticalBlurred(BlurFilter.HorizontalBlurred(f, radius), radius).data[k]
  {
    var means := BlurFilter.VerticalBlurred(BlurFilter.HorizontalBlurred(f, radius), radius).data;
    seq(|f.data|, k requires 0 <= k < |f.data| => if k % 4 == 3 then f.data[k] else means[k])
  }

  /**
   * The final pass reads only colour bytes, so sharpening against the
   * unsharp blur gives what sharpening against BlurFilter's two passes,
   * alpha averaged, would give.
   */
  lemma {:induction false} UnsharpIgnoresBlurAlpha(f: Frame, radius: int, amount: real, threshold: int)
    requires Shaped(f)
    ensures var means := BlurFilter.VerticalBlurred(BlurFilter.HorizontalBlurred(f, radius), radius).data;
      |means| == |f.data|
      && Unsharpened(f.data, UnsharpBlurred(f, radius), amount, threshold) == Unsharpened(f.data, means, amount, threshold)
  {
    var means := BlurFilter.VerticalBlurred(BlurFilter.HorizontalBlurred(f, radius), radius).data;
    var b := UnsharpBlurred(f, radius);
    assert |means| == |f.data|;
    var r1 := Unsharpened(f.data, b, amount, threshold);
    var r2 := Unsharpened(f.data, means, amount, threshold);
    forall k | 0 <= k < |f.data| ensures r1[k] == r2[k] {
      if k % 4 != 3 {
        assert b[k] == means[k];
      }
    }
  }

  /** The final pass over one pixel's three colour bytes at index i. */
  method UnsharpPixel(data: array<int>, blurred: seq<int>, i: int, amount: real, threshold: int)
    requires |blurred| == data.Length && 0 <= i && i + 4 <= data.Length
    modifies data
    ensures forall k :: 0 <= k < data.Length ==>
      data[k] == if i <= k < i + 3 then UnsharpByte(old(data[k]), blurred[k], amount, threshold) else old(data[k])
  {
    var c := 0;
    while c < 3
      invariant 0 <= c <= 3
      invariant forall k :: 0 <= k < data.Length ==>
        data[k] == if i <= k < i + c then UnsharpByte(old(data[k]), blurred[k], amount, threshold) else old(data[k])
    {
      var diff := data[i + c] - blurred[i + c];
      if Abs(diff) > threshold {
        var newVal := data[i + c] + Push(diff, amount);
        data[i + c] := Max(0, Min(255, newVal));
      }
      c := c + 1;
    }
  }

  /** The final pass of unsharpMask, four bytes at a time. */
  method UnsharpPass(data: array<int>, blurred: seq<int>, amount: real, threshold: int)
    requires |blurred| == data.Length && data.Length % 4 == 0
    modifies data
    ensures data[..] == Unsharpened(old(data[..]), blurred, amount, threshold)
  {
    ghost var d0 := data[..];
    var i := 0;
    while i < data.Length
      invariant 0 <= i <= data.Length && i % 4 == 0
      invariant forall k :: 0 <= k < data.Length ==>
        data[k] == if k < i && k % 4 != 3 then UnsharpByte(d0[k], blurred[k], amount, threshold) else d0[k]
    {
      UnsharpPixel(data, blurred, i, amount, threshold);
      i := i + 4;
    }
  }

  /**
   * The blurred copy: data is copied, then blurred horizontally into temp
   * and vertically back out, with the colour means of BlurFilter's passes.
   * Those passes also average alpha, which unsharpMask's do not, so the
   * frame's alpha bytes are put back afterwards.
   */
  method BlurredCopy(data: array<int>, width: int, height: int, blurRadius: int) returns (blurred: array<int>)
    requires width >= 0 && height >= 0 && data.Length == width * height * 4 && blurRadius >= 0
    ensures fresh(blurred) && blurred.Length == data.Length
    ensures blurred[..] == UnsharpBlurred(Frame(width, height, data[..]), blurRadius)
  {
    var copy := new int[data.Length];
    forall i | 0 <= i < data.Length {
      copy[i] := data[i];
    }
    assert copy[..] == data[..];
    ghost var f := Frame(width, height, data[..]);
    var temp := new int[data.Length];
    BlurFilter.HorizontalBlur(copy, temp, width, height, blurRadius);
    assert Frame(width, height, temp[..]) == BlurFilter.HorizontalBlurred(f, blurRadius);
    blurred := new int[data.Length];
    BlurFilter.VerticalBlur(temp, blurred, width, height, blurRadius);
    ghost var means := blurred[..];
    forall i | 0 <= i < blurred.Length && i % 4 == 3 {
      blurred[i] := data[i];
    }
    assert data[..] == f.data;
    RestoredAlpha(f, blurRadius, means, blurred[..]);
  }

  /** The vertical pass's means with the frame's alpha bytes put back are the unsharp blur. */
  lemma RestoredAlpha(f: Frame, radius: int, means: seq<int>, r: seq<int>)
    requires Shaped(f) && means == BlurFilter.VerticalBlurred(BlurFilter.HorizontalBlurred(f, radius), radius).data
    requires |r| == |f.data|
    requires forall k :: 0 <= k < |r| ==> r[k] == if k % 4 == 3 then f.data[k] else means[k]
    ensures r == UnsharpBlurred(f, radius)
  {
  }

  /**
   * unsharpMask: blur a copy with radius trunc(radius), then run the final
   * pass with threshold trunc(threshold).
   */
  method UnsharpMask(data: array<int>, width: int, height: int, amount: real, radius: real, threshold: real)
    requires width >= 0 && height >= 0 && data.Length == width * height * 4 && Trunc(radius) >= 0
    modifies data
    ensures data[..] == Unsharpened(old(data[..]), UnsharpBlurred(Frame(width, height, old(data[..])), Trunc(radius)),
                                    amount, Trunc(threshold))
  {
    ghost var pixels := width * height;
    assert data.Length % 4 == 0 by { assert data.Length == pixels * 4; }
    var blurred := BlurredCopy(data, width, height, Trunc(radius));
    var thresholdInt := Trunc(threshold);
    UnsharpPass(data, blurred[..], amount, thresholdInt);
  }
}
