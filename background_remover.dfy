// BackgroundRemover (BackgroundRemover.kt): what the app does with the
// selfie-segmentation mask once ML Kit has produced it. The mask is an
// input here (the segmenter itself runs on the device). Pixels are looked
// up in the mask through truncated scale factors clamped into the mask, then
// kept, replaced, or blended with a background; the background for
// blurBackground comes from a clamped-edge box blur.
module BackgroundRemover {
  import opened Common
  import opened BoxBlur

  /** A SegmentationMask: a foreground confidence per mask pixel, row by row. */
  datatype Mask = Mask(width: int, height: int, confidence: seq<real>)

  /** The segmenter's masks are never empty and hold width x height floats. */
  predicate MaskShaped(m: Mask)
  {
    m.width >= 1 && m.height >= 1 && |m.confidence| == m.width * m.height
  }

  // ---------------------------------------------------------------------
  // mask lookup
  // ---------------------------------------------------------------------

  /** scaleX = maskWidth.toFloat() / width (and scaleY likewise). */
  function MaskScale(maskSize: int, size: int): (scale: real)
    requires size >= 1 && maskSize >= 1
    ensures scale > 0.0
  {
    (maskSize as real) / (size as real)
  }

  /** (v * scale).toInt().coerceIn(0, maskSize - 1). */
  function MaskCoord(v: int, scale: real, maskSize: int): (r: int)
    requires maskSize >= 1
    ensures 0 <= r < maskSize
  {
    Clamp(FloatToInt((v as real) * scale), 0, maskSize - 1)
  }

  /** maskY * maskWidth + maskX for pixel (x, y) of a w x h bitmap: always a valid index into the mask. */
  function MaskIndex(m: Mask, w: int, h: int, x: int, y: int): (k: int)
    requires MaskShaped(m) && InGrid(w, h, x, y)
    ensures 0 <= k < |m.confidence|
  {
    var mx := MaskCoord(x, MaskScale(m.width, w), m.width);
    var my := MaskCoord(y, MaskScale(m.height, h), m.height);
    CellCompose(m.width, m.height, mx, my);
    my * m.width + mx
  }

  /** The confidence read for pixel (x, y). */
  function ConfidenceAt(m: Mask, w: int, h: int, x: int, y: int): real
    requires MaskShaped(m) && InGrid(w, h, x, y)
  {
    m.confidence[MaskIndex(m, w, h, x, y)]
  }

  /** A mask of the bitmap's own size is read pixel for pixel. */
  lemma {:induction false} SameSizeMaskCoord(v: int, size: int)
    requires 0 <= v < size < 0x8000_0000
    ensures MaskCoord(v, MaskScale(size, size), size) == v
  {
    var s := size as real;
    assert s / s == 1.0;
    TruncWithin(v as real * 1.0, v, v);
  }

  /** Pixels further right (or down) never read further left (or up) in the mask. */
  lemma {:induction false} MaskCoordMonotone(v1: int, v2: int, scale: real, maskSize: int)
    requires 0 <= v1 <= v2 && scale >= 0.0 && maskSize >= 1
    ensures MaskCoord(v1, scale, maskSize) <= MaskCoord(v2, scale, maskSize)
  {
    assert (v1 as real) * scale <= (v2 as real) * scale by {
      ScaleMonotone(scale, v1 as real, v2 as real);
    }
    FloatToIntMonotone((v1 as real) * scale, (v2 as real) * scale);
  }

  // ---------------------------------------------------------------------
  // applyMask and applyMaskWithBackground
  // ---------------------------------------------------------------------

  /** The rule of applyMaskWithBackground: the original pixel where confidence > 0.5, bg elsewhere. */
  function MaskedAt(original: Bitmap, m: Mask, bg: int, x: int, y: int): int
    requires MaskShaped(m)
  {
    if InGrid(original.width, original.height, x, y) && ConfidenceAt(m, original.width, original.height, x, y) > 0.5
    then PixelAt(original, x, y) else bg
  }

  function Masked(original: Bitmap, m: Mask, bg: int): (r: Bitmap)
    requires BitmapShaped(original) && MaskShaped(m)
  {
    BuildBitmap(original.width, original.height, (x, y) => MaskedAt(original, m, bg, x, y))
  }

  /** applyMaskWithBackground: both loops, writing pixel (x, y) at y * width + x. */
  method ApplyMaskWithBackground(original: Bitmap, m: Mask, bgColor: int) returns (result: Bitmap)
    requires BitmapShaped(original) && MaskShaped(m)
    ensures result == Masked(original, m, bgColor)
  {
    var width, height := original.width, original.height;
    var pixels := new int[width * height](_ => Transparent);
    var y := 0;
    while y < height
      invariant 0 <= y <= height
      invariant forall i :: 0 <= i < y * width && i < pixels.Length ==>
        pixels[i] == MaskedAt(original, m, bgColor, ColOf(width, i), RowOf(width, i))
    {
      var x := 0;
      while x < width
        invariant 0 <= x <= width
        invariant forall i :: 0 <= i < y * width + x && i < pixels.Length ==>
          pixels[i] == MaskedAt(original, m, bgColor, ColOf(width, i), RowOf(width, i))
      {
        CellCompose(width, height, x, y);
        var maskIndex := MaskIndex(m, width, height, x, y);
        var confidence := m.confidence[maskIndex];
        var originalPixel := PixelAt(original, x, y);
        pixels[y * width + x] := if confidence > 0.5 then originalPixel else bgColor;
        x := x + 1;
      }
      assert y * width + width == (y + 1) * width;
      y := y + 1;
    }
    assert y * width == pixels.Length;
    result := Bitmap(width, height, pixels[..]);
  }

  /** applyMask: the same loops with Color.TRANSPARENT (0) as the background. */
  method ApplyMask(original: Bitmap, m: Mask) returns (result: Bitmap)
    requires BitmapShaped(original) && MaskShaped(m)
    ensures result == Masked(original, m, Transparent)
  {
    result := ApplyMaskWithBackground(original, m, Transparent);
  }

  /**
   * Each output pixel is either the original pixel or the background colour;
   * a mask confident everywhere keeps the whole bitmap, and a mask confident
   * nowhere leaves only the background.
   */
  lemma MaskedProperties(original: Bitmap, m: Mask, bg: int)
    requires BitmapShaped(original) && MaskShaped(m)
    ensures var r := Masked(original, m, bg);
      BitmapShaped(r) && r.width == original.width && r.height == original.height
      && (forall i :: 0 <= i < |r.pixels| ==> r.pixels[i] == original.pixels[i] || r.pixels[i] == bg)
      && ((forall k :: 0 <= k < |m.confidence| ==> m.confidence[k] > 0.5) ==> r == original)
      && ((forall k :: 0 <= k < |m.confidence| ==> m.confidence[k] <= 0.5) ==>
            forall i :: 0 <= i < |r.pixels| ==> r.pixels[i] == bg)
  {
    var r := Masked(original, m, bg);
    forall i | 0 <= i < |r.pixels| ensures r.pixels[i] == original.pixels[i] || r.pixels[i] == bg {
      CellDecompose(original.width, original.height, i);
    }
    if forall k :: 0 <= k < |m.confidence| ==> m.confidence[k] > 0.5 {
      BitmapExt(r, original);
    }
  }

  // ---------------------------------------------------------------------
  // blendPixels and compositeWithBackground
  // ---------------------------------------------------------------------

  /** (fgC * alpha + bgC * (1 - alpha)).toInt() for one channel. */
  function MixChannel(fgC: int, bgC: int, alpha: real): (v: int)
    requires IsByte(fgC) && IsByte(bgC) && 0.0 <= alpha <= 1.0
    ensures Min(fgC, bgC) <= v <= Max(fgC, bgC)
    ensures alpha == 1.0 ==> v == fgC
    ensures alpha == 0.0 ==> v == bgC
  {
    var x := (fgC as real) * alpha + (bgC as real) * (1.0 - alpha);
    MixWithinBytes(fgC, bgC, alpha);
    TruncWithin(x, Min(fgC, bgC), Max(fgC, bgC));
    if alpha == 1.0 then
      assert x == fgC as real;
      TruncWithin(x, fgC, fgC);
      Trunc(x)
    else if alpha == 0.0 then
      assert x == bgC as real;
      TruncWithin(x, bgC, bgC);
      Trunc(x)
    else Trunc(x)
  }

  /**
   * blendPixels: the confidence clamped into [0, 1] weighs fg against bg
   * channel by channel, and the result is opaque.
   */
  function BlendPixels(fg: int, bg: int, fgAlpha: real): (p: int)
    ensures IsColor(p) && Alpha(p) == 255
    ensures Min(Red(fg), Red(bg)) <= Red(p) <= Max(Red(fg), Red(bg))
    ensures Min(Green(fg), Green(bg)) <= Green(p) <= Max(Green(fg), Green(bg))
    ensures Min(Blue(fg), Blue(bg)) <= Blue(p) <= Max(Blue(fg), Blue(bg))
    ensures fgAlpha >= 1.0 ==> p == Rgb(Red(fg), Green(fg), Blue(fg))
    ensures fgAlpha <= 0.0 ==> p == Rgb(Red(bg), Green(bg), Blue(bg))
  {
    var alpha := ClampReal(fgAlpha, 0.0, 1.0);
    Rgb(MixChannel(Red(fg), Red(bg), alpha), MixChannel(Green(fg), Green(bg), alpha),
        MixChannel(Blue(fg), Blue(bg), alpha))
  }

  /** The rule of compositeWithBackground at (x, y). */
  function CompositeAt(foreground: Bitmap, m: Mask, scaledBg: Bitmap, x: int, y: int): int
    requires MaskShaped(m)
  {
    if InGrid(foreground.width, foreground.height, x, y)
    then BlendPixels(PixelAt(foreground, x, y), PixelAt(scaledBg, x, y),
                     ConfidenceAt(m, foreground.width, foreground.height, x, y))
    else Transparent
  }

  function Composited(foreground: Bitmap, m: Mask, scaledBg: Bitmap): (r: Bitmap)
    requires BitmapShaped(foreground) && MaskShaped(m)
  {
    BuildBitmap(foreground.width, foreground.height, (x, y) => CompositeAt(foreground, m, scaledBg, x, y))
  }

  /**
   * compositeWithBackground, with scaledBg the background that
   * Bitmap.createScaledBitmap has brought to the foreground's size.
   */
  method CompositeWithBackground(foreground: Bitmap, m: Mask, scaledBg: Bitmap) returns (result: Bitmap)
    requires BitmapShaped(foreground) && MaskShaped(m)
    requires BitmapShaped(scaledBg) && scaledBg.width == foreground.width && scaledBg.height == foreground.height
    ensures result == Composited(foreground, m, scaledBg)
  {
    var width, height := foreground.width, foreground.height;
    var pixels := new int[width * height](_ => Transparent);
    var y := 0;
    while y < height
      invariant 0 <= y <= height
      invariant forall i :: 0 <= i < y * width && i < pixels.Length ==>
        pixels[i] == CompositeAt(foreground, m, scaledBg, ColOf(width, i), RowOf(width, i))
    {
      var x := 0;
      while x < width
        invariant 0 <= x <= width
        invariant forall i :: 0 <= i < y * width + x && i < pixels.Length ==>
          pixels[i] == CompositeAt(foreground, m, scaledBg, ColOf(width, i), RowOf(width, i))
      {
        CellCompose(width, height, x, y);
        var maskIndex := MaskIndex(m, width, height, x, y);
        var confidence := m.confidence[maskIndex];
        var fgPixel := PixelAt(foreground, x, y);
        var bgPixel := PixelAt(scaledBg, x, y);
        pixels[y * width + x] := BlendPixels(fgPixel, bgPixel, confidence);
        x := x + 1;
      }
      assert y * width + width == (y + 1) * width;
      y := y + 1;
    }
    assert y * width == pixels.Length;
    result := Bitmap(width, height, pixels[..]);
  }

  /**
   * The composite is opaque; where the mask is sure of the foreground (1 or
   * more) it shows the foreground's colour and where it is sure of the
   * background (0 or less) the background's.
   */
  lemma CompositedProperties(foreground: Bitmap, m: Mask, scaledBg: Bitmap)
    requires BitmapShaped(foreground) && MaskShaped(m)
    requires BitmapShaped(scaledBg) && scaledBg.width == foreground.width && scaledBg.height == foreground.height
    ensures var r := Composited(foreground, m, scaledBg);
      BitmapShaped(r) && r.width == foreground.width && r.height == foreground.height
      && (forall i :: 0 <= i < |r.pixels| ==> Alpha(r.pixels[i]) == 255)
      && ((forall k :: 0 <= k < |m.confidence| ==> m.confidence[k] >= 1.0) ==>
            forall i :: 0 <= i < |r.pixels| ==>
              r.pixels[i] == Rgb(Red(foreground.pixels[i]), Green(foreground.pixels[i]), Blue(foreground.pixels[i])))
      && ((forall k :: 0 <= k < |m.confidence| ==> m.confidence[k] <= 0.0) ==>
            forall i :: 0 <= i < |r.pixels| ==>
              r.pixels[i] == Rgb(Red(scaledBg.pixels[i]), Green(scaledBg.pixels[i]), Blue(scaledBg.pixels[i])))
  {
    var r := Composited(foreground, m, scaledBg);
    forall i | 0 <= i < |r.pixels|
      ensures Alpha(r.pixels[i]) == 255
      ensures ConfidenceAt(m, foreground.width, foreground.height, ColOf(r.width, i), RowOf(r.width, i)) >= 1.0 ==>
        r.pixels[i] == Rgb(Red(foreground.pixels[i]), Green(foreground.pixels[i]), Blue(foreground.pixels[i]))
      ensures ConfidenceAt(m, foreground.width, foreground.height, ColOf(r.width, i), RowOf(r.width, i)) <= 0.0 ==>
        r.pixels[i] == Rgb(Red(scaledBg.pixels[i]), Green(scaledBg.pixels[i]), Blue(scaledBg.pixels[i]))
    {
      CellDecompose(foreground.width, foreground.height, i);
    }
  }

  // ---------------------------------------------------------------------
  // blurBitmap and blurBackground
  // ---------------------------------------------------------------------

  /** blurBitmap's pixel (x, y): the average over every tap of the (2 radius + 1)^2 box, step 1. */
  function BlurredPixel(b: Bitmap, radius: int, x: int, y: int): int
    requires radius >= 0
  {
    if InGrid(b.width, b.height, x, y) then BoxColor(b, x, y, radius, 1) else Transparent
  }

  /**
   * blurBitmap's result. With a negative radius the tap loops are empty and
   * r / count divides by zero, unless the bitmap has no pixel to blur.
   */
  function BoxBlurred(b: Bitmap, radius: int): (r: Option<Bitmap>)
    requires BitmapShaped(b)
  {
    if radius < 0 then
      if |b.pixels| == 0 then Some(b) else None
    else Some(Blurred(b, radius))
  }

  function Blurred(b: Bitmap, radius: int): (r: Bitmap)
    requires BitmapShaped(b) && radius >= 0
  {
    BuildBitmap(b.width, b.height, (x, y) => BlurredPixel(b, radius, x, y))
  }

  /** With step 1 the taps are exactly -radius..radius. */
  lemma UnitStepTaps(radius: int)
    requires radius >= 0
    ensures Taps(radius, 1) == 2 * radius + 1
  {
  }

  /** blurBitmap: the pixel loops around the tap loops of BoxAverage. */
  method BlurBitmap(bitmap: Bitmap, radius: int) returns (result: Option<Bitmap>)
    requires BitmapShaped(bitmap) && radius <= 1450
    ensures result == BoxBlurred(bitmap, radius)
  {
    var width, height := bitmap.width, bitmap.height;
    if radius < 0 {
      result := if width * height == 0 then Some(bitmap) else None;
      return;
    }
    var pixels := new int[width * height](_ => Transparent);
    var y := 0;
    while y < height
      invariant 0 <= y <= height
      invariant forall i :: 0 <= i < y * width && i < pixels.Length ==>
        pixels[i] == BlurredPixel(bitmap, radius, ColOf(width, i), RowOf(width, i))
    {
      var x := 0;
      while x < width
        invariant 0 <= x <= width
        invariant forall i :: 0 <= i < y * width + x && i < pixels.Length ==>
          pixels[i] == BlurredPixel(bitmap, radius, ColOf(width, i), RowOf(width, i))
      {
        CellCompose(width, height, x, y);
        var color, count := BoxAverage(bitmap, radius, 1, x, y);
        pixels[y * width + x] := color;
        x := x + 1;
      }
      assert y * width + width == (y + 1) * width;
      y := y + 1;
    }
    assert y * width == pixels.Length;
    assert Bitmap(width, height, pixels[..]) == Blurred(bitmap, radius);
    result := Some(Bitmap(width, height, pixels[..]));
  }

  /**
   * blurBitmap with a non-negative radius keeps the shape, makes every pixel
   * opaque, and keeps the RGB of a bitmap of one colour; radius 0 copies
   * each pixel's RGB.
   */
  lemma BoxBlurredProperties(b: Bitmap, radius: int, p: int)
    requires BitmapShaped(b) && radius >= 0
    ensures BoxBlurred(b, radius) == Some(Blurred(b, radius))
    ensures var r := Blurred(b, radius);
      BitmapShaped(r) && r.width == b.width && r.height == b.height
      && (forall i :: 0 <= i < |r.pixels| ==> Alpha(r.pixels[i]) == 255)
      && ((forall i :: 0 <= i < |b.pixels| ==> b.pixels[i] == p) ==>
            forall i :: 0 <= i < |r.pixels| ==> r.pixels[i] == Rgb(Red(p), Green(p), Blue(p)))
      && (radius == 0 ==>
            forall i :: 0 <= i < |r.pixels| ==> r.pixels[i] == Rgb(Red(b.pixels[i]), Green(b.pixels[i]), Blue(b.pixels[i])))
  {
    var r := Blurred(b, radius);
    forall i | 0 <= i < |r.pixels|
      ensures Alpha(r.pixels[i]) == 255
      ensures (forall j :: 0 <= j < |b.pixels| ==> b.pixels[j] == p) ==> r.pixels[i] == Rgb(Red(p), Green(p), Blue(p))
      ensures radius == 0 ==> r.pixels[i] == Rgb(Red(b.pixels[i]), Green(b.pixels[i]), Blue(b.pixels[i]))
    {
      BlurredIndexFacts(b, radius, p, i);
    }
  }

  /** BlurredPixelFacts for the pixel at index i. */
  lemma BlurredIndexFacts(b: Bitmap, radius: int, p: int, i: int)
    requires BitmapShaped(b) && radius >= 0 && 0 <= i < |b.pixels|
    ensures var q := Blurred(b, radius).pixels[i];
      Alpha(q) == 255
      && ((forall j :: 0 <= j < |b.pixels| ==> b.pixels[j] == p) ==> q == Rgb(Red(p), Green(p), Blue(p)))
      && (radius == 0 ==> q == Rgb(Red(b.pixels[i]), Green(b.pixels[i]), Blue(b.pixels[i])))
  {
    assert b.width > 0 by {
      assert b.width * b.height > 0;
    }
    var x, y := ColOf(b.width, i), RowOf(b.width, i);
    assert InGrid(b.width, b.height, x, y) && b.pixels[i] == PixelAt(b, x, y) by {
      CellDecompose(b.width, b.height, i);
    }
    assert Blurred(b, radius).pixels[i] == BlurredPixel(b, radius, x, y);
    BlurredPixelFacts(b, radius, p, x, y);
  }

  /** One pixel of the blur: opaque, the colour of a uniform bitmap, and the pixel itself at radius 0. */
  lemma BlurredPixelFacts(b: Bitmap, radius: int, p: int, x: int, y: int)
    requires BitmapShaped(b) && radius >= 0 && InGrid(b.width, b.height, x, y)
    ensures Alpha(BlurredPixel(b, radius, x, y)) == 255
    ensures (forall j :: 0 <= j < |b.pixels| ==> b.pixels[j] == p) ==> BlurredPixel(b, radius, x, y) == Rgb(Red(p), Green(p), Blue(p))
    ensures var q := PixelAt(b, x, y); radius == 0 ==> BlurredPixel(b, radius, x, y) == Rgb(Red(q), Green(q), Blue(q))
  {
    if forall j :: 0 <= j < |b.pixels| ==> b.pixels[j] == p {
      UniformBoxColor(b, p, x, y, radius, 1);
    }
    if radius == 0 {
      SinglePointAverage(b, RedChannel, x, y);
      SinglePointAverage(b, GreenChannel, x, y);
      SinglePointAverage(b, BlueChannel, x, y);
    }
  }

  /**
   * blurBackground: the bitmap composited over its own box blur. The blur
   * already has the bitmap's size, so createScaledBitmap hands it back as is.
   */
  function BlurBackground(bitmap: Bitmap, m: Mask, blurRadius: int): (r: Option<Bitmap>)
    requires BitmapShaped(bitmap) && MaskShaped(m)
  {
    match BoxBlurred(bitmap, blurRadius)
    case None => None
    case Some(blurredBg) => Some(Composited(bitmap, m, blurredBg))
  }

  /** Where the mask is sure of the foreground everywhere, blurBackground shows the bitmap itself, made opaque. */
  lemma BlurBackgroundKeepsForeground(bitmap: Bitmap, m: Mask, blurRadius: int)
    requires BitmapShaped(bitmap) && MaskShaped(m) && blurRadius >= 0
    requires forall k :: 0 <= k < |m.confidence| ==> m.confidence[k] >= 1.0
    ensures BlurBackground(bitmap, m, blurRadius).Some?
    ensures var r := BlurBackground(bitmap, m, blurRadius).value;
      r.width == bitmap.width && r.height == bitmap.height
      && forall i :: 0 <= i < |r.pixels| ==>
           r.pixels[i] == Rgb(Red(bitmap.pixels[i]), Green(bitmap.pixels[i]), Blue(bitmap.pixels[i]))
  {
    BoxBlurredProperties(bitmap, blurRadius, 0);
    CompositedProperties(bitmap, m, Blurred(bitmap, blurRadius));
  }
}
