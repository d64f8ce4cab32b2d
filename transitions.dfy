// Transitions (Transitions.kt): the dispatch of applyTransition and the
// transitions computed pixel by pixel: dissolve, with its thresholds drawn
// from java.util.Random seeded with 42; the horizontal and vertical wipes;
// and blurTransition with its block box blur simpleBlur. The bitmap that
// Bitmap.createScaledBitmap makes of `to` is an input (scaledTo) of from's
// size. Fade, slide, zoom and circle draw through Canvas alpha, scaling and
// anti-aliasing; their results are inputs too.
module Transitions {
  import opened Common
  import opened BoxBlur

  datatype TransitionType =
    | Fade | Dissolve | WipeLeft | WipeRight | WipeUp | WipeDown
    | SlideLeft | SlideRight | ZoomIn | ZoomOut | CircleOpen | CircleClose | Blur

  /** The private helpers of Transitions, each with the flag a call passes. */
  datatype Helper =
    | FadeHelper
    | DissolveHelper
    | WipeHorizontalHelper(leftToRight: bool)
    | WipeVerticalHelper(topToBottom: bool)
    | SlideHorizontalHelper(leftToRight: bool)
    | ZoomHelper(zoomIn: bool)
    | CircleHelper(open: bool)
    | BlurHelper

  /** applyTransition's `when`: the helper call each kind makes. */
  function HelperOf(t: TransitionType): Helper
  {
    match t
    case Fade => FadeHelper
    case Dissolve => DissolveHelper
    case WipeLeft => WipeHorizontalHelper(true)
    case WipeRight => WipeHorizontalHelper(false)
    case WipeUp => WipeVerticalHelper(true)
    case WipeDown => WipeVerticalHelper(false)
    case SlideLeft => SlideHorizontalHelper(true)
    case SlideRight => SlideHorizontalHelper(false)
    case ZoomIn => ZoomHelper(true)
    case ZoomOut => ZoomHelper(false)
    case CircleOpen => CircleHelper(true)
    case CircleClose => CircleHelper(false)
    case Blur => BlurHelper
  }

  /** The kind whose branch makes a given helper call. */
  function KindOf(h: Helper): TransitionType
  {
    match h
    case FadeHelper => Fade
    case DissolveHelper => Dissolve
    case WipeHorizontalHelper(ltr) => if ltr then WipeLeft else WipeRight
    case WipeVerticalHelper(ttb) => if ttb then WipeUp else WipeDown
    case SlideHorizontalHelper(ltr) => if ltr then SlideLeft else SlideRight
    case ZoomHelper(zoomIn) => if zoomIn then ZoomIn else ZoomOut
    case CircleHelper(open) => if open then CircleOpen else CircleClose
    case BlurHelper => Blur
  }

  /**
   * The dispatch is one-to-one and onto: each of the 13 kinds makes exactly
   * one helper call, no two kinds make the same call, and every helper call
   * is made by some kind.
   */
  lemma DispatchIsBijective(t: TransitionType, h: Helper)
    ensures KindOf(HelperOf(t)) == t
    ensures HelperOf(KindOf(h)) == h
  {
  }

  // ---------------------------------------------------------------------
  // java.util.Random(42) and nextFloat
  // ---------------------------------------------------------------------

  const Multiplier: int := 0x5_DEEC_E66D
  const Increment: int := 0xB
  /** 2^48: Random keeps a 48-bit state. */
  const SeedSpace: int := 0x1_0000_0000_0000
  /** 2^24: nextFloat uses the top 24 bits of the state. */
  const FloatBits: int := 0x100_0000

  /** new Random(seed): the seed xor the multiplier, masked to 48 bits. */
  function ScrambledSeed(seed: bv64): bv64
  {
    (seed ^ 0x5_DEEC_E66D) & 0xFFFF_FFFF_FFFF
  }

  /** Random.next's linear congruential step on the 48-bit state. */
  function NextSeed(seed: int): (s: int)
    ensures 0 <= s < SeedSpace
  {
    (seed * Multiplier + Increment) % SeedSpace
  }

  /** nextFloat from the state it has just produced: next(24) / 2^24. */
  function FloatOf(seed: int): (f: real)
    requires 0 <= seed < SeedSpace
    ensures 0.0 <= f < 1.0
  {
    ((seed / FloatBits) as real) / (FloatBits as real)
  }

  /** The state of dissolve's Random(42) after n draws. */
  function SeedAfter(n: nat): (s: int)
    ensures 0 <= s < SeedSpace
  {
    if n == 0 then
      assert ScrambledSeed(42) == 0x5_DEEC_E647;
      0x5_DEEC_E647
    else NextSeed(SeedAfter(n - 1))
  }

  /** The threshold dissolve draws for the pixel with row-major index k. */
  function Threshold(k: nat): (t: real)
    ensures 0.0 <= t < 1.0
  {
    FloatOf(SeedAfter(k + 1))
  }

  /** The first draw is Java's new Random(42).nextFloat(), 12206493 / 2^24 (about 0.7275637). */
  lemma FirstThreshold()
    ensures Threshold(0) == 12206493.0 / 16777216.0
  {
    assert SeedAfter(1) == 0xBA41_9D35_D646;
  }

  // ---------------------------------------------------------------------
  // dissolve
  // ---------------------------------------------------------------------

  /** Two bitmaps of one shape, as from and the scaled `to` are. */
  predicate SameShape(a: Bitmap, b: Bitmap)
  {
    BitmapShaped(a) && BitmapShaped(b) && a.width == b.width && a.height == b.height
  }

  /** Pixel i of dissolve: scaledTo's where progress exceeds the i-th threshold, from's otherwise. */
  function DissolveAt(from: Bitmap, scaledTo: Bitmap, progress: real, i: nat): int
    requires i < |from.pixels| && i < |scaledTo.pixels|
  {
    if progress > Threshold(i) then scaledTo.pixels[i] else from.pixels[i]
  }

  function Dissolved(from: Bitmap, scaledTo: Bitmap, progress: real): (r: Bitmap)
    requires SameShape(from, scaledTo)
  {
    Bitmap(from.width, from.height,
      seq(|from.pixels|, i requires 0 <= i < |from.pixels| => DissolveAt(from, scaledTo, progress, i)))
  }

  /** dissolve: one draw per pixel in row-major order, each choosing between scaledTo and from. */
  method DissolveTransition(from: Bitmap, scaledTo: Bitmap, progress: real) returns (result: Bitmap)
    requires SameShape(from, scaledTo)
    ensures result == Dissolved(from, scaledTo, progress)
  {
    var width, height := from.width, from.height;
    var pixels := new int[width * height](_ => Transparent);
    var seed := SeedAfter(0);
    var y := 0;
    while y < height
      invariant 0 <= y <= height
      invariant seed == SeedAfter(y * width)
      invariant forall i :: 0 <= i < y * width && i < pixels.Length ==>
        pixels[i] == DissolveAt(from, scaledTo, progress, i)
    {
      seed := DissolveRow(from, scaledTo, progress, pixels, y, seed);
      assert y * width + width == (y + 1) * width;
      y := y + 1;
    }
    assert y * width == pixels.Length;
    result := Bitmap(width, height, pixels[..]);
  }

  /** The x loop of dissolve for row y: one draw per pixel, left to right. */
  method DissolveRow(from: Bitmap, scaledTo: Bitmap, progress: real, pixels: array<int>, y: int, seed: int)
    returns (next: int)
    requires SameShape(from, scaledTo) && pixels.Length == from.width * from.height && 0 <= y < from.height
    requires seed == SeedAfter(y * from.width)
    requires forall i :: 0 <= i < y * from.width && i < pixels.Length ==>
      pixels[i] == DissolveAt(from, scaledTo, progress, i)
    modifies pixels
    ensures next == SeedAfter(y * from.width + from.width)
    ensures forall i :: 0 <= i < y * from.width + from.width && i < pixels.Length ==>
      pixels[i] == DissolveAt(from, scaledTo, progress, i)
  {
    var width := from.width;
    next := seed;
    var x := 0;
    while x < width
      invariant 0 <= x <= width
      invariant next == SeedAfter(y * width + x)
      invariant forall i :: 0 <= i < y * width + x && i < pixels.Length ==>
        pixels[i] == DissolveAt(from, scaledTo, progress, i)
    {
      CellCompose(width, from.height, x, y);
      next := NextSeed(next);
      var threshold := FloatOf(next);
      var pixel := if progress > threshold then PixelAt(scaledTo, x, y) else PixelAt(from, x, y);
      pixels[y * width + x] := pixel;
      x := x + 1;
    }
  }

  /**
   * Progress 0 (or less) reproduces from and progress 1 (or more) reproduces
   * scaledTo, since every threshold lies in [0, 1); in between each pixel
   * comes from one of the two, decided by its own threshold alone.
   */
  lemma DissolveProperties(from: Bitmap, scaledTo: Bitmap, progress: real)
    requires SameShape(from, scaledTo)
    ensures progress <= 0.0 ==> Dissolved(from, scaledTo, progress) == from
    ensures progress >= 1.0 ==> Dissolved(from, scaledTo, progress) == scaledTo
    ensures forall x, y :: InGrid(from.width, from.height, x, y) ==>
      PixelAt(Dissolved(from, scaledTo, progress), x, y)
        == if progress > Threshold(y * from.width + x) then PixelAt(scaledTo, x, y) else PixelAt(from, x, y)
  {
    var r := Dissolved(from, scaledTo, progress);
    forall x, y | InGrid(from.width, from.height, x, y)
      ensures PixelAt(r, x, y)
        == if progress > Threshold(y * from.width + x) then PixelAt(scaledTo, x, y) else PixelAt(from, x, y)
    {
      CellCompose(from.width, from.height, x, y);
    }
    if progress <= 0.0 {
      assert r.pixels == from.pixels;
    }
    if progress >= 1.0 {
      assert r.pixels == scaledTo.pixels;
    }
  }

  // ---------------------------------------------------------------------
  // Canvas.drawBitmap with a null Paint: SRC_OVER
  // ---------------------------------------------------------------------

  /**
   * A colour an ARGB_8888 bitmap can hold: its premultiplied storage turns
   * every fully transparent pixel into 0.
   */
  predicate Stored(p: int)
  {
    IsColor(p) && (Alpha(p) == 0 ==> p == Transparent)
  }

  predicate StoredBitmap(b: Bitmap)
  {
    BitmapShaped(b) && forall i :: 0 <= i < |b.pixels| ==> Stored(b.pixels[i])
  }

  predicate Opaque(b: Bitmap)
  {
    forall i :: 0 <= i < |b.pixels| ==> Alpha(b.pixels[i]) == 255
  }

  /** The alpha the destination keeps under a source of alpha sa: da * (255 - sa) / 255. */
  function KeptAlpha(sa: int, da: int): (k: int)
    requires IsByte(sa) && IsByte(da)
    ensures 0 <= k <= 255 - sa
  {
    var n := da * (255 - sa);
    IntMulLe(0, da, 255 - sa);
    IntMulLe(da, 255, 255 - sa);
    MulLeCancel(n / 255, 255 - sa, 255);
    n / 255
  }

  /** One colour channel of the composite: the alpha-weighted mean of source and destination. */
  function OverChannel(sc: int, sa: int, dc: int, k: int): (c: int)
    requires IsByte(sc) && IsByte(dc) && sa >= 0 && k >= 0
    ensures IsByte(c)
  {
    if sa + k == 0 then 0
    else
      IntMulLe(0, sc, sa);
      IntMulLe(0, dc, k);
      IntMulLe(sc, 255, sa);
      IntMulLe(dc, 255, k);
      var n := sc * sa + dc * k;
      MulLeCancel(n / (sa + k), 255, sa + k);
      n / (sa + k)
  }

  /**
   * The colour s drawn over d with SRC_OVER, Canvas's mode for a null
   * Paint, on unpremultiplied channels.
   */
  function SrcOver(s: int, d: int): (r: int)
    ensures IsColor(r)
  {
    var sa, da := Alpha(s), Alpha(d);
    var k := KeptAlpha(sa, da);
    Argb(sa + k, OverChannel(Red(s), sa, Red(d), k), OverChannel(Green(s), sa, Green(d), k),
      OverChannel(Blue(s), sa, Blue(d), k))
  }

  /** A channel whose destination keeps no alpha is the source's own. */
  lemma {:induction false} ChannelAlone(sc: int, sa: int, dc: int)
    requires IsByte(sc) && IsByte(dc) && sa > 0
    ensures OverChannel(sc, sa, dc, 0) == sc
  {
    assert dc * 0 == 0;
    DivModUnique(sc * sa, sa, sc, 0);
  }

  /** With source alpha sa and destination alpha da, the composite is Argb of the mixed channels. */
  lemma {:induction false} OverOfChannels(s: int, d: int, k: int)
    requires k == KeptAlpha(Alpha(s), Alpha(d))
    ensures SrcOver(s, d) == Argb(Alpha(s) + k, OverChannel(Red(s), Alpha(s), Red(d), k),
      OverChannel(Green(s), Alpha(s), Green(d), k), OverChannel(Blue(s), Alpha(s), Blue(d), k))
  {
  }

  /** An opaque source replaces what lies beneath. */
  lemma {:induction false} OverOpaque(s: int, d: int)
    requires IsColor(s) && Alpha(s) == 255
    ensures SrcOver(s, d) == s
  {
    var k := KeptAlpha(255, Alpha(d));
    assert k == 0;
    OverOfChannels(s, d, k);
    ChannelAlone(Red(s), 255, Red(d));
    ChannelAlone(Green(s), 255, Green(d));
    ChannelAlone(Blue(s), 255, Blue(d));
    ArgbOfChannels(s);
  }

  /** A stored colour drawn on the blank canvas is itself. */
  lemma {:induction false} OverBlank(s: int)
    requires Stored(s)
    ensures SrcOver(s, Transparent) == s
  {
    var sa := Alpha(s);
    assert Alpha(Transparent) == 0;
    var k := KeptAlpha(sa, 0);
    assert k == 0 by { assert 0 * (255 - sa) == 0; }
    OverOfChannels(s, Transparent, k);
    if sa != 0 {
      ChannelAlone(Red(s), sa, 0);
      ChannelAlone(Green(s), sa, 0);
      ChannelAlone(Blue(s), sa, 0);
      ArgbOfChannels(s);
    } else {
      assert s == 0;
    }
  }

  /**
   * SRC_OVER never lowers alpha below the source's, an opaque source
   * replaces what lies beneath, and a source drawn on the blank canvas is
   * itself.
   */
  lemma {:induction false} OverProperties(s: int, d: int)
    ensures Alpha(SrcOver(s, d)) >= Alpha(s)
    ensures IsColor(s) && Alpha(s) == 255 ==> SrcOver(s, d) == s
    ensures Stored(s) ==> SrcOver(s, Transparent) == s
  {
    OverOfChannels(s, d, KeptAlpha(Alpha(s), Alpha(d)));
    if IsColor(s) && Alpha(s) == 255 {
      OverOpaque(s, d);
    }
    if Stored(s) {
      OverBlank(s);
    }
  }

  // ---------------------------------------------------------------------
  // wipeHorizontal / wipeVertical
  // ---------------------------------------------------------------------

  /** (width * progress).toInt(), or (height * progress).toInt(). */
  function WipeExtent(size: int, progress: real): int
  {
    FloatToInt((size as real) * progress)
  }

  /**
   * Whether the column (or row) pos lies on the `to` side of the wipe edge:
   * before it when the wipe runs forward (left to right, top to bottom),
   * from size - extent on when it runs back.
   */
  predicate Revealed(size: int, extent: int, pos: int, forward: bool)
  {
    if forward then pos < extent else pos >= size - extent
  }

  /**
   * One pixel of a wipe: `first` drawn on the blank result, then `second`
   * drawn over it where the clip rectangle lets it through.
   */
  function TwoDraws(first: int, second: int, inClip: bool): int
  {
    var under := SrcOver(first, Transparent);
    if inClip then SrcOver(second, under) else under
  }

  /**
   * wipeHorizontal: left to right it draws scaledTo, then `from` clipped to
   * the columns from wipeX on; right to left it draws `from`, then scaledTo
   * clipped to the last wipeX columns.
   */
  function WipeHorizontal(from: Bitmap, scaledTo: Bitmap, progress: real, leftToRight: bool): (r: Bitmap)
    requires SameShape(from, scaledTo)
  {
    var wipeX := WipeExtent(from.width, progress);
    BuildBitmap(from.width, from.height, (x, y) =>
      if leftToRight then TwoDraws(PixelAt(scaledTo, x, y), PixelAt(from, x, y), !Revealed(from.width, wipeX, x, true))
      else TwoDraws(PixelAt(from, x, y), PixelAt(scaledTo, x, y), Revealed(from.width, wipeX, x, false)))
  }

  /** wipeVertical: the same two draws, clipped to rows. */
  function WipeVertical(from: Bitmap, scaledTo: Bitmap, progress: real, topToBottom: bool): (r: Bitmap)
    requires SameShape(from, scaledTo)
  {
    var wipeY := WipeExtent(from.height, progress);
    BuildBitmap(from.width, from.height, (x, y) =>
      if topToBottom then TwoDraws(PixelAt(scaledTo, x, y), PixelAt(from, x, y), !Revealed(from.height, wipeY, y, true))
      else TwoDraws(PixelAt(from, x, y), PixelAt(scaledTo, x, y), Revealed(from.height, wipeY, y, false)))
  }

  /** Each pixel of a stored bitmap is stored, and opaque when the bitmap is. */
  lemma {:induction false} StoredPixel(b: Bitmap, x: int, y: int)
    requires StoredBitmap(b) && InGrid(b.width, b.height, x, y)
    ensures Stored(PixelAt(b, x, y))
    ensures Opaque(b) ==> Alpha(PixelAt(b, x, y)) == 255
  {
    RowMajorBound(b.width, b.height, x, y);
    assert PixelAt(b, x, y) == b.pixels[y * b.width + x];
  }

  /** The pixel of stored bitmaps that a wipe shows, for one direction of the draws. */
  function WipeShown(fromPx: int, toPx: int, revealed: bool, forward: bool): int
  {
    if forward then (if revealed then toPx else SrcOver(fromPx, toPx))
    else (if revealed then SrcOver(toPx, fromPx) else fromPx)
  }

  /**
   * What a wipe of stored bitmaps shows at (x, y): on the revealed side the
   * frame drawn last there, over the other one when that is the frame the
   * direction draws first; elsewhere the other way round. With opaque
   * frames this is just `to` on the revealed side and `from` elsewhere.
   */
  lemma {:induction false} WipeShows(from: Bitmap, scaledTo: Bitmap, progress: real, forward: bool, x: int, y: int)
    requires SameShape(from, scaledTo) && StoredBitmap(from) && StoredBitmap(scaledTo)
    requires InGrid(from.width, from.height, x, y)
    ensures var f, t := PixelAt(from, x, y), PixelAt(scaledTo, x, y);
      && PixelAt(WipeHorizontal(from, scaledTo, progress, forward), x, y)
         == WipeShown(f, t, Revealed(from.width, WipeExtent(from.width, progress), x, forward), forward)
      && PixelAt(WipeVertical(from, scaledTo, progress, forward), x, y)
         == WipeShown(f, t, Revealed(from.height, WipeExtent(from.height, progress), y, forward), forward)
    ensures Opaque(from) && Opaque(scaledTo) ==>
      && PixelAt(WipeHorizontal(from, scaledTo, progress, forward), x, y)
         == (if Revealed(from.width, WipeExtent(from.width, progress), x, forward)
             then PixelAt(scaledTo, x, y) else PixelAt(from, x, y))
      && PixelAt(WipeVertical(from, scaledTo, progress, forward), x, y)
         == (if Revealed(from.height, WipeExtent(from.height, progress), y, forward)
             then PixelAt(scaledTo, x, y) else PixelAt(from, x, y))
  {
    StoredPixel(from, x, y);
    StoredPixel(scaledTo, x, y);
    var f, t := PixelAt(from, x, y), PixelAt(scaledTo, x, y);
    OverProperties(f, Transparent);
    OverProperties(t, Transparent);
    OverProperties(f, t);
    OverProperties(t, f);
  }

  /**
   * The translucent case: a half-transparent red `from` wiped left to right
   * at progress 0 over an opaque blue `to` shows the two mixed, not `from`.
   */
  lemma TranslucentWipeMixes()
    ensures var from, to := Bitmap(1, 1, [0x80FF_0000]), Bitmap(1, 1, [0xFF00_00FF]);
      WipeHorizontal(from, to, 0.0, true) == Bitmap(1, 1, [0xFF80_007F])
  {
    var from, to := Bitmap(1, 1, [0x80FF_0000]), Bitmap(1, 1, [0xFF00_00FF]);
    HalfRedOverBlue();
    RevealedEnds(1, 0, true);
    WipeShows(from, to, 0.0, true, 0, 0);
    var r := WipeHorizontal(from, to, 0.0, true);
    assert PixelAt(r, 0, 0) == 0xFF80_007F;
    assert r.pixels == [0xFF80_007F];
  }

  /** Half-transparent red over opaque blue: opaque, half red, half blue. */
  lemma HalfRedOverBlue()
    ensures Stored(0x80FF_0000) && Stored(0xFF00_00FF)
    ensures SrcOver(0x80FF_0000, 0xFF00_00FF) == 0xFF80_007F
  {
    HalfRedAndBlue();
    var k := KeptAlpha(128, 255);
    assert k == 127;
    OverOfChannels(0x80FF_0000, 0xFF00_00FF, k);
    HalfRedOverBlueChannels();
    PurpleMix();
  }

  lemma HalfRedAndBlue()
    ensures Stored(0x80FF_0000) && Stored(0xFF00_00FF)
    ensures Alpha(0x80FF_0000) == 128 && Red(0x80FF_0000) == 255 && Green(0x80FF_0000) == 0 && Blue(0x80FF_0000) == 0
    ensures Alpha(0xFF00_00FF) == 255 && Red(0xFF00_00FF) == 0 && Green(0xFF00_00FF) == 0 && Blue(0xFF00_00FF) == 255
  {
  }

  lemma PurpleMix()
    ensures Argb(255, 128, 0, 127) == 0xFF80_007F
  {
  }

  lemma HalfRedOverBlueChannels()
    ensures OverChannel(255, 128, 0, 127) == 128
    ensures OverChannel(0, 128, 255, 127) == 127
    ensures OverChannel(0, 128, 0, 127) == 0
  {
    DivModUnique(255 * 128, 255, 128, 0);
    DivModUnique(255 * 127, 255, 127, 0);
  }

  /** A wipe shows nothing of `to` at progress 0 and all of it at progress 1, in either direction. */
  lemma {:induction false} RevealedEnds(size: int, pos: int, forward: bool)
    requires 0 <= pos < size < 0x8000_0000
    ensures !Revealed(size, WipeExtent(size, 0.0), pos, forward)
    ensures Revealed(size, WipeExtent(size, 1.0), pos, forward)
  {
    assert (size as real) * 0.0 == 0.0;
    assert (size as real) * 1.0 == size as real;
    assert Trunc(size as real) == size;
  }

  /** Once a column or row shows `to`, it keeps showing it as progress grows. */
  lemma {:induction false} RevealedMonotone(size: int, pos: int, forward: bool, p: real, q: real)
    requires size >= 0 && p <= q
    ensures Revealed(size, WipeExtent(size, p), pos, forward) ==> Revealed(size, WipeExtent(size, q), pos, forward)
  {
    assert WipeExtent(size, p) <= WipeExtent(size, q) by {
      ScaleMonotone(size as real, p, q);
      FloatToIntMonotone((size as real) * p, (size as real) * q);
    }
  }

  /**
   * Both wipes of stored bitmaps end at the frame the direction draws first
   * underneath: at progress 1 forward they show scaledTo, at progress 0
   * backward `from`. At the other end the frame drawn on top covers the one
   * beneath only where it is opaque.
   */
  lemma WipeEnds(from: Bitmap, scaledTo: Bitmap)
    requires SameShape(from, scaledTo) && StoredBitmap(from) && StoredBitmap(scaledTo)
    requires from.width < 0x8000_0000 && from.height < 0x8000_0000
    ensures WipeHorizontal(from, scaledTo, 1.0, true) == scaledTo
    ensures WipeHorizontal(from, scaledTo, 0.0, false) == from
    ensures WipeVertical(from, scaledTo, 1.0, true) == scaledTo
    ensures WipeVertical(from, scaledTo, 0.0, false) == from
    ensures Opaque(from) ==> WipeHorizontal(from, scaledTo, 0.0, true) == from && WipeVertical(from, scaledTo, 0.0, true) == from
    ensures Opaque(scaledTo) ==>
      WipeHorizontal(from, scaledTo, 1.0, false) == scaledTo && WipeVertical(from, scaledTo, 1.0, false) == scaledTo
  {
    forall x, y | InGrid(from.width, from.height, x, y)
      ensures PixelAt(WipeHorizontal(from, scaledTo, 1.0, true), x, y) == PixelAt(scaledTo, x, y)
    {
      WipeEndPixel(from, scaledTo, x, y);
    }
    BitmapExt(WipeHorizontal(from, scaledTo, 1.0, true), scaledTo);
    forall x, y | InGrid(from.width, from.height, x, y)
      ensures PixelAt(WipeHorizontal(from, scaledTo, 0.0, false), x, y) == PixelAt(from, x, y)
    {
      WipeEndPixel(from, scaledTo, x, y);
    }
    BitmapExt(WipeHorizontal(from, scaledTo, 0.0, false), from);
    forall x, y | InGrid(from.width, from.height, x, y)
      ensures PixelAt(WipeVertical(from, scaledTo, 1.0, true), x, y) == PixelAt(scaledTo, x, y)
    {
      WipeEndPixel(from, scaledTo, x, y);
    }
    BitmapExt(WipeVertical(from, scaledTo, 1.0, true), scaledTo);
    forall x, y | InGrid(from.width, from.height, x, y)
      ensures PixelAt(WipeVertical(from, scaledTo, 0.0, false), x, y) == PixelAt(from, x, y)
    {
      WipeEndPixel(from, scaledTo, x, y);
    }
    BitmapExt(WipeVertical(from, scaledTo, 0.0, false), from);
    if Opaque(from) {
      forall x, y | InGrid(from.width, from.height, x, y)
        ensures PixelAt(WipeHorizontal(from, scaledTo, 0.0, true), x, y) == PixelAt(from, x, y)
        ensures PixelAt(WipeVertical(from, scaledTo, 0.0, true), x, y) == PixelAt(from, x, y)
      {
        WipeEndPixel(from, scaledTo, x, y);
      }
      BitmapExt(WipeHorizontal(from, scaledTo, 0.0, true), from);
      BitmapExt(WipeVertical(from, scaledTo, 0.0, true), from);
    }
    if Opaque(scaledTo) {
      forall x, y | InGrid(from.width, from.height, x, y)
        ensures PixelAt(WipeHorizontal(from, scaledTo, 1.0, false), x, y) == PixelAt(scaledTo, x, y)
        ensures PixelAt(WipeVertical(from, scaledTo, 1.0, false), x, y) == PixelAt(scaledTo, x, y)
      {
        WipeEndPixel(from, scaledTo, x, y);
      }
      BitmapExt(WipeHorizontal(from, scaledTo, 1.0, false), scaledTo);
      BitmapExt(WipeVertical(from, scaledTo, 1.0, false), scaledTo);
    }
  }

  /** The pixels of WipeEnds, one at a time. */
  lemma {:induction false} WipeEndPixel(from: Bitmap, scaledTo: Bitmap, x: int, y: int)
    requires SameShape(from, scaledTo) && StoredBitmap(from) && StoredBitmap(scaledTo)
    requires from.width < 0x8000_0000 && from.height < 0x8000_0000
    requires InGrid(from.width, from.height, x, y)
    ensures var f, t := PixelAt(from, x, y), PixelAt(scaledTo, x, y);
      && PixelAt(WipeHorizontal(from, scaledTo, 1.0, true), x, y) == t
      && PixelAt(WipeHorizontal(from, scaledTo, 0.0, false), x, y) == f
      && PixelAt(WipeVertical(from, scaledTo, 1.0, true), x, y) == t
      && PixelAt(WipeVertical(from, scaledTo, 0.0, false), x, y) == f
      && (Opaque(from) ==>
            PixelAt(WipeHorizontal(from, scaledTo, 0.0, true), x, y) == f
            && PixelAt(WipeVertical(from, scaledTo, 0.0, true), x, y) == f)
      && (Opaque(scaledTo) ==>
            PixelAt(WipeHorizontal(from, scaledTo, 1.0, false), x, y) == t
            && PixelAt(WipeVertical(from, scaledTo, 1.0, false), x, y) == t)
  {
    WipeEndForward(from, scaledTo, x, y);
    WipeEndBackward(from, scaledTo, x, y);
  }

  lemma {:induction false} WipeEndForward(from: Bitmap, scaledTo: Bitmap, x: int, y: int)
    requires SameShape(from, scaledTo) && StoredBitmap(from) && StoredBitmap(scaledTo)
    requires from.width < 0x8000_0000 && from.height < 0x8000_0000
    requires InGrid(from.width, from.height, x, y)
    ensures var f, t := PixelAt(from, x, y), PixelAt(scaledTo, x, y);
      && PixelAt(WipeHorizontal(from, scaledTo, 1.0, true), x, y) == t
      && PixelAt(WipeVertical(from, scaledTo, 1.0, true), x, y) == t
      && (Opaque(from) ==>
            PixelAt(WipeHorizontal(from, scaledTo, 0.0, true), x, y) == f
            && PixelAt(WipeVertical(from, scaledTo, 0.0, true), x, y) == f)
  {
    RevealedEnds(from.width, x, true);
    RevealedEnds(from.height, y, true);
    WipeShows(from, scaledTo, 0.0, true, x, y);
    WipeShows(from, scaledTo, 1.0, true, x, y);
    if Opaque(from) {
      StoredPixel(from, x, y);
      OverOpaque(PixelAt(from, x, y), PixelAt(scaledTo, x, y));
    }
  }

  lemma {:induction false} WipeEndBackward(from: Bitmap, scaledTo: Bitmap, x: int, y: int)
    requires SameShape(from, scaledTo) && StoredBitmap(from) && StoredBitmap(scaledTo)
    requires from.width < 0x8000_0000 && from.height < 0x8000_0000
    requires InGrid(from.width, from.height, x, y)
    ensures var f, t := PixelAt(from, x, y), PixelAt(scaledTo, x, y);
      && PixelAt(WipeHorizontal(from, scaledTo, 0.0, false), x, y) == f
      && PixelAt(WipeVertical(from, scaledTo, 0.0, false), x, y) == f
      && (Opaque(scaledTo) ==>
            PixelAt(WipeHorizontal(from, scaledTo, 1.0, false), x, y) == t
            && PixelAt(WipeVertical(from, scaledTo, 1.0, false), x, y) == t)
  {
    RevealedEnds(from.width, x, false);
    RevealedEnds(from.height, y, false);
    WipeShows(from, scaledTo, 0.0, false, x, y);
    WipeShows(from, scaledTo, 1.0, false, x, y);
    if Opaque(scaledTo) {
      StoredPixel(scaledTo, x, y);
      OverOpaque(PixelAt(scaledTo, x, y), PixelAt(from, x, y));
    }
  }

  // ---------------------------------------------------------------------
  // blurTransition
  // ---------------------------------------------------------------------

  /**
   * blurTransition's radius: (progress * 2 * 20).toInt() in the first half,
   * ((1 - (progress - 0.5) * 2) * 20).toInt() in the second, at least 1.
   * Whatever the progress, it lies in [1, 20].
   */
  function BlurRadius(progress: real): (radius: int)
    ensures 1 <= radius <= 20
  {
    if progress < 0.5 then
      var blurProgress := progress * 2.0;
      Max(FloatToInt(blurProgress * 20.0), 1)
    else
      var sharpProgress := (progress - 0.5) * 2.0;
      Max(FloatToInt((1.0 - sharpProgress) * 20.0), 1)
  }

  /**
   * The radius is 1 at both ends and 20 at the midpoint; it grows through
   * the first half and shrinks through the second.
   */
  lemma BlurRadiusProfile(p: real, q: real)
    ensures BlurRadius(0.0) == 1 && BlurRadius(0.5) == 20 && BlurRadius(1.0) == 1
    ensures p <= q < 0.5 ==> BlurRadius(p) <= BlurRadius(q)
    ensures 0.5 <= p <= q ==> BlurRadius(p) >= BlurRadius(q)
  {
    assert Trunc(20.0) == 20;
    if p <= q < 0.5 {
      FloatToIntMonotone(p * 2.0 * 20.0, q * 2.0 * 20.0);
    }
    if 0.5 <= p <= q {
      FloatToIntMonotone((1.0 - (q - 0.5) * 2.0) * 20.0, (1.0 - (p - 0.5) * 2.0) * 20.0);
    }
  }

  /** blurTransition: from blurred in the first half, scaledTo blurred in the second. */
  function BlurTransition(from: Bitmap, scaledTo: Bitmap, progress: real): Bitmap
    requires SameShape(from, scaledTo)
  {
    if progress < 0.5 then SimpleBlurred(from, BlurRadius(progress))
    else SimpleBlurred(scaledTo, BlurRadius(progress))
  }

  // ---------------------------------------------------------------------
  // simpleBlur
  // ---------------------------------------------------------------------

  /** (radius / 3).coerceAtLeast(1). */
  function BlurStep(radius: int): (step: int)
    requires radius >= 0
    ensures step >= 1
  {
    Max(radius / 3, 1)
  }

  /** The corner of the step-wide block holding v (v, step non-negative). */
  function Corner(v: int, step: int): int
    requires step >= 1
  {
    v - v % step
  }

  /** Pixel i of simpleBlur: the colour of its block's corner (transparent in an empty bitmap). */
  function BlurredAt(b: Bitmap, radius: int, i: int): int
    requires radius >= 0
  {
    if b.width < 1 || b.height < 1 then Transparent
    else
      var step := BlurStep(radius);
      BoxColor(b, Corner(ColOf(b.width, i), step), Corner(RowOf(b.width, i), step), radius, step)
  }

  function SimpleBlurred(b: Bitmap, radius: int): (r: Bitmap)
    requires radius >= 0
  {
    Bitmap(b.width, b.height, seq(|b.pixels|, i => BlurredAt(b, radius, i)))
  }

  /** The pixels with row in [y, y2) and column in [x, x2). */
  predicate InBlock(w: int, i: int, x: int, x2: int, y: int, y2: int)
  {
    y <= RowOf(w, i) < y2 && x <= ColOf(w, i) < x2
  }

  /** The pixels written once the block scan stands at column x of the block row starting at y. */
  predicate Scanned(w: int, i: int, x: int, y: int, step: int)
  {
    RowOf(w, i) < y || (RowOf(w, i) < y + step && ColOf(w, i) < x)
  }

  /** A position inside the step-wide block starting at the multiple k * step has that block's corner. */
  lemma CornerOf(v: int, step: int, k: int)
    requires step >= 1 && k * step <= v < k * step + step
    ensures Corner(v, step) == k * step
  {
    DivModUnique(v, step, k, v - k * step);
  }

  /** Every pixel of the step x step block at (kx * step, ky * step) takes the block's colour. */
  lemma BlockShares(b: Bitmap, radius: int, kx: int, ky: int)
    requires BitmapShaped(b) && b.width >= 1 && b.height >= 1 && radius >= 0 && kx >= 0 && ky >= 0
    ensures var step := BlurStep(radius); var x := kx * step; var y := ky * step;
      forall i :: 0 <= i < |b.pixels| && InBlock(b.width, i, x, x + step, y, y + step) ==>
        BlurredAt(b, radius, i) == BoxColor(b, x, y, radius, step)
  {
    var step := BlurStep(radius);
    forall i | 0 <= i < |b.pixels| && InBlock(b.width, i, kx * step, kx * step + step, ky * step, ky * step + step)
      ensures BlurredAt(b, radius, i) == BoxColor(b, kx * step, ky * step, radius, step)
    {
      CornerOf(ColOf(b.width, i), step, kx);
      CornerOf(RowOf(b.width, i), step, ky);
    }
  }

  /** Moving the scan one pixel along a block row adds exactly that pixel. */
  lemma {:induction false} BlockStep(w: int, h: int, i: int, x: int, fx: int, fy: int)
    requires 0 <= i < w * h && 0 <= x <= fx < w && 0 <= fy < h
    ensures InBlock(w, i, x, fx + 1, fy, fy + 1) <==> InBlock(w, i, x, fx, fy, fy + 1) || i == fy * w + fx
  {
    CellDecompose(w, h, i);
    CellCompose(w, h, fx, fy);
  }

  /** Writes color into the block [x, x + step) x [y, y + step), cut at the bitmap's edges. */
  method FillBlock(pixels: array<int>, w: int, h: int, x: int, y: int, step: int, color: int)
    requires w >= 1 && h >= 1 && pixels.Length == w * h && 0 <= x < w && 0 <= y < h && step >= 1
    modifies pixels
    ensures forall i :: 0 <= i < pixels.Length ==>
      pixels[i] == if InBlock(w, i, x, x + step, y, y + step) then color else old(pixels[i])
  {
    AllCellsInGrid(w, h);
    var yEnd := Min(y + step, h);
    var xEnd := Min(x + step, w);
    var fy := y;
    while fy < yEnd
      invariant y <= fy <= yEnd
      invariant forall i :: 0 <= i < pixels.Length ==>
        pixels[i] == if InBlock(w, i, x, x + step, y, fy) then color else old(pixels[i])
    {
      var fx := x;
      while fx < xEnd
        invariant x <= fx <= xEnd
        invariant forall i :: 0 <= i < pixels.Length ==>
          pixels[i] == if InBlock(w, i, x, x + step, y, fy) || InBlock(w, i, x, fx, fy, fy + 1) then color else old(pixels[i])
      {
        CellCompose(w, h, fx, fy);
        pixels[fy * w + fx] := color;
        forall i | 0 <= i < pixels.Length
          ensures pixels[i] == if InBlock(w, i, x, x + step, y, fy) || InBlock(w, i, x, fx + 1, fy, fy + 1) then color else old(pixels[i])
        {
          BlockStep(w, h, i, x, fx, fy);
        }
        fx := fx + 1;
      }
      fy := fy + 1;
    }
  }

  /** simpleBlur: block by block, the block's average written over the whole block. */
  method SimpleBlur(bitmap: Bitmap, radius: int) returns (result: Bitmap)
    requires BitmapShaped(bitmap) && 1 <= radius <= 20
    ensures result == SimpleBlurred(bitmap, radius)
  {
    var width, height := bitmap.width, bitmap.height;
    var pixels := new int[width * height](_ => Transparent);
    var step := Max(radius / 3, 1);
    AllCellsInGrid(width, height);
    var y := 0;
    ghost var ky := 0;
    while y < height
      invariant 0 <= ky && y == ky * step
      invariant forall i :: 0 <= i < pixels.Length && RowOf(width, i) < y ==> pixels[i] == BlurredAt(bitmap, radius, i)
    {
      var x := 0;
      ghost var kx := 0;
      while x < width
        invariant 0 <= kx && x == kx * step
        invariant forall i :: 0 <= i < pixels.Length && Scanned(width, i, x, y, step) ==>
          pixels[i] == BlurredAt(bitmap, radius, i)
      {
        var avgColor, _ := BoxAverage(bitmap, radius, step, x, y);
        BlockShares(bitmap, radius, kx, ky);
        FillBlock(pixels, width, height, x, y, step, avgColor);
        assert (kx + 1) * step == x + step;
        x := x + step;
        kx := kx + 1;
      }
      assert (ky + 1) * step == y + step;
      y := y + step;
      ky := ky + 1;
    }
    result := Bitmap(width, height, pixels[..]);
  }

  // ---------------------------------------------------------------------
  // properties of simpleBlur
  // ---------------------------------------------------------------------

  /**
   * simpleBlur keeps the shape, makes every pixel opaque, gives all pixels
   * of a block one colour, and keeps the RGB of a bitmap of one colour.
   */
  lemma SimpleBlurProperties(b: Bitmap, radius: int, p: int)
    requires BitmapShaped(b) && radius >= 0
    ensures var r := SimpleBlurred(b, radius);
      BitmapShaped(r) && r.width == b.width && r.height == b.height
      && (forall i :: 0 <= i < |r.pixels| ==> Alpha(r.pixels[i]) == 255)
      && ((forall i :: 0 <= i < |b.pixels| ==> b.pixels[i] == p) ==>
            forall i :: 0 <= i < |r.pixels| ==> r.pixels[i] == Rgb(Red(p), Green(p), Blue(p)))
  {
    var r := SimpleBlurred(b, radius);
    if b.width >= 1 && b.height >= 1 {
      forall i | 0 <= i < |r.pixels| ensures Alpha(r.pixels[i]) == 255 {
      }
      if forall i :: 0 <= i < |b.pixels| ==> b.pixels[i] == p {
        forall i | 0 <= i < |r.pixels| ensures r.pixels[i] == Rgb(Red(p), Green(p), Blue(p)) {
          var step := BlurStep(radius);
          var cx, cy := Corner(ColOf(b.width, i), step), Corner(RowOf(b.width, i), step);
          UniformBoxColor(b, p, cx, cy, radius, step);
        }
      }
    } else {
      assert |b.pixels| == 0 by {
        if b.width < 1 { assert b.width == 0; } else { assert b.height == 0; }
      }
    }
  }

  // ---------------------------------------------------------------------
  // applyTransition
  // ---------------------------------------------------------------------

  /**
   * applyTransition's result. The Canvas-drawn kinds (fade, slide, zoom,
   * circle) produce the bitmap `composited`, which the platform draws.
   */
  function Transitioned(from: Bitmap, scaledTo: Bitmap, progress: real, t: TransitionType, composited: Bitmap): Bitmap
    requires SameShape(from, scaledTo)
  {
    match HelperOf(t)
    case DissolveHelper => Dissolved(from, scaledTo, progress)
    case WipeHorizontalHelper(leftToRight) => WipeHorizontal(from, scaledTo, progress, leftToRight)
    case WipeVerticalHelper(topToBottom) => WipeVertical(from, scaledTo, progress, topToBottom)
    case BlurHelper => BlurTransition(from, scaledTo, progress)
    case _ => composited
  }

  /** applyTransition: the `when` over the kinds, running dissolve and simpleBlur as loops. */
  method ApplyTransition(from: Bitmap, scaledTo: Bitmap, progress: real, t: TransitionType, composited: Bitmap)
    returns (result: Bitmap)
    requires SameShape(from, scaledTo)
    ensures result == Transitioned(from, scaledTo, progress, t, composited)
  {
    match t {
      case Dissolve =>
        result := DissolveTransition(from, scaledTo, progress);
      case WipeLeft =>
        result := WipeHorizontal(from, scaledTo, progress, true);
      case WipeRight =>
        result := WipeHorizontal(from, scaledTo, progress, false);
      case WipeUp =>
        result := WipeVertical(from, scaledTo, progress, true);
      case WipeDown =>
        result := WipeVertical(from, scaledTo, progress, false);
      case Blur =>
        var blurRadius := BlurRadius(progress);
        if progress < 0.5 {
          result := SimpleBlur(from, blurRadius);
        } else {
          result := SimpleBlur(scaledTo, blurRadius);
        }
      case _ =>
        result := composited;
    }
  }

  /**
   * Every transition computed here has from's width and height; blur makes
   * every pixel opaque, and at progress 1 it is scaledTo blurred with radius
   * 1 rather than scaledTo itself.
   */
  lemma TransitionShape(from: Bitmap, scaledTo: Bitmap, progress: real, t: TransitionType, composited: Bitmap)
    requires SameShape(from, scaledTo) && HelperOf(t) in {DissolveHelper, WipeHorizontalHelper(true),
      WipeHorizontalHelper(false), WipeVerticalHelper(true), WipeVerticalHelper(false), BlurHelper}
    ensures var r := Transitioned(from, scaledTo, progress, t, composited);
      BitmapShaped(r) && r.width == from.width && r.height == from.height
    ensures t == Blur ==> forall i :: 0 <= i < |Transitioned(from, scaledTo, progress, t, composited).pixels| ==>
      Alpha(Transitioned(from, scaledTo, progress, t, composited).pixels[i]) == 255
    ensures Transitioned(from, scaledTo, 1.0, Blur, composited) == SimpleBlurred(scaledTo, 1)
  {
    SimpleBlurProperties(from, BlurRadius(progress), 0);
    SimpleBlurProperties(scaledTo, BlurRadius(progress), 0);
    assert BlurRadius(1.0) == 1 by {
      assert Trunc(0.0) == 0;
    }
  }
}
