// ColorFilter (color_filter.cpp): per-pixel colour adjustments that rewrite
// the RGB bytes of an RGBA buffer in place, four bytes at a time, and never
// write the alpha byte (index i + 3).
module ColorFilter {
  import opened Common

  /** The adjustments apply can select; NoOp for every other name. */
  datatype ColorOp = Brightness | Contrast | Saturation | Hue | Sepia | Grayscale | Invert | Vignette | NoOp

  const ColorOpNames: set<string> :=
    {"brightness", "contrast", "saturation", "hue", "sepia", "grayscale", "invert", "vignette"}

  /** The branch of apply taken for a type name. */
  function Dispatch(kind: string): (op: ColorOp)
    ensures op == NoOp <==> kind !in ColorOpNames
    ensures op == Brightness <==> kind == "brightness"
    ensures op == Grayscale <==> kind == "grayscale"
    ensures op == Invert <==> kind == "invert"
  {
    if kind == "brightness" then Brightness
    else if kind == "contrast" then Contrast
    else if kind == "saturation" then Saturation
    else if kind == "hue" then Hue
    else if kind == "sepia" then Sepia
    else if kind == "grayscale" then Grayscale
    else if kind == "invert" then Invert
    else if kind == "vignette" then Vignette
    else NoOp
  }

  /** temperature and tint have their own routines but apply never selects them. */
  lemma TemperatureAndTintNotDispatched()
    ensures Dispatch("temperature") == NoOp && Dispatch("tint") == NoOp
  {
  }

  predicate IsFrameBuffer(s: seq<int>) { |s| % 4 == 0 && AllBytes(s) }

  /** Is byte k of an RGBA buffer an alpha byte? */
  predicate IsAlpha(k: int) { k % 4 == 3 }

  function ClampByte8(v: int): int { Clamp(v, 0, 255) }

  // ---------------------------------------------------------------------
  // Specification of each adjustment, byte by byte
  // ---------------------------------------------------------------------

  function BrightByte(k: int, v: int, adjustment: int): int
  {
    if IsAlpha(k) then v else ClampByte8(v + adjustment)
  }

  function Brightened(s: seq<int>, adjustment: int): seq<int>
  {
    seq(|s|, k requires 0 <= k < |s| => BrightByte(k, s[k], adjustment))
  }

  function TemperatureByte(k: int, v: int, rAdjust: int, bAdjust: int): int
  {
    if k % 4 == 0 then ClampByte8(v + rAdjust)
    else if k % 4 == 2 then ClampByte8(v + bAdjust)
    else v
  }

  function Warmed(s: seq<int>, rAdjust: int, bAdjust: int): seq<int>
  {
    seq(|s|, k requires 0 <= k < |s| => TemperatureByte(k, s[k], rAdjust, bAdjust))
  }

  function TintByte(k: int, v: int, gAdjust: int, mAdjust: int): int
  {
    if k % 4 == 1 then ClampByte8(v + gAdjust)
    else if k % 4 == 0 || k % 4 == 2 then ClampByte8(v + mAdjust)
    else v
  }

  function Tinted(s: seq<int>, gAdjust: int, mAdjust: int): seq<int>
  {
    seq(|s|, k requires 0 <= k < |s| => TintByte(k, s[k], gAdjust, mAdjust))
  }

  function InvertByte(k: int, v: int): int
  {
    if IsAlpha(k) then v else 255 - v
  }

  function Inverted(s: seq<int>): seq<int>
  {
    seq(|s|, k requires 0 <= k < |s| => InvertByte(k, s[k]))
  }

  /** 0.299 r + 0.587 g + 0.114 b truncated to a byte (weights taken as exact decimals). */
  function Gray(r: int, g: int, b: int): int
  {
    Trunc((299 * r + 587 * g + 114 * b) as real / 1000.0)
  }

  function GrayByte(s: seq<int>, k: int): int
    requires |s| % 4 == 0 && 0 <= k < |s|
  {
    var p := k - k % 4;
    if IsAlpha(k) then s[k] else Gray(s[p], s[p + 1], s[p + 2])
  }

  function Grayed(s: seq<int>): seq<int>
    requires |s| % 4 == 0
  {
    seq(|s|, k requires 0 <= k < |s| => GrayByte(s, k))
  }

  // ---------------------------------------------------------------------
  // Properties of the adjustments
  // ---------------------------------------------------------------------

  /** Brightness keeps bytes and alpha; a zero adjustment changes nothing. */
  lemma BrightnessProperties(s: seq<int>, adjustment: int)
    requires IsFrameBuffer(s)
    ensures var t := Brightened(s, adjustment);
      IsFrameBuffer(t) && |t| == |s|
      && (forall k :: 0 <= k < |s| && IsAlpha(k) ==> t[k] == s[k])
      && (forall k :: 0 <= k < |s| && !IsAlpha(k) ==> t[k] == ClampByte8(s[k] + adjustment))
      && (adjustment == 0 ==> t == s)
  {
  }

  /** Temperature moves red and blue only; green and alpha are untouched. */
  lemma TemperatureProperties(s: seq<int>, rAdjust: int, bAdjust: int)
    requires IsFrameBuffer(s)
    ensures var t := Warmed(s, rAdjust, bAdjust);
      IsFrameBuffer(t)
      && (forall k :: 0 <= k < |s| && (k % 4 == 1 || IsAlpha(k)) ==> t[k] == s[k])
      && (forall k :: 0 <= k < |s| && k % 4 == 0 ==> t[k] == ClampByte8(s[k] + rAdjust))
      && (forall k :: 0 <= k < |s| && k % 4 == 2 ==> t[k] == ClampByte8(s[k] + bAdjust))
  {
  }

  /** Tint moves green one way and red and blue (magenta) the other; alpha is untouched. */
  lemma TintProperties(s: seq<int>, gAdjust: int, mAdjust: int)
    requires IsFrameBuffer(s)
    ensures var t := Tinted(s, gAdjust, mAdjust);
      IsFrameBuffer(t) && (forall k :: 0 <= k < |s| && IsAlpha(k) ==> t[k] == s[k])
      && (forall k :: 0 <= k < |s| && k % 4 == 1 ==> t[k] == ClampByte8(s[k] + gAdjust))
      && (forall k :: 0 <= k < |s| && (k % 4 == 0 || k % 4 == 2) ==> t[k] == ClampByte8(s[k] + mAdjust))
  {
  }

  /** Inverting twice gives the buffer back; alpha is never touched. */
  lemma {:induction false} InvertInvolution(s: seq<int>)
    requires IsFrameBuffer(s)
    ensures IsFrameBuffer(Inverted(s))
    ensures Inverted(Inverted(s)) == s
    ensures forall k :: 0 <= k < |s| && IsAlpha(k) ==> Inverted(s)[k] == s[k]
  {
    var t := Inverted(s);
    assert forall k :: 0 <= k < |s| ==> Inverted(t)[k] == s[k];
  }

  lemma {:induction false} GrayInRange(r: int, g: int, b: int)
    requires IsByte(r) && IsByte(g) && IsByte(b)
    ensures IsByte(Gray(r, g, b))
    ensures r == g == b ==> Gray(r, g, b) == r
  {
    var sum := 299 * r + 587 * g + 114 * b;
    assert 0 <= sum <= 255000;
    assert 0.0 <= sum as real / 1000.0 <= 255.0;
    if r == g == b {
      assert sum == 1000 * r;
      assert sum as real / 1000.0 == r as real;
    }
  }

  /** After grayscale each pixel has R = G = B, still bytes, same alpha; gray pixels stay as they are. */
  lemma GrayscaleProperties(s: seq<int>)
    requires IsFrameBuffer(s)
    ensures var t := Grayed(s);
      IsFrameBuffer(t)
      && (forall p :: 0 <= p < |s| / 4 ==> t[4 * p] == t[4 * p + 1] == t[4 * p + 2] && t[4 * p + 3] == s[4 * p + 3])
      && ((forall p :: 0 <= p < |s| / 4 ==> s[4 * p] == s[4 * p + 1] == s[4 * p + 2]) ==> t == s)
  {
    GrayscaleBytes(s);
    GrayscaleChannels(s);
    if forall p :: 0 <= p < |s| / 4 ==> s[4 * p] == s[4 * p + 1] == s[4 * p + 2] {
      GrayscaleKeepsGray(s);
    }
  }

  lemma GrayscaleBytes(s: seq<int>)
    requires IsFrameBuffer(s)
    ensures IsFrameBuffer(Grayed(s))
  {
    var t := Grayed(s);
    forall k | 0 <= k < |s| ensures IsByte(t[k]) {
      var p := k - k % 4;
      GrayInRange(s[p], s[p + 1], s[p + 2]);
    }
  }

  lemma GrayscaleChannels(s: seq<int>)
    requires IsFrameBuffer(s)
    ensures var t := Grayed(s);
      forall p :: 0 <= p < |s| / 4 ==> t[4 * p] == t[4 * p + 1] == t[4 * p + 2] && t[4 * p + 3] == s[4 * p + 3]
  {
    var t := Grayed(s);
    forall p | 0 <= p < |s| / 4
      ensures t[4 * p] == t[4 * p + 1] == t[4 * p + 2] && t[4 * p + 3] == s[4 * p + 3]
    {
      GrayPixel(s, 4 * p);
    }
  }

  lemma GrayscaleKeepsGray(s: seq<int>)
    requires IsFrameBuffer(s)
    requires forall p :: 0 <= p < |s| / 4 ==> s[4 * p] == s[4 * p + 1] == s[4 * p + 2]
    ensures Grayed(s) == s
  {
    var t := Grayed(s);
    forall k | 0 <= k < |s| ensures t[k] == s[k] {
      var p := k / 4;
      assert k - k % 4 == 4 * p;
      GrayInRange(s[4 * p], s[4 * p + 1], s[4 * p + 2]);
    }
  }

  // ---------------------------------------------------------------------
  // The in-place routines
  // ---------------------------------------------------------------------

  method AdjustBrightness(data: array<int>, value: real)
    requires data.Length % 4 == 0
    modifies data
    ensures data[..] == Brightened(old(data[..]), Trunc(value * 255.0))
  {
    var adjustment := Trunc(value * 255.0);
    var i := 0;
    while i < data.Length
      invariant 0 <= i <= data.Length && i % 4 == 0
      invariant forall k :: 0 <= k < i ==> data[k] == BrightByte(k, old(data[k]), adjustment)
      invariant forall k :: i <= k < data.Length ==> data[k] == old(data[k])
    {
      data[i + 0] := Max(0, Min(255, data[i + 0] + adjustment));
      data[i + 1] := Max(0, Min(255, data[i + 1] + adjustment));
      data[i + 2] := Max(0, Min(255, data[i + 2] + adjustment));
      i := i + 4;
    }
  }

  method AdjustTemperature(data: array<int>, value: real)
    requires data.Length % 4 == 0
    modifies data
    ensures data[..] == Warmed(old(data[..]), Trunc(value * 30.0), Trunc(-value * 30.0))
  {
    var rAdjust := Trunc(value * 30.0);
    var bAdjust := Trunc(-value * 30.0);
    var i := 0;
    while i < data.Length
      invariant 0 <= i <= data.Length && i % 4 == 0
      invariant forall k :: 0 <= k < i ==> data[k] == TemperatureByte(k, old(data[k]), rAdjust, bAdjust)
      invariant forall k :: i <= k < data.Length ==> data[k] == old(data[k])
    {
      data[i + 0] := Max(0, Min(255, data[i + 0] + rAdjust));
      data[i + 2] := Max(0, Min(255, data[i + 2] + bAdjust));
      i := i + 4;
    }
  }

  method AdjustTint(data: array<int>, value: real)
    requires data.Length % 4 == 0
    modifies data
    ensures data[..] == Tinted(old(data[..]), Trunc(value * 30.0), Trunc(-value * 15.0))
  {
    var gAdjust := Trunc(value * 30.0);
    var mAdjust := Trunc(-value * 15.0);
    var i := 0;
    while i < data.Length
      invariant 0 <= i <= data.Length && i % 4 == 0
      invariant forall k :: 0 <= k < i ==> data[k] == TintByte(k, old(data[k]), gAdjust, mAdjust)
      invariant forall k :: i <= k < data.Length ==> data[k] == old(data[k])
    {
      data[i + 1] := Max(0, Min(255, data[i + 1] + gAdjust));
      data[i + 0] := Max(0, Min(255, data[i + 0] + mAdjust));
      data[i + 2] := Max(0, Min(255, data[i + 2] + mAdjust));
      i := i + 4;
    }
  }

  method ApplyGrayscale(data: array<int>)
    requires data.Length % 4 == 0
    modifies data
    ensures data[..] == Grayed(old(data[..]))
  {
    ghost var s := data[..];
    var i := 0;
    ghost var pixel := 0;
    while i < data.Length
      invariant 0 <= i <= data.Length && i == 4 * pixel
      invariant forall k :: 0 <= k < i ==> data[k] == GrayByte(s, k)
      invariant forall k :: i <= k < data.Length ==> data[k] == s[k]
    {
      GrayscalePixel(data, i, s);
      i := i + 4;
      pixel := pixel + 1;
    }
    GrayedAt(s, data[..]);
  }

  /** One iteration of the grayscale loop: the pixel at byte i gets its gray, alpha stays. */
  method GrayscalePixel(data: array<int>, i: int, ghost s: seq<int>)
    requires |s| == data.Length && |s| % 4 == 0 && 0 <= i < |s| && i % 4 == 0
    requires forall k :: i <= k < data.Length ==> data[k] == s[k]
    modifies data
    ensures i + 4 <= data.Length
    ensures forall k :: 0 <= k < data.Length ==> data[k] == if i <= k < i + 4 then GrayByte(s, k) else old(data[k])
  {
    GrayPixel(s, i);
    var gray := Gray(data[i + 0], data[i + 1], data[i + 2]);
    data[i + 0] := gray;
    data[i + 1] := gray;
    data[i + 2] := gray;
  }

  lemma GrayedAt(s: seq<int>, t: seq<int>)
    requires |s| % 4 == 0 && |t| == |s| && forall k :: 0 <= k < |s| ==> t[k] == GrayByte(s, k)
    ensures t == Grayed(s)
  {
  }

  /** The four bytes of the pixel at byte i: three grays and the alpha as it was. */
  lemma GrayPixel(s: seq<int>, i: int)
    requires |s| % 4 == 0 && 0 <= i < |s| && i % 4 == 0
    ensures i + 4 <= |s|
    ensures var g := Gray(s[i], s[i + 1], s[i + 2]);
      GrayByte(s, i) == g && GrayByte(s, i + 1) == g && GrayByte(s, i + 2) == g && GrayByte(s, i + 3) == s[i + 3]
  {
    assert (i + 1) % 4 == 1 && (i + 2) % 4 == 2 && (i + 3) % 4 == 3;
  }

  method ApplyInvert(data: array<int>)
    requires data.Length % 4 == 0
    modifies data
    ensures data[..] == Inverted(old(data[..]))
  {
    var i := 0;
    while i < data.Length
      invariant 0 <= i <= data.Length && i % 4 == 0
      invariant forall k :: 0 <= k < i ==> data[k] == InvertByte(k, old(data[k]))
      invariant forall k :: i <= k < data.Length ==> data[k] == old(data[k])
    {
      data[i + 0] := 255 - data[i + 0];
      data[i + 1] := 255 - data[i + 1];
      data[i + 2] := 255 - data[i + 2];
      i := i + 4;
    }
  }

  /** The float-only arms of apply (contrast, saturation, hue, sepia, vignette)
      are not modelled here; apply receives what they write as a function of
      the selected adjustment, the intensity and the current bytes. */
  type FloatAdjust = (ColorOp, real, seq<int>) -> seq<int>

  /** The arms are ordinary clamping adjustments: same length, bytes stay bytes. */
  ghost predicate KeepsFrames(arm: FloatAdjust)
  {
    forall op, v, s :: |arm(op, v, s)| == |s| && (IsFrameBuffer(s) ==> IsFrameBuffer(arm(op, v, s)))
  }

  /** The bytes apply leaves behind for a type name and intensity. */
  function Applied(s: seq<int>, kind: string, intensity: real, arm: FloatAdjust): seq<int>
    requires |s| % 4 == 0
  {
    match Dispatch(kind)
    case Brightness => Brightened(s, Trunc(intensity * 255.0))
    case Grayscale => Grayed(s)
    case Invert => Inverted(s)
    case NoOp => s
    case _ => arm(Dispatch(kind), intensity, s)
  }

  /** apply keeps a frame buffer a frame buffer, and an unknown name changes nothing. */
  lemma AppliedKeepsFrames(s: seq<int>, kind: string, intensity: real, arm: FloatAdjust)
    requires IsFrameBuffer(s) && KeepsFrames(arm)
    ensures IsFrameBuffer(Applied(s, kind, intensity, arm))
    ensures kind !in ColorOpNames ==> Applied(s, kind, intensity, arm) == s
  {
    match Dispatch(kind)
    case Brightness => BrightnessProperties(s, Trunc(intensity * 255.0));
    case Grayscale => GrayscaleProperties(s);
    case Invert => InvertInvolution(s);
    case _ =>
  }

  /** Copies what an unmodelled arm computed into the frame. */
  method Overwrite(data: array<int>, t: seq<int>)
    requires |t| == data.Length
    modifies data
    ensures data[..] == t
  {
    var k := 0;
    while k < data.Length
      invariant 0 <= k <= data.Length
      invariant forall j :: 0 <= j < k ==> data[j] == t[j]
    {
      data[k] := t[k];
      k := k + 1;
    }
  }

  method Apply(data: array<int>, kind: string, intensity: real, arm: FloatAdjust)
    requires data.Length % 4 == 0 && KeepsFrames(arm)
    modifies data
    ensures data[..] == Applied(old(data[..]), kind, intensity, arm)
  {
    var op := Dispatch(kind);
    match op {
      case Brightness => AdjustBrightness(data, intensity);
      case Grayscale => ApplyGrayscale(data);
      case Invert => ApplyInvert(data);
      case NoOp =>
      case _ => Overwrite(data, arm(op, intensity, data[..]));
    }
  }
}
