// The box average shared by the two blurs of the app (simpleBlur in
// Transitions.kt and blurBitmap in BackgroundRemover.kt): every tap
// (x + dx, y + dy) for dx, dy in -radius..radius taken step apart, each
// coordinate clamped into the bitmap with coerceIn, and each channel summed
// over all taps and divided (Int division) by the number of taps.
module BoxBlur {
  import opened Common

  /** How many of -radius, -radius + step, ... do not pass radius. */
  function Taps(radius: int, step: int): (n: int)
    requires radius >= 0 && step >= 1
    ensures n >= 1
  {
    (2 * radius) / step + 1
  }

  /** The t-th offset of the loop `-radius..radius step step`. */
  function Offset(radius: int, step: int, t: int): int { -radius + t * step }

  datatype Channel = RedChannel | GreenChannel | BlueChannel

  /** (pixel shr 16) and 0xFF, (pixel shr 8) and 0xFF, pixel and 0xFF. */
  function ChannelOf(c: Channel, p: int): (v: int)
    ensures IsByte(v)
  {
    match c
    case RedChannel => Red(p)
    case GreenChannel => Green(p)
    case BlueChannel => Blue(p)
  }

  /** The sample at offsets (dx, dy) from (x, y), coordinates clamped into the bitmap. */
  function Sample(b: Bitmap, c: Channel, x: int, y: int, dx: int, dy: int): (v: int)
    requires b.width >= 1 && b.height >= 1
    ensures IsByte(v)
  {
    ChannelOf(c, PixelAt(b, Clamp(x + dx, 0, b.width - 1), Clamp(y + dy, 0, b.height - 1)))
  }

  /** Channel c summed over the first k horizontal taps at vertical offset dy. */
  function RowSum(b: Bitmap, c: Channel, x: int, y: int, radius: int, step: int, dy: int, k: nat): int
    requires b.width >= 1 && b.height >= 1
  {
    if k == 0 then 0
    else RowSum(b, c, x, y, radius, step, dy, k - 1) + Sample(b, c, x, y, Offset(radius, step, k - 1), dy)
  }

  /** Channel c summed over the first k rows of taps, each row complete. */
  function BoxSum(b: Bitmap, c: Channel, x: int, y: int, radius: int, step: int, k: nat): int
    requires b.width >= 1 && b.height >= 1 && radius >= 0 && step >= 1
  {
    if k == 0 then 0
    else BoxSum(b, c, x, y, radius, step, k - 1) + RowSum(b, c, x, y, radius, step, Offset(radius, step, k - 1), Taps(radius, step))
  }

  /** k taps of byte values sum to between 0 and 255 k. */
  lemma {:induction false} RowSumBounds(b: Bitmap, c: Channel, x: int, y: int, radius: int, step: int, dy: int, k: nat)
    requires b.width >= 1 && b.height >= 1
    ensures 0 <= RowSum(b, c, x, y, radius, step, dy, k) <= 255 * k
  {
    if k > 0 {
      RowSumBounds(b, c, x, y, radius, step, dy, k - 1);
    }
  }

  /** k rows of n taps sum to between 0 and 255 n k. */
  lemma {:induction false} BoxSumBounds(b: Bitmap, c: Channel, x: int, y: int, radius: int, step: int, k: nat)
    requires b.width >= 1 && b.height >= 1 && radius >= 0 && step >= 1
    ensures 0 <= BoxSum(b, c, x, y, radius, step, k) <= 255 * (Taps(radius, step) * k)
  {
    if k > 0 {
      var n := Taps(radius, step);
      BoxSumBounds(b, c, x, y, radius, step, k - 1);
      RowSumBounds(b, c, x, y, radius, step, Offset(radius, step, k - 1), n);
      assert n * k == n * (k - 1) + n;
    }
  }

  /** The average of channel c over all taps around (x, y), taps step apart. */
  function Average(b: Bitmap, c: Channel, x: int, y: int, radius: int, step: int): (v: int)
    requires b.width >= 1 && b.height >= 1 && radius >= 0 && step >= 1
    ensures IsByte(v)
  {
    var n := Taps(radius, step);
    var count := n * n;
    var sum := BoxSum(b, c, x, y, radius, step, n);
    assert 0 <= sum / count <= 255 by {
      BoxSumBounds(b, c, x, y, radius, step, n);
      AverageIsByte(sum, count);
    }
    sum / count
  }

  /** A sum of count byte values, divided by count, is a byte. */
  lemma AverageIsByte(sum: int, count: int)
    requires count >= 1 && 0 <= sum <= 255 * count
    ensures 0 <= sum / count <= 255
  {
    var q := sum / count;
    assert q * count <= sum;
    MulLeCancel(q, 255, count);
  }

  /** Color.rgb of the three channel averages taken around (x, y). */
  function BoxColor(b: Bitmap, x: int, y: int, radius: int, step: int): (p: int)
    requires b.width >= 1 && b.height >= 1 && radius >= 0 && step >= 1
    ensures IsColor(p) && Alpha(p) == 255
  {
    Rgb(Average(b, RedChannel, x, y, radius, step), Average(b, GreenChannel, x, y, radius, step),
        Average(b, BlueChannel, x, y, radius, step))
  }

  /** -radius + t * step stays within radius exactly for the first Taps(radius, step) values of t. */
  lemma {:induction false} TapsBound(radius: int, step: int, t: int)
    requires radius >= 0 && step >= 1 && t >= 0
    ensures Offset(radius, step, t) <= radius <==> t < Taps(radius, step)
  {
    var q := (2 * radius) / step;
    var rem := (2 * radius) % step;
    assert 2 * radius == q * step + rem && 0 <= rem < step;
    if t <= q {
      MulLe(t, q, step);
    } else {
      MulLe(q + 1, t, step);
      assert (q + 1) * step == q * step + step;
    }
  }

  lemma MulLe(a: int, b: int, s: int)
    requires a <= b && s >= 0
    ensures a * s <= b * s
  {
    assert b * s - a * s == (b - a) * s;
  }

  /** The next offset is one step further. */
  lemma OffsetNext(radius: int, step: int, t: int)
    ensures Offset(radius, step, t + 1) == Offset(radius, step, t) + step
  {
    assert (t + 1) * step == t * step + step;
  }

  /** The inner dx loop: the three channel sums of one row of taps, and their count. */
  method RowSums(bitmap: Bitmap, radius: int, step: int, x: int, y: int, dy: int)
    returns (r: int, g: int, b: int, count: int)
    requires bitmap.width >= 1 && bitmap.height >= 1 && radius >= 0 && step >= 1
    ensures var n := Taps(radius, step);
      r == RowSum(bitmap, RedChannel, x, y, radius, step, dy, n)
      && g == RowSum(bitmap, GreenChannel, x, y, radius, step, dy, n)
      && b == RowSum(bitmap, BlueChannel, x, y, radius, step, dy, n)
      && count == n
  {
    r, g, b, count := 0, 0, 0, 0;
    var dx := -radius;
    while dx <= radius
      invariant 0 <= count <= Taps(radius, step) && dx == Offset(radius, step, count)
      invariant r == RowSum(bitmap, RedChannel, x, y, radius, step, dy, count)
      invariant g == RowSum(bitmap, GreenChannel, x, y, radius, step, dy, count)
      invariant b == RowSum(bitmap, BlueChannel, x, y, radius, step, dy, count)
      decreases radius - dx
    {
      TapsBound(radius, step, count);
      var nx := Clamp(x + dx, 0, bitmap.width - 1);
      var ny := Clamp(y + dy, 0, bitmap.height - 1);
      var pixel := PixelAt(bitmap, nx, ny);
      r := r + Red(pixel);
      g := g + Green(pixel);
      b := b + Blue(pixel);
      OffsetNext(radius, step, count);
      count := count + 1;
      dx := dx + step;
    }
    TapsBound(radius, step, count);
  }

  /** The average colour around (x, y): both tap loops, then Color.rgb of the three quotients. */
  method BoxAverage(bitmap: Bitmap, radius: int, step: int, x: int, y: int) returns (color: int, count: int)
    requires bitmap.width >= 1 && bitmap.height >= 1 && radius >= 0 && step >= 1
    ensures color == BoxColor(bitmap, x, y, radius, step)
    ensures count == Taps(radius, step) * Taps(radius, step)
  {
    ghost var n := Taps(radius, step);
    var r, g, b := 0, 0, 0;
    count := 0;
    var dy := -radius;
    ghost var t := 0;
    while dy <= radius
      invariant 0 <= t <= n && dy == Offset(radius, step, t) && count == n * t
      invariant r == BoxSum(bitmap, RedChannel, x, y, radius, step, t)
      invariant g == BoxSum(bitmap, GreenChannel, x, y, radius, step, t)
      invariant b == BoxSum(bitmap, BlueChannel, x, y, radius, step, t)
      decreases radius - dy
    {
      TapsBound(radius, step, t);
      var rowR, rowG, rowB, rowCount := RowSums(bitmap, radius, step, x, y, dy);
      r, g, b := r + rowR, g + rowG, b + rowB;
      count := count + rowCount;
      OffsetNext(radius, step, t);
      assert n * (t + 1) == n * t + n;
      dy := dy + step;
      t := t + 1;
    }
    TapsBound(radius, step, t);
    assert t == n && count == n * n;
    MulAtLeast(n, n);
    assert r / count == Average(bitmap, RedChannel, x, y, radius, step);
    assert g / count == Average(bitmap, GreenChannel, x, y, radius, step);
    assert b / count == Average(bitmap, BlueChannel, x, y, radius, step);
    color := Rgb(r / count, g / count, b / count);
  }

  /** Over a bitmap of one colour, every row of k taps sums to k times that colour's channel. */
  lemma {:induction false} UniformRowSum(b: Bitmap, c: Channel, p: int, x: int, y: int, radius: int, step: int, dy: int, k: nat)
    requires BitmapShaped(b) && b.width >= 1 && b.height >= 1
    requires forall i :: 0 <= i < |b.pixels| ==> b.pixels[i] == p
    ensures RowSum(b, c, x, y, radius, step, dy, k) == k * ChannelOf(c, p)
  {
    if k > 0 {
      UniformRowSum(b, c, p, x, y, radius, step, dy, k - 1);
      UniformSample(b, c, p, x, y, Offset(radius, step, k - 1), dy);
      assert k * ChannelOf(c, p) == (k - 1) * ChannelOf(c, p) + ChannelOf(c, p);
    }
  }

  /** In a bitmap of one colour every clamped sample is that colour's channel. */
  lemma UniformSample(b: Bitmap, c: Channel, p: int, x: int, y: int, dx: int, dy: int)
    requires BitmapShaped(b) && b.width >= 1 && b.height >= 1
    requires forall i :: 0 <= i < |b.pixels| ==> b.pixels[i] == p
    ensures Sample(b, c, x, y, dx, dy) == ChannelOf(c, p)
  {
    CellCompose(b.width, b.height, Clamp(x + dx, 0, b.width - 1), Clamp(y + dy, 0, b.height - 1));
  }

  lemma {:induction false} UniformBoxSum(b: Bitmap, c: Channel, p: int, x: int, y: int, radius: int, step: int, k: nat)
    requires BitmapShaped(b) && b.width >= 1 && b.height >= 1 && radius >= 0 && step >= 1
    requires forall i :: 0 <= i < |b.pixels| ==> b.pixels[i] == p
    ensures BoxSum(b, c, x, y, radius, step, k) == Taps(radius, step) * k * ChannelOf(c, p)
  {
    if k > 0 {
      var n := Taps(radius, step);
      UniformBoxSum(b, c, p, x, y, radius, step, k - 1);
      UniformRowSum(b, c, p, x, y, radius, step, Offset(radius, step, k - 1), n);
      MulSucc(n, k, ChannelOf(c, p));
    }
  }

  lemma MulSucc(n: int, k: int, v: int)
    ensures n * k * v == n * (k - 1) * v + n * v
  {
    var a := n * (k - 1);
    assert n * k == a + n;
    assert (a + n) * v == a * v + n * v;
  }

  /** Averaging a single colour gives that colour's channel back. */
  lemma UniformAverage(b: Bitmap, c: Channel, p: int, x: int, y: int, radius: int, step: int)
    requires BitmapShaped(b) && b.width >= 1 && b.height >= 1 && radius >= 0 && step >= 1
    requires forall i :: 0 <= i < |b.pixels| ==> b.pixels[i] == p
    ensures Average(b, c, x, y, radius, step) == ChannelOf(c, p)
  {
    var n := Taps(radius, step);
    UniformBoxSum(b, c, p, x, y, radius, step, n);
    DivModUnique(n * n * ChannelOf(c, p), n * n, ChannelOf(c, p), 0);
  }


  /** Around any point of a bitmap of one colour the box colour is that colour, made opaque. */
  lemma UniformBoxColor(b: Bitmap, p: int, x: int, y: int, radius: int, step: int)
    requires BitmapShaped(b) && b.width >= 1 && b.height >= 1 && radius >= 0 && step >= 1
    requires forall i :: 0 <= i < |b.pixels| ==> b.pixels[i] == p
    ensures BoxColor(b, x, y, radius, step) == Rgb(Red(p), Green(p), Blue(p))
  {
    UniformAverage(b, RedChannel, p, x, y, radius, step);
    UniformAverage(b, GreenChannel, p, x, y, radius, step);
    UniformAverage(b, BlueChannel, p, x, y, radius, step);
  }

  /** A box of radius 0 holds only the pixel itself. */
  lemma SinglePointAverage(b: Bitmap, c: Channel, x: int, y: int)
    requires InGrid(b.width, b.height, x, y)
    ensures Average(b, c, x, y, 0, 1) == ChannelOf(c, PixelAt(b, x, y))
  {
    var n := Taps(0, 1);
    assert n == 1;
    SinglePointBoxSum(b, c, x, y);
  }

  lemma SinglePointBoxSum(b: Bitmap, c: Channel, x: int, y: int)
    requires InGrid(b.width, b.height, x, y)
    ensures BoxSum(b, c, x, y, 0, 1, 1) == ChannelOf(c, PixelAt(b, x, y))
  {
    var n := Taps(0, 1);
    assert n == 1;
    assert BoxSum(b, c, x, y, 0, 1, n) == BoxSum(b, c, x, y, 0, 1, 0) + RowSum(b, c, x, y, 0, 1, Offset(0, 1, 0), n);
    assert Offset(0, 1, 0) == 0;
    SinglePointRowSum(b, c, x, y);
  }

  lemma SinglePointRowSum(b: Bitmap, c: Channel, x: int, y: int)
    requires InGrid(b.width, b.height, x, y)
    ensures RowSum(b, c, x, y, 0, 1, 0, 1) == ChannelOf(c, PixelAt(b, x, y))
  {
    var k: nat := 1;
    var dx := Offset(0, 1, 0);
    assert dx == 0;
    assert RowSum(b, c, x, y, 0, 1, 0, k) == RowSum(b, c, x, y, 0, 1, 0, 0) + Sample(b, c, x, y, dx, 0);
    assert Clamp(x + dx, 0, b.width - 1) == x && Clamp(y + 0, 0, b.height - 1) == y;
  }
}
