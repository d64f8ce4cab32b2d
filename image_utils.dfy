// ImageUtils (image_utils.cpp): geometry and painting on RGBA frames.
// resize, crop and the three rotations build a fresh frame and are stated
// pixel by pixel with Build. flipH and flipV swap bytes in a copy of the
// source; copyRegion, fill and fillRect paint into an existing buffer. Those
// five are methods over arrays, proved against the functions FlippedH,
// FlippedV, CopiedRegion, Filled and FilledRect.
module ImageUtils {
  import opened Common

  // ---------------------------------------------------------------------
  // resize: nearest neighbour
  // ---------------------------------------------------------------------

  /**
   * The source coordinate read for output coordinate x: x times the float
   * scale srcSize / newSize, truncated, and capped at the last source index.
   */
  function SourceCoord(x: int, srcSize: int, newSize: int): int
    requires newSize > 0
  {
    Min(Trunc(x as real * (srcSize as real / newSize as real)), srcSize - 1)
  }

  function Resized(src: Frame, newWidth: int, newHeight: int): (r: Frame)
    requires newWidth >= 0 && newHeight >= 0
    ensures Shaped(r) && r.width == newWidth && r.height == newHeight
  {
    Build(newWidth, newHeight, (x, y, c) =>
      if newWidth > 0 && newHeight > 0
      then At(src, SourceCoord(x, src.width, newWidth), SourceCoord(y, src.height, newHeight), c)
      else 0)
  }

  /**
   * resize as a whole. data.resize(newWidth * newHeight * 4) comes before
   * any loop: a negative product is a huge size_t and throws
   * std::length_error (None). A negative side with a product of at least 0
   * runs no loop and keeps its size and zeroed bytes.
   */
  function Resize(src: Frame, newWidth: int, newHeight: int): (r: Option<Frame>)
    ensures r.None? <==> newWidth * newHeight < 0
    ensures r.Some? ==>
      r.value.width == newWidth && r.value.height == newHeight && |r.value.data| == newWidth * newHeight * 4
    ensures newWidth >= 0 && newHeight >= 0 ==> r == Some(Resized(src, newWidth, newHeight))
    ensures r.Some? && (newWidth < 0 || newHeight < 0) ==> forall i :: 0 <= i < |r.value.data| ==> r.value.data[i] == 0
  {
    if newWidth * newHeight < 0 then None
    else if newWidth >= 0 && newHeight >= 0 then Some(Resized(src, newWidth, newHeight))
    else Some(Unpainted(newWidth, newHeight))
  }

  /**
   * The frame a size with a negative side gets: its loops do not run, so it
   * keeps the w * h * 4 zero bytes of data.resize.
   */
  function Unpainted(w: int, h: int): (r: Frame)
    requires w * h >= 0
    ensures r.width == w && r.height == h && |r.data| == w * h * 4
    ensures forall i :: 0 <= i < |r.data| ==> r.data[i] == 0
  {
    MulNonneg(w * h, 4);
    Frame(w, h, seq(w * h * 4, i => 0))
  }

  /** Truncating an exact quotient of naturals is integer division. */
  lemma {:induction false} TruncQuotient(a: int, n: int)
    requires a >= 0 && n > 0
    ensures Trunc(a as real / n as real) == a / n
  {
    var q, r := a / n, a % n;
    var x := a as real / n as real;
    assert x * n as real == a as real;
    assert q as real * n as real <= a as real < (q + 1) as real * n as real;
    assert q as real <= x < (q + 1) as real;
  }

  /**
   * For an output coordinate inside the new size, the scaled coordinate is
   * the integer quotient x * srcSize / newSize and already lies inside the
   * source, so the cap never applies to exact arithmetic.
   */
  lemma {:induction false} SourceCoordFloor(x: int, srcSize: int, newSize: int)
    requires 0 <= x < newSize && srcSize >= 1
    ensures SourceCoord(x, srcSize, newSize) == x * srcSize / newSize
    ensures 0 <= x * srcSize / newSize < srcSize
  {
    ScaleExact(x, srcSize, newSize);
    TruncQuotient(x * srcSize, newSize);
    QuotientBelow(x, srcSize, newSize);
  }

  lemma ScaleExact(x: int, srcSize: int, newSize: int)
    requires newSize > 0
    ensures x as real * (srcSize as real / newSize as real) == (x * srcSize) as real / newSize as real
  {
  }

  lemma {:induction false} QuotientBelow(x: int, srcSize: int, newSize: int)
    requires 0 <= x < newSize && srcSize >= 1
    ensures 0 <= x * srcSize / newSize < srcSize
  {
    var p := x * srcSize;
    IntMulLe(0, x, srcSize);
    IntMulLe(x + 1, newSize, srcSize);
    assert (x + 1) * srcSize == p + srcSize;
    var q := p / newSize;
    assert p == q * newSize + p % newSize;
    IntMulLe(srcSize, q, newSize);
    assert srcSize * newSize == newSize * srcSize;
  }

  /** Each output pixel copies the source pixel at (x * w / newWidth, y * h / newHeight). */
  lemma {:induction false} ResizePixel(src: Frame, newWidth: int, newHeight: int, x: int, y: int, c: int)
    requires Shaped(src) && src.width >= 1 && src.height >= 1
    requires InGrid(newWidth, newHeight, x, y) && 0 <= c < 4
    ensures InGrid(src.width, src.height, x * src.width / newWidth, y * src.height / newHeight)
    ensures At(Resized(src, newWidth, newHeight), x, y, c)
         == At(src, x * src.width / newWidth, y * src.height / newHeight, c)
  {
    SourceCoordFloor(x, src.width, newWidth);
    SourceCoordFloor(y, src.height, newHeight);
  }

  /** Resizing to the frame's own size gives the frame back. */
  lemma {:induction false} ResizeSameSize(src: Frame)
    requires Shaped(src)
    ensures Resized(src, src.width, src.height) == src
  {
    var r := Resized(src, src.width, src.height);
    forall x, y, c | InGrid(src.width, src.height, x, y) && 0 <= c < 4
      ensures At(r, x, y, c) == At(src, x, y, c)
    {
      ResizePixel(src, src.width, src.height, x, y, c);
      DivModUnique(x * src.width, src.width, x, 0);
      DivModUnique(y * src.height, src.height, y, 0);
    }
    FrameExt(r, src);
  }

  // ---------------------------------------------------------------------
  // crop
  // ---------------------------------------------------------------------

  /** Pixel (dx, dy) of the crop is source pixel (x + dx, y + dy), or 0 where that is outside. */
  function Cropped(src: Frame, x: int, y: int, width: int, height: int): (r: Frame)
    requires width >= 0 && height >= 0
    ensures Shaped(r) && r.width == width && r.height == height
  {
    Build(width, height, (dx, dy, c) => At(src, x + dx, y + dy, c))
  }

  /**
   * crop as a whole: like resize, data.resize(width * height * 4) throws on
   * a negative product (None), and a negative side otherwise leaves the
   * zeroed bytes.
   */
  function Crop(src: Frame, x: int, y: int, width: int, height: int): (r: Option<Frame>)
    ensures r.None? <==> width * height < 0
    ensures r.Some? ==> r.value.width == width && r.value.height == height && |r.value.data| == width * height * 4
    ensures width >= 0 && height >= 0 ==> r == Some(Cropped(src, x, y, width, height))
    ensures r.Some? && (width < 0 || height < 0) ==> forall i :: 0 <= i < |r.value.data| ==> r.value.data[i] == 0
  {
    if width * height < 0 then None
    else if width >= 0 && height >= 0 then Some(Cropped(src, x, y, width, height))
    else Some(Unpainted(width, height))
  }

  /** The crop copies the in-bounds source bytes and leaves every other byte 0. */
  lemma {:induction false} CropPixel(src: Frame, x: int, y: int, width: int, height: int, dx: int, dy: int, c: int)
    requires Shaped(src) && width >= 0 && height >= 0
    requires InGrid(width, height, dx, dy) && 0 <= c < 4
    ensures InGrid(src.width, src.height, x + dx, y + dy) ==>
      0 <= Idx(src.width, x + dx, y + dy, c) < |src.data| &&
      At(Cropped(src, x, y, width, height), dx, dy, c) == src.data[Idx(src.width, x + dx, y + dy, c)]
    ensures !InGrid(src.width, src.height, x + dx, y + dy) ==> At(Cropped(src, x, y, width, height), dx, dy, c) == 0
  {
    var r := Cropped(src, x, y, width, height);
    assert At(r, dx, dy, c) == At(src, x + dx, y + dy, c);
    if InGrid(src.width, src.height, x + dx, y + dy) {
      IdxCompose(src.width, src.height, x + dx, y + dy, c);
    }
  }

  /** Cropping the whole frame gives it back. */
  lemma {:induction false} CropWhole(src: Frame)
    requires Shaped(src)
    ensures Cropped(src, 0, 0, src.width, src.height) == src
  {
    FrameExt(Cropped(src, 0, 0, src.width, src.height), src);
  }

  /** A crop of a crop that stays inside the first window is one crop at the summed offset. */
  lemma {:induction false} CropOfCrop(src: Frame, x1: int, y1: int, w1: int, h1: int, x2: int, y2: int, w2: int, h2: int)
    requires w1 >= 0 && h1 >= 0 && w2 >= 0 && h2 >= 0
    requires 0 <= x2 && x2 + w2 <= w1 && 0 <= y2 && y2 + h2 <= h1
    ensures Cropped(Cropped(src, x1, y1, w1, h1), x2, y2, w2, h2) == Cropped(src, x1 + x2, y1 + y2, w2, h2)
  {
    FrameExt(Cropped(Cropped(src, x1, y1, w1, h1), x2, y2, w2, h2), Cropped(src, x1 + x2, y1 + y2, w2, h2));
  }

  // ---------------------------------------------------------------------
  // rotate90 / rotate180 / rotate270
  // ---------------------------------------------------------------------

  /** Clockwise quarter turn: the result is h wide and w high. */
  function Rotated90(src: Frame): (r: Frame)
    requires src.width >= 0 && src.height >= 0
    ensures Shaped(r) && r.width == src.height && r.height == src.width
  {
    Build(src.height, src.width, (x, y, c) => At(src, y, src.height - 1 - x, c))
  }

  function Rotated180(src: Frame): (r: Frame)
    requires src.width >= 0 && src.height >= 0
    ensures Shaped(r) && r.width == src.width && r.height == src.height
  {
    Build(src.width, src.height, (x, y, c) => At(src, src.width - 1 - x, src.height - 1 - y, c))
  }

  /** Counter-clockwise quarter turn: the result is h wide and w high. */
  function Rotated270(src: Frame): (r: Frame)
    requires src.width >= 0 && src.height >= 0
    ensures Shaped(r) && r.width == src.height && r.height == src.width
  {
    Build(src.height, src.width, (x, y, c) => At(src, src.width - 1 - y, x, c))
  }

  /** Where each rotation sends source pixel (x, y), as the loops write it. */
  lemma {:induction false} RotationsSend(src: Frame, x: int, y: int, c: int)
    requires Shaped(src) && InGrid(src.width, src.height, x, y) && 0 <= c < 4
    ensures At(Rotated90(src), src.height - 1 - y, x, c) == At(src, x, y, c)
    ensures At(Rotated180(src), src.width - 1 - x, src.height - 1 - y, c) == At(src, x, y, c)
    ensures At(Rotated270(src), y, src.width - 1 - x, c) == At(src, x, y, c)
  {
  }

  lemma {:induction false} Rotate270Undoes90(src: Frame)
    requires Shaped(src)
    ensures Rotated270(Rotated90(src)) == src
  {
    FrameExt(Rotated270(Rotated90(src)), src);
  }

  lemma {:induction false} Rotate90Undoes270(src: Frame)
    requires Shaped(src)
    ensures Rotated90(Rotated270(src)) == src
  {
    FrameExt(Rotated90(Rotated270(src)), src);
  }

  lemma {:induction false} Rotate90Twice(src: Frame)
    requires Shaped(src)
    ensures Rotated90(Rotated90(src)) == Rotated180(src)
  {
    FrameExt(Rotated90(Rotated90(src)), Rotated180(src));
  }

  lemma {:induction false} Rotate180Twice(src: Frame)
    requires Shaped(src)
    ensures Rotated180(Rotated180(src)) == src
  {
    FrameExt(Rotated180(Rotated180(src)), src);
  }

  /** Four quarter turns give the frame back. */
  lemma {:induction false} Rotate90FourTimes(src: Frame)
    requires Shaped(src)
    ensures Rotated90(Rotated90(Rotated90(Rotated90(src)))) == src
  {
    Rotate90Twice(src);
    Rotate90Twice(Rotated90(Rotated90(src)));
    Rotate180Twice(src);
  }

  // ---------------------------------------------------------------------
  // flipH / flipV
  // ---------------------------------------------------------------------

  function FlippedH(src: Frame): (r: Frame)
    requires src.width >= 0 && src.height >= 0
    ensures Shaped(r) && r.width == src.width && r.height == src.height
  {
    Build(src.width, src.height, (x, y, c) => At(src, src.width - 1 - x, y, c))
  }

  function FlippedV(src: Frame): (r: Frame)
    requires src.width >= 0 && src.height >= 0
    ensures Shaped(r) && r.width == src.width && r.height == src.height
  {
    Build(src.width, src.height, (x, y, c) => At(src, x, src.height - 1 - y, c))
  }

  lemma {:induction false} FlipHTwice(src: Frame)
    requires Shaped(src)
    ensures FlippedH(FlippedH(src)) == src
  {
    FrameExt(FlippedH(FlippedH(src)), src);
  }

  lemma {:induction false} FlipVTwice(src: Frame)
    requires Shaped(src)
    ensures FlippedV(FlippedV(src)) == src
  {
    FrameExt(FlippedV(FlippedV(src)), src);
  }

  /** Flipping both ways is the half turn. */
  lemma {:induction false} FlipsMakeHalfTurn(src: Frame)
    requires Shaped(src)
    ensures FlippedV(FlippedH(src)) == Rotated180(src)
  {
    FrameExt(FlippedV(FlippedH(src)), Rotated180(src));
  }

  /** The byte that byte k trades places with in a horizontal flip. */
  function MirrorH(w: int, k: int): int
  {
    Idx(w, w - 1 - ColOf(w, k / 4), RowOf(w, k / 4), k % 4)
  }

  /** The byte that byte k trades places with in a vertical flip. */
  function MirrorV(w: int, h: int, k: int): int
  {
    Idx(w, ColOf(w, k / 4), h - 1 - RowOf(w, k / 4), k % 4)
  }

  lemma {:induction false} FlippedHBytes(src: Frame)
    requires Shaped(src)
    ensures forall k :: 0 <= k < |src.data| ==> 0 <= MirrorH(src.width, k) < |src.data|
    ensures forall k :: 0 <= k < |src.data| ==> FlippedH(src).data[k] == src.data[MirrorH(src.width, k)]
  {
    var w, h := src.width, src.height;
    forall k | 0 <= k < |src.data|
      ensures 0 <= MirrorH(w, k) < |src.data| && FlippedH(src).data[k] == src.data[MirrorH(w, k)]
    {
      IdxDecompose(w, h, k);
      var x, y, c := ColOf(w, k / 4), RowOf(w, k / 4), k % 4;
      IdxCompose(w, h, w - 1 - x, y, c);
      assert FlippedH(src).data[k] == At(src, w - 1 - x, y, c);
    }
  }

  lemma {:induction false} FlippedVBytes(src: Frame)
    requires Shaped(src)
    ensures forall k :: 0 <= k < |src.data| ==> 0 <= MirrorV(src.width, src.height, k) < |src.data|
    ensures forall k :: 0 <= k < |src.data| ==> FlippedV(src).data[k] == src.data[MirrorV(src.width, src.height, k)]
  {
    var w, h := src.width, src.height;
    forall k | 0 <= k < |src.data|
      ensures 0 <= MirrorV(w, h, k) < |src.data| && FlippedV(src).data[k] == src.data[MirrorV(w, h, k)]
    {
      IdxDecompose(w, h, k);
      var x, y, c := ColOf(w, k / 4), RowOf(w, k / 4), k % 4;
      IdxCompose(w, h, x, h - 1 - y, c);
      assert FlippedV(src).data[k] == At(src, x, h - 1 - y, c);
    }
  }

  /** Byte k has been swapped once the loops are at column x of row y. */
  predicate HDone(w: int, k: int, x: int, y: int)
  {
    RowOf(w, k / 4) < y || (RowOf(w, k / 4) == y && (ColOf(w, k / 4) < x || ColOf(w, k / 4) >= w - x))
  }

  /** Every byte's mirror byte lies inside the buffer. */
  ghost predicate MirrorInside(s: seq<int>, w: int)
  {
    forall k :: 0 <= k < |s| ==> 0 <= MirrorH(w, k) < |s|
  }

  /** a is s with the rows above y mirrored. */
  ghost predicate RowsFlipped(a: seq<int>, s: seq<int>, w: int, y: int)
  {
    |a| == |s| && MirrorInside(s, w)
    && forall k :: 0 <= k < |a| ==> a[k] == if RowOf(w, k / 4) < y then s[MirrorH(w, k)] else s[k]
  }

  /** a is s with the rows above y and the outer x pixel pairs of row y mirrored. */
  ghost predicate PairsFlipped(a: seq<int>, s: seq<int>, w: int, x: int, y: int)
  {
    |a| == |s| && MirrorInside(s, w)
    && forall k :: 0 <= k < |a| ==> a[k] == if HDone(w, k, x, y) then s[MirrorH(w, k)] else s[k]
  }

  /** flipH: a copy of the source whose pixel pairs (x, y), (w-1-x, y) are swapped. */
  method FlipH(src: Frame) returns (dst: Frame)
    requires Shaped(src)
    ensures dst == FlippedH(src)
  {
    var w, h := src.width, src.height;
    var a := new int[|src.data|](i requires 0 <= i < |src.data| => src.data[i]);
    HNoRows(src);
    var y := 0;
    while y < h
      invariant 0 <= y <= h
      invariant RowsFlipped(a[..], src.data, w, y)
    {
      HRowStart(a[..], src.data, w, h, y);
      var x := 0;
      while x < w / 2
        invariant 0 <= x <= w / 2
        invariant PairsFlipped(a[..], src.data, w, x, y)
      {
        SwapMirrorPixels(a, w, h, x, y, src.data);
        x := x + 1;
      }
      HRowFinish(a[..], src.data, w, h, y);
      y := y + 1;
    }
    HAllRows(src, a[..]);
    dst := Frame(w, h, a[..]);
  }

  /** At the start of row y the bytes swapped so far are those of the rows above. */
  lemma {:induction false} HRowStart(a: seq<int>, s: seq<int>, w: int, h: int, y: int)
    requires |a| == |s| == w * h * 4 && 0 <= y < h
    requires RowsFlipped(a, s, w, y)
    ensures PairsFlipped(a, s, w, 0, y)
  {
    forall k | 0 <= k < |a| ensures HDone(w, k, 0, y) == (RowOf(w, k / 4) < y) {
      ByteInGrid(w, h, k);
    }
  }

  lemma ByteInGrid(w: int, h: int, k: int)
    requires h >= 0 && 0 <= k < w * h * 4
    ensures 0 <= ColOf(w, k / 4) < w && 0 <= RowOf(w, k / 4) < h
  {
    IntMulLe(w, 0, h * 4);
    assert w * h * 4 == w * (h * 4);
    IdxDecompose(w, h, k);
  }

  /** Once the columns of row y meet in the middle, the whole row is mirrored. */
  lemma {:induction false} HRowFinish(a: seq<int>, s: seq<int>, w: int, h: int, y: int)
    requires |a| == |s| == w * h * 4 && 0 <= y < h
    requires PairsFlipped(a, s, w, w / 2, y)
    ensures RowsFlipped(a, s, w, y + 1)
  {
    forall k | 0 <= k < |a| ensures a[k] == if RowOf(w, k / 4) < y + 1 then s[MirrorH(w, k)] else s[k] {
      ByteInGrid(w, h, k);
      if RowOf(w, k / 4) == y && !HDone(w, k, w / 2, y) {
        MiddleColumnFixed(w, h, k);
      }
    }
  }

  /** The middle column of an odd-width row is its own mirror image. */
  lemma MiddleColumnFixed(w: int, h: int, k: int)
    requires h >= 0 && 0 <= k < w * h * 4
    requires w / 2 <= ColOf(w, k / 4) < w - w / 2
    ensures MirrorH(w, k) == k
  {
    ByteInGrid(w, h, k);
    IdxDecompose(w, h, k);
  }

  /** Before the first row nothing is mirrored. */
  lemma {:induction false} HNoRows(src: Frame)
    requires Shaped(src)
    ensures RowsFlipped(src.data, src.data, src.width, 0)
  {
    FlippedHBytes(src);
    forall k | 0 <= k < |src.data| ensures RowOf(src.width, k / 4) >= 0 {
      ByteInGrid(src.width, src.height, k);
    }
  }

  /** After the last row every byte holds its mirror image: the buffer is the flipped frame. */
  lemma {:induction false} HAllRows(src: Frame, a: seq<int>)
    requires Shaped(src) && RowsFlipped(a, src.data, src.width, src.height)
    ensures Frame(src.width, src.height, a) == FlippedH(src)
  {
    var w, h := src.width, src.height;
    FlippedHBytes(src);
    forall k | 0 <= k < |a| ensures a[k] == FlippedH(src).data[k] {
      ByteInGrid(w, h, k);
    }
    assert a == FlippedH(src).data;
  }

  /** One step of flipH: swap the four bytes of (x, y) with those of (w-1-x, y). */
  method SwapMirrorPixels(a: array<int>, w: int, h: int, x: int, y: int, ghost s: seq<int>)
    requires a.Length == |s| == w * h * 4 && 0 <= x < w / 2 && 0 <= y < h
    requires PairsFlipped(a[..], s, w, x, y)
    modifies a
    ensures PairsFlipped(a[..], s, w, x + 1, y)
  {
    var left := (y * w + x) * 4;
    var right := (y * w + (w - 1 - x)) * 4;
    IdxCompose(w, h, x, y, 3);
    IdxCompose(w, h, w - 1 - x, y, 3);
    ghost var before := a[..];
    SwapPixels(a, left, right);
    SwappedMirror(before, a[..], w, h, x, y, left, right);
    MirrorSwapStep(before, a[..], w, h, x, y, s);
  }

  /** std::swap of each of the four bytes at i with the matching byte at j. */
  method SwapPixels(a: array<int>, i: int, j: int)
    requires 0 <= i && i + 4 <= j && j + 4 <= a.Length
    modifies a
    ensures PixelsSwapped(old(a[..]), a[..], i, j)
  {
    a[i], a[j] := a[j], a[i];
    a[i + 1], a[j + 1] := a[j + 1], a[i + 1];
    a[i + 2], a[j + 2] := a[j + 2], a[i + 2];
    a[i + 3], a[j + 3] := a[j + 3], a[i + 3];
  }

  /** after is before with the four bytes at i and the four bytes at j exchanged. */
  ghost predicate PixelsSwapped(before: seq<int>, after: seq<int>, i: int, j: int)
  {
    |after| == |before| && 0 <= i && i + 4 <= j && j + 4 <= |before|
    && forall k {:trigger after[k]} :: 0 <= k < |before| ==>
      after[k] == if i <= k < i + 4 then before[j + (k - i)] else if j <= k < j + 4 then before[i + (k - j)] else before[k]
  }

  /** Exchanging pixel (x, y) with (w-1-x, y) gives each of their bytes its mirror byte. */
  lemma {:induction false} SwappedMirror(before: seq<int>, after: seq<int>, w: int, h: int, x: int, y: int, left: int, right: int)
    requires |before| == w * h * 4 && 0 <= x < w / 2 && 0 <= y < h
    requires left == Idx(w, x, y, 0) && right == Idx(w, w - 1 - x, y, 0)
    requires PixelsSwapped(before, after, left, right)
    ensures forall k :: 0 <= k < |before| ==>
      after[k] == if PixelIs(w, k, x, y) || PixelIs(w, k, w - 1 - x, y) then before[MirrorH(w, k)] else before[k]
  {
    forall k | 0 <= k < |before|
      ensures after[k] == if PixelIs(w, k, x, y) || PixelIs(w, k, w - 1 - x, y) then before[MirrorH(w, k)] else before[k]
    {
      MirrorPair(w, h, x, y, k);
    }
  }

  /** Where byte k stands relative to the mirror pair (x, y), (w-1-x, y). */
  lemma {:induction false} MirrorPair(w: int, h: int, x: int, y: int, k: int)
    requires 0 <= k < w * h * 4 && 0 <= x < w / 2 && 0 <= y < h
    ensures PixelIs(w, k, x, y) <==> Idx(w, x, y, 0) <= k < Idx(w, x, y, 0) + 4
    ensures PixelIs(w, k, w - 1 - x, y) <==> Idx(w, w - 1 - x, y, 0) <= k < Idx(w, w - 1 - x, y, 0) + 4
    ensures PixelIs(w, k, x, y) ==> MirrorH(w, k) == Idx(w, w - 1 - x, y, 0) + (k - Idx(w, x, y, 0))
    ensures PixelIs(w, k, w - 1 - x, y) ==> MirrorH(w, k) == Idx(w, x, y, 0) + (k - Idx(w, w - 1 - x, y, 0))
  {
    PixelIndex(w, h, k, x, y);
    PixelIndex(w, h, k, w - 1 - x, y);
  }

  /** Swapping the pair at column x extends the swapped part of row y by that pair. */
  lemma {:induction false} MirrorSwapStep(before: seq<int>, after: seq<int>, w: int, h: int, x: int, y: int, s: seq<int>)
    requires |before| == |after| == |s| == w * h * 4 && 0 <= x < w / 2 && 0 <= y < h
    requires PairsFlipped(before, s, w, x, y)
    requires forall k :: 0 <= k < |s| ==>
      after[k] == if PixelIs(w, k, x, y) || PixelIs(w, k, w - 1 - x, y) then before[MirrorH(w, k)] else before[k]
    ensures PairsFlipped(after, s, w, x + 1, y)
  {
    forall k | 0 <= k < |s|
      ensures after[k] == if HDone(w, k, x + 1, y) then s[MirrorH(w, k)] else s[k]
    {
      if PixelIs(w, k, x, y) {
        IdxCompose(w, h, w - 1 - x, y, k % 4);
      } else if PixelIs(w, k, w - 1 - x, y) {
        IdxCompose(w, h, x, y, k % 4);
      }
    }
  }

  lemma MulNonneg(a: int, b: int)
    requires a >= 0 && b >= 0
    ensures a * b >= 0
  {
  }

  /** Byte i of row r, counting the row as a run of 4w bytes. */
  lemma {:induction false} RowByteIn(w: int, h: int, r: int, i: int)
    requires 0 <= r < h && 0 <= i < w * 4
    ensures ColOf(w, (r * (w * 4) + i) / 4) == i / 4 && RowOf(w, (r * (w * 4) + i) / 4) == r
    ensures (r * (w * 4) + i) % 4 == i % 4
  {
    var k := r * (w * 4) + i;
    assert k == (r * w + i / 4) * 4 + i % 4;
    DivModUnique(k, 4, r * w + i / 4, i % 4);
    CellCompose(w, h, i / 4, r);
  }

  /** Every byte sits at offset 4x + c of the run of its row. */
  lemma {:induction false} RowByteOut(w: int, h: int, k: int)
    requires w > 0 && 0 <= k < w * h * 4
    ensures k == RowOf(w, k / 4) * (w * 4) + (4 * ColOf(w, k / 4) + k % 4)
    ensures 0 <= 4 * ColOf(w, k / 4) + k % 4 < w * 4
    ensures MirrorV(w, h, k) == (h - 1 - RowOf(w, k / 4)) * (w * 4) + (4 * ColOf(w, k / 4) + k % 4)
  {
    IdxDecompose(w, h, k);
    var x, y, c := ColOf(w, k / 4), RowOf(w, k / 4), k % 4;
    assert (y * w + x) * 4 + c == y * (w * 4) + (4 * x + c);
    assert ((h - 1 - y) * w + x) * 4 + c == (h - 1 - y) * (w * 4) + (4 * x + c);
  }

  /** Byte k lies in row r exactly when it lies in that row's run of 4w bytes. */
  lemma {:induction false} RowBytes(w: int, h: int, k: int, r: int)
    requires w >= 0 && 0 <= k < w * h * 4 && 0 <= r < h
    ensures RowOf(w, k / 4) == r <==> r * (w * 4) <= k < r * (w * 4) + w * 4
    ensures RowOf(w, k / 4) == r ==> MirrorV(w, h, k) == (h - 1 - r) * (w * 4) + (k - r * (w * 4))
  {
    RowByteOut(w, h, k);
    if r * (w * 4) <= k < r * (w * 4) + w * 4 {
      RowByteIn(w, h, r, k - r * (w * 4));
    }
  }

  /** Byte k has been swapped once the loops are at byte i of row pair y. */
  predicate VDone(w: int, h: int, k: int, y: int, i: int)
  {
    RowOf(w, k / 4) < y || RowOf(w, k / 4) >= h - y
    || y * (w * 4) <= k < y * (w * 4) + i
    || (h - 1 - y) * (w * 4) <= k < (h - 1 - y) * (w * 4) + i
  }

  /** flipV: a copy of the source whose rows y and h-1-y are swapped byte by byte. */
  method FlipV(src: Frame) returns (dst: Frame)
    requires Shaped(src)
    ensures dst == FlippedV(src)
  {
    var w, h := src.width, src.height;
    var a := new int[|src.data|](i requires 0 <= i < |src.data| => src.data[i]);
    VNoRows(src);
    var rowBytes := w * 4;
    var y := 0;
    while y < h / 2
      invariant 0 <= y <= h / 2
      invariant RowPairsFlipped(a[..], src.data, w, h, y, 0)
    {
      var top := y * rowBytes;
      var bottom := (h - 1 - y) * rowBytes;
      var i := 0;
      while i < rowBytes
        invariant 0 <= i <= rowBytes
        invariant RowPairsFlipped(a[..], src.data, w, h, y, i)
      {
        SwapRowBytes(a, w, h, y, i, src.data);
        i := i + 1;
      }
      VRowFinish(a[..], src.data, w, h, y);
      y := y + 1;
    }
    VAllRows(src, a[..]);
    dst := Frame(w, h, a[..]);
  }

  /** Every byte's vertical mirror byte lies inside the buffer. */
  ghost predicate MirrorVInside(s: seq<int>, w: int, h: int)
  {
    forall k :: 0 <= k < |s| ==> 0 <= MirrorV(w, h, k) < |s|
  }

  /** a is s with the row pairs above y, and the first i bytes of pair y, swapped. */
  ghost predicate RowPairsFlipped(a: seq<int>, s: seq<int>, w: int, h: int, y: int, i: int)
  {
    |a| == |s| && MirrorVInside(s, w, h)
    && forall k :: 0 <= k < |a| ==> a[k] == if VDone(w, h, k, y, i) then s[MirrorV(w, h, k)] else s[k]
  }

  /** Before the first row pair nothing is swapped. */
  lemma {:induction false} VNoRows(src: Frame)
    requires Shaped(src)
    ensures RowPairsFlipped(src.data, src.data, src.width, src.height, 0, 0)
  {
    FlippedVBytes(src);
    forall k | 0 <= k < |src.data| ensures !VDone(src.width, src.height, k, 0, 0) {
      ByteInGrid(src.width, src.height, k);
    }
  }

  /** Finishing the bytes of row pair y moves on to pair y + 1. */
  lemma {:induction false} VRowFinish(a: seq<int>, s: seq<int>, w: int, h: int, y: int)
    requires |s| == w * h * 4 && 0 <= y < h / 2 && w >= 0
    requires RowPairsFlipped(a, s, w, h, y, w * 4)
    ensures RowPairsFlipped(a, s, w, h, y + 1, 0)
  {
    RowPairDone(w, h, y);
  }

  /** Once the row pairs meet in the middle, the buffer is the flipped frame. */
  lemma {:induction false} VAllRows(src: Frame, a: seq<int>)
    requires Shaped(src) && RowPairsFlipped(a, src.data, src.width, src.height, src.height / 2, 0)
    ensures Frame(src.width, src.height, a) == FlippedV(src)
  {
    var w, h := src.width, src.height;
    FlippedVBytes(src);
    forall k | 0 <= k < |a| ensures a[k] == FlippedV(src).data[k] {
      ByteInGrid(w, h, k);
      if !VDone(w, h, k, h / 2, 0) {
        MiddleRowFixed(w, h, k);
      }
    }
    assert a == FlippedV(src).data;
  }

  /** The middle row of an odd-height frame is its own mirror image. */
  lemma MiddleRowFixed(w: int, h: int, k: int)
    requires h >= 0 && 0 <= k < w * h * 4
    requires h / 2 <= RowOf(w, k / 4) < h - h / 2
    ensures MirrorV(w, h, k) == k
  {
    ByteInGrid(w, h, k);
    IdxDecompose(w, h, k);
  }

  /** One step of flipV: swap byte i of row y with byte i of row h-1-y. */
  method SwapRowBytes(a: array<int>, w: int, h: int, y: int, i: int, ghost s: seq<int>)
    requires a.Length == |s| == w * h * 4 && 0 <= y < h / 2 && 0 <= i < w * 4
    requires RowPairsFlipped(a[..], s, w, h, y, i)
    modifies a
    ensures RowPairsFlipped(a[..], s, w, h, y, i + 1)
  {
    var top := y * (w * 4) + i;
    var bottom := (h - 1 - y) * (w * 4) + i;
    RowPairBytes(w, h, y, i);
    ghost var before := a[..];
    a[top], a[bottom] := a[bottom], a[top];
    RowSwapStep(before, a[..], w, h, y, i, s, top, bottom);
  }

  /** Byte i of row y and byte i of row h-1-y are distinct mirror images inside the buffer. */
  lemma {:induction false} RowPairBytes(w: int, h: int, y: int, i: int)
    requires 0 <= y < h / 2 && 0 <= i < w * 4
    ensures 0 <= y * (w * 4) + i < (h - 1 - y) * (w * 4) + i < w * h * 4
    ensures y * (w * 4) + i < y * (w * 4) + w * 4 <= (h - 1 - y) * (w * 4)
    ensures MirrorV(w, h, y * (w * 4) + i) == (h - 1 - y) * (w * 4) + i
    ensures MirrorV(w, h, (h - 1 - y) * (w * 4) + i) == y * (w * 4) + i
  {
    RowMajorBound(w * 4, h, i, y);
    RowMajorBound(w * 4, h, i, h - 1 - y);
    MulNonneg(h - 2 - 2 * y, w * 4);
    assert (h - 1 - y) * (w * 4) == y * (w * 4) + w * 4 + (h - 2 - 2 * y) * (w * 4);
    RowBytes(w, h, y * (w * 4) + i, y);
    RowBytes(w, h, (h - 1 - y) * (w * 4) + i, h - 1 - y);
    assert (h - 1 - (h - 1 - y)) * (w * 4) == y * (w * 4);
  }

  lemma {:induction false} RowSwapStep(before: seq<int>, after: seq<int>, w: int, h: int, y: int, i: int, s: seq<int>,
                                       top: int, bottom: int)
    requires |before| == |after| == |s| == w * h * 4 && 0 <= y < h / 2 && 0 <= i < w * 4
    requires RowPairsFlipped(before, s, w, h, y, i)
    requires top == y * (w * 4) + i && bottom == (h - 1 - y) * (w * 4) + i
    requires 0 <= top < y * (w * 4) + w * 4 <= (h - 1 - y) * (w * 4) <= bottom < |s|
    requires MirrorV(w, h, top) == bottom && MirrorV(w, h, bottom) == top
    requires after == before[top := before[bottom]][bottom := before[top]]
    ensures RowPairsFlipped(after, s, w, h, y, i + 1)
  {
    RowBytes(w, h, top, y);
    RowBytes(w, h, bottom, h - 1 - y);
    assert !VDone(w, h, top, y, i) && !VDone(w, h, bottom, y, i);
  }

  /** At the end of a row pair the swapped part is exactly the rows outside [y + 1, h - 1 - y). */
  lemma {:induction false} RowPairDone(w: int, h: int, y: int)
    requires 0 <= y < h / 2 && w >= 0
    ensures forall k :: 0 <= k < w * h * 4 ==> (VDone(w, h, k, y, w * 4) <==> VDone(w, h, k, y + 1, 0))
  {
    forall k | 0 <= k < w * h * 4 ensures VDone(w, h, k, y, w * 4) <==> VDone(w, h, k, y + 1, 0) {
      RowBytes(w, h, k, y);
      RowBytes(w, h, k, h - 1 - y);
    }
  }

  // ---------------------------------------------------------------------
  // copyRegion
  // ---------------------------------------------------------------------

  /** Offset (x, y) of the region is copied: inside the region and inside the source. */
  predicate InRegion(src: Frame, srcX: int, srcY: int, width: int, height: int, x: int, y: int)
  {
    0 <= x < width && 0 <= y < height && InGrid(src.width, src.height, srcX + x, srcY + y)
  }

  /**
   * dst after copyRegion: destination pixel (X, Y) takes source pixel
   * (srcX + X - dstX, srcY + Y - dstY) when that offset is in the region and
   * the source pixel exists; every other byte keeps its value.
   */
  function CopiedRegion(src: Frame, dst: Frame, srcX: int, srcY: int, dstX: int, dstY: int, width: int, height: int): (r: Frame)
    requires dst.width >= 0 && dst.height >= 0
    ensures Shaped(r) && r.width == dst.width && r.height == dst.height
  {
    Build(dst.width, dst.height, (x, y, c) =>
      if InRegion(src, srcX, srcY, width, height, x - dstX, y - dstY)
      then At(src, srcX + x - dstX, srcY + y - dstY, c)
      else At(dst, x, y, c))
  }

  /** Copying a whole frame onto one of the same size at the origin gives the source. */
  lemma {:induction false} CopyWholeFrame(src: Frame, dst: Frame)
    requires Shaped(src) && Shaped(dst) && src.width == dst.width && src.height == dst.height
    ensures CopiedRegion(src, dst, 0, 0, 0, 0, src.width, src.height) == src
  {
    FrameExt(CopiedRegion(src, dst, 0, 0, 0, 0, src.width, src.height), src);
  }

  /** An empty region changes nothing. */
  lemma {:induction false} CopyEmptyRegion(src: Frame, dst: Frame, srcX: int, srcY: int, dstX: int, dstY: int, width: int, height: int)
    requires Shaped(dst) && (width <= 0 || height <= 0)
    ensures CopiedRegion(src, dst, srcX, srcY, dstX, dstY, width, height) == dst
  {
    FrameExt(CopiedRegion(src, dst, srcX, srcY, dstX, dstY, width, height), dst);
  }

  /** Byte k of the destination has been copied once the loops are at offset (x, y). */
  predicate CopyDone(src: Frame, srcX: int, srcY: int, dstX: int, dstY: int, width: int, height: int,
                     dw: int, k: int, x: int, y: int)
  {
    var ox, oy := ColOf(dw, k / 4) - dstX, RowOf(dw, k / 4) - dstY;
    InRegion(src, srcX, srcY, width, height, ox, oy) && (oy < y || (oy == y && ox < x))
  }

  lemma {:induction false} CopiedRegionBytes(src: Frame, dst: Frame, srcX: int, srcY: int, dstX: int, dstY: int, width: int, height: int)
    requires Shaped(dst)
    ensures forall k :: 0 <= k < |dst.data| ==>
      CopiedRegion(src, dst, srcX, srcY, dstX, dstY, width, height).data[k]
      == if InRegion(src, srcX, srcY, width, height, ColOf(dst.width, k / 4) - dstX, RowOf(dst.width, k / 4) - dstY)
         then At(src, srcX + ColOf(dst.width, k / 4) - dstX, srcY + RowOf(dst.width, k / 4) - dstY, k % 4)
         else dst.data[k]
  {
    forall k | 0 <= k < |dst.data| {
      IdxDecompose(dst.width, dst.height, k);
    }
  }

  /** copyRegion: paint the region of src onto the dw x dh frame held in dst. */
  method CopyRegion(src: Frame, dst: array<int>, dw: int, dh: int,
                    srcX: int, srcY: int, dstX: int, dstY: int, width: int, height: int)
    requires Shaped(src) && dw >= 0 && dh >= 0 && dst.Length == dw * dh * 4
    modifies dst
    ensures dst[..] == CopiedRegion(src, Frame(dw, dh, old(dst[..])), srcX, srcY, dstX, dstY, width, height).data
  {
    ghost var d0 := dst[..];
    ghost var g := CopyGeometry(src, srcX, srcY, dstX, dstY, width, height, dw, dh);
    var y := 0;
    while y < height
      invariant (0 <= y <= height) || y == 0
      invariant CopiedUpTo(dst[..], d0, g, 0, y)
    {
      var sy := srcY + y;
      var dy := dstY + y;
      if sy < 0 || sy >= src.height || dy < 0 || dy >= dh {
        CopySkipRow(dst[..], d0, g, y);
        y := y + 1;
        continue;
      }
      var x := 0;
      while x < width
        invariant (0 <= x <= width) || x == 0
        invariant CopiedUpTo(dst[..], d0, g, x, y)
      {
        var sx := srcX + x;
        var dx := dstX + x;
        if sx < 0 || sx >= src.width || dx < 0 || dx >= dw {
          CopySkipPixel(dst[..], d0, g, x, y);
          x := x + 1;
          continue;
        }
        var srcIdx := (sy * src.width + sx) * 4;
        SourcePixelBytes(src, sx, sy);
        ghost var before := dst[..];
        PaintPixel(dst, dw, dh, dx, dy, src.data[srcIdx], src.data[srcIdx + 1], src.data[srcIdx + 2], src.data[srcIdx + 3]);
        CopyPixelStep(before, dst[..], d0, g, x, y);
        x := x + 1;
      }
      CopyRowDone(dst[..], d0, g, x, y);
      y := y + 1;
    }
    CopyAllRows(dst[..], d0, g, y);
  }

  /** The fixed arguments of one copyRegion call. */
  datatype CopyGeometry = CopyGeometry(src: Frame, srcX: int, srcY: int, dstX: int, dstY: int,
                                       width: int, height: int, dw: int, dh: int)

  /** Byte k of the destination has been copied once the loops are at offset (x, y). */
  predicate CopiedByte(g: CopyGeometry, k: int, x: int, y: int)
  {
    CopyDone(g.src, g.srcX, g.srcY, g.dstX, g.dstY, g.width, g.height, g.dw, k, x, y)
  }

  /** The value byte k of the destination takes from the source. */
  function CopiedValue(g: CopyGeometry, k: int): int
  {
    At(g.src, g.srcX + ColOf(g.dw, k / 4) - g.dstX, g.srcY + RowOf(g.dw, k / 4) - g.dstY, k % 4)
  }

  /** a is d0 with the bytes copied so far taken from the source. */
  predicate CopiedUpTo(a: seq<int>, d0: seq<int>, g: CopyGeometry, x: int, y: int)
  {
    |a| == |d0| == g.dw * g.dh * 4 && g.dw >= 0 && g.dh >= 0
    && forall k :: 0 <= k < |a| ==> a[k] == if CopiedByte(g, k, x, y) then CopiedValue(g, k) else d0[k]
  }

  /** A row whose source or destination row lies outside its frame copies nothing. */
  lemma {:induction false} CopySkipRow(a: seq<int>, d0: seq<int>, g: CopyGeometry, y: int)
    requires CopiedUpTo(a, d0, g, 0, y)
    requires g.srcY + y < 0 || g.srcY + y >= g.src.height || g.dstY + y < 0 || g.dstY + y >= g.dh
    ensures CopiedUpTo(a, d0, g, 0, y + 1)
  {
    forall k | 0 <= k < |a| ensures CopiedByte(g, k, 0, y) == CopiedByte(g, k, 0, y + 1) {
      ByteInGrid(g.dw, g.dh, k);
    }
  }

  /** A pixel whose source or destination lies outside its frame copies nothing. */
  lemma {:induction false} CopySkipPixel(a: seq<int>, d0: seq<int>, g: CopyGeometry, x: int, y: int)
    requires CopiedUpTo(a, d0, g, x, y)
    requires g.srcX + x < 0 || g.srcX + x >= g.src.width || g.dstX + x < 0 || g.dstX + x >= g.dw
    ensures CopiedUpTo(a, d0, g, x + 1, y)
  {
    forall k | 0 <= k < |a| ensures CopiedByte(g, k, x, y) == CopiedByte(g, k, x + 1, y) {
      ByteInGrid(g.dw, g.dh, k);
    }
  }

  /** The bytes of source pixel (sx, sy) are the four starting at its row-major index. */
  lemma {:induction false} SourcePixelBytes(src: Frame, sx: int, sy: int)
    requires Shaped(src) && InGrid(src.width, src.height, sx, sy)
    ensures 0 <= (sy * src.width + sx) * 4 && (sy * src.width + sx) * 4 + 3 < |src.data|
    ensures forall c :: 0 <= c < 4 ==> At(src, sx, sy, c) == src.data[(sy * src.width + sx) * 4 + c]
  {
    IdxCompose(src.width, src.height, sx, sy, 3);
    forall c | 0 <= c < 4 ensures At(src, sx, sy, c) == src.data[(sy * src.width + sx) * 4 + c] {
      IdxCompose(src.width, src.height, sx, sy, c);
    }
  }

  /** Painting destination pixel (dstX + x, dstY + y) with source pixel (srcX + x, srcY + y) copies offset (x, y). */
  lemma {:induction false} CopyPixelStep(before: seq<int>, after: seq<int>, d0: seq<int>, g: CopyGeometry, x: int, y: int)
    requires CopiedUpTo(before, d0, g, x, y) && Shaped(g.src)
    requires 0 <= x < g.width && 0 <= y < g.height
    requires InGrid(g.src.width, g.src.height, g.srcX + x, g.srcY + y) && InGrid(g.dw, g.dh, g.dstX + x, g.dstY + y)
    requires |after| == |before|
    requires forall k :: 0 <= k < |after| ==>
      after[k] == if PixelIs(g.dw, k, g.dstX + x, g.dstY + y)
        then Channel(k % 4, At(g.src, g.srcX + x, g.srcY + y, 0), At(g.src, g.srcX + x, g.srcY + y, 1),
                     At(g.src, g.srcX + x, g.srcY + y, 2), At(g.src, g.srcX + x, g.srcY + y, 3))
        else before[k]
    ensures CopiedUpTo(after, d0, g, x + 1, y)
  {
    forall k | 0 <= k < |after|
      ensures after[k] == if CopiedByte(g, k, x + 1, y) then CopiedValue(g, k) else d0[k]
    {
      assert 0 <= k % 4 < 4;
    }
  }

  /** After the last offset of row y the copied part is every row up to y. */
  lemma {:induction false} CopyRowDone(a: seq<int>, d0: seq<int>, g: CopyGeometry, x: int, y: int)
    requires CopiedUpTo(a, d0, g, x, y) && (x >= g.width || (x == 0 && g.width <= 0))
    ensures CopiedUpTo(a, d0, g, 0, y + 1)
  {
  }

  /** After the last row the destination is the copied frame. */
  lemma {:induction false} CopyAllRows(a: seq<int>, d0: seq<int>, g: CopyGeometry, y: int)
    requires CopiedUpTo(a, d0, g, 0, y) && (y >= g.height || (y == 0 && g.height <= 0))
    ensures a == CopiedRegion(g.src, Frame(g.dw, g.dh, d0), g.srcX, g.srcY, g.dstX, g.dstY, g.width, g.height).data
  {
    var r := CopiedRegion(g.src, Frame(g.dw, g.dh, d0), g.srcX, g.srcY, g.dstX, g.dstY, g.width, g.height);
    CopiedRegionBytes(g.src, Frame(g.dw, g.dh, d0), g.srcX, g.srcY, g.dstX, g.dstY, g.width, g.height);
    forall k | 0 <= k < |a| ensures a[k] == r.data[k] {
    }
  }

  // ---------------------------------------------------------------------
  // fill / fillRect
  // ---------------------------------------------------------------------

  /** Channel c of the colour (r, g, b, a). */
  function Channel(c: int, r: int, g: int, b: int, a: int): int
  {
    if c == 0 then r else if c == 1 then g else if c == 2 then b else a
  }

  /** Write the colour into the four bytes of pixel (x, y); nothing else changes. */
  method PaintPixel(data: array<int>, w: int, h: int, x: int, y: int, r: int, g: int, b: int, a: int)
    requires data.Length == w * h * 4 && InGrid(w, h, x, y)
    modifies data
    ensures forall k :: 0 <= k < data.Length ==>
      data[k] == if PixelIs(w, k, x, y) then Channel(k % 4, r, g, b, a) else old(data[k])
  {
    var idx := (y * w + x) * 4;
    IdxCompose(w, h, x, y, 3);
    data[idx] := r;
    data[idx + 1] := g;
    data[idx + 2] := b;
    data[idx + 3] := a;
    forall k | 0 <= k < data.Length
      ensures data[k] == if PixelIs(w, k, x, y) then Channel(k % 4, r, g, b, a) else old(data[k])
    {
      PixelIndex(w, h, k, x, y);
    }
  }

  /** A buffer of n bytes holding the colour in every pixel. */
  function Filled(n: int, r: int, g: int, b: int, a: int): (s: seq<int>)
    requires n >= 0
    ensures |s| == n
  {
    seq(n, k => Channel(k % 4, r, g, b, a))
  }

  /** fill: every pixel of the buffer becomes (r, g, b, a). */
  method Fill(data: array<int>, r: int, g: int, b: int, a: int)
    requires data.Length % 4 == 0
    modifies data
    ensures data[..] == Filled(data.Length, r, g, b, a)
  {
    var i := 0;
    while i < data.Length
      invariant 0 <= i <= data.Length && i % 4 == 0
      invariant forall k :: 0 <= k < i ==> data[k] == Channel(k % 4, r, g, b, a)
    {
      data[i] := r;
      data[i + 1] := g;
      data[i + 2] := b;
      data[i + 3] := a;
      i := i + 4;
    }
  }

  /** Pixel (X, Y) lies in the rectangle of fillRect. */
  predicate InRect(x: int, y: int, width: int, height: int, px: int, py: int)
  {
    x <= px < x + width && y <= py < y + height
  }

  /** The frame after fillRect: the colour inside rectangle and frame, the old bytes elsewhere. */
  function FilledRect(f: Frame, x: int, y: int, width: int, height: int, r: int, g: int, b: int, a: int): (res: Frame)
    requires f.width >= 0 && f.height >= 0
    ensures Shaped(res) && res.width == f.width && res.height == f.height
  {
    Build(f.width, f.height, (px, py, c) =>
      if InRect(x, y, width, height, px, py) then Channel(c, r, g, b, a) else At(f, px, py, c))
  }

  /** A rectangle covering the frame is the same as fill. */
  lemma {:induction false} FillRectWholeIsFill(f: Frame, r: int, g: int, b: int, a: int)
    requires Shaped(f)
    ensures FilledRect(f, 0, 0, f.width, f.height, r, g, b, a).data == Filled(|f.data|, r, g, b, a)
  {
    var res := FilledRect(f, 0, 0, f.width, f.height, r, g, b, a);
    AllInGrid(f.width, f.height);
    assert forall k :: 0 <= k < |f.data| ==> res.data[k] == Filled(|f.data|, r, g, b, a)[k];
  }

  /** An empty rectangle, or one that misses the frame, changes nothing. */
  lemma {:induction false} FillRectOutsideFrame(f: Frame, x: int, y: int, width: int, height: int, r: int, g: int, b: int, a: int)
    requires Shaped(f)
    requires width <= 0 || height <= 0 || x >= f.width || y >= f.height || x + width <= 0 || y + height <= 0
    ensures FilledRect(f, x, y, width, height, r, g, b, a) == f
  {
    FrameExt(FilledRect(f, x, y, width, height, r, g, b, a), f);
  }

  lemma {:induction false} FilledRectBytes(f: Frame, x: int, y: int, width: int, height: int, r: int, g: int, b: int, a: int)
    requires Shaped(f)
    ensures forall k :: 0 <= k < |f.data| ==>
      FilledRect(f, x, y, width, height, r, g, b, a).data[k]
      == if InRect(x, y, width, height, ColOf(f.width, k / 4), RowOf(f.width, k / 4))
         then Channel(k % 4, r, g, b, a) else f.data[k]
  {
    forall k | 0 <= k < |f.data| {
      IdxDecompose(f.width, f.height, k);
    }
  }

  /** Byte k has been painted once the loops are at offset (dx, dy). */
  predicate RectDone(x: int, y: int, width: int, height: int, w: int, k: int, dx: int, dy: int)
  {
    var ox, oy := ColOf(w, k / 4) - x, RowOf(w, k / 4) - y;
    InRect(x, y, width, height, ColOf(w, k / 4), RowOf(w, k / 4)) && (oy < dy || (oy == dy && ox < dx))
  }

  /** fillRect: paint the rectangle, clipped to the fw x fh frame held in data. */
  method FillRect(data: array<int>, fw: int, fh: int, x: int, y: int, width: int, height: int,
                  r: int, g: int, b: int, a: int)
    requires fw >= 0 && fh >= 0 && data.Length == fw * fh * 4
    modifies data
    ensures data[..] == FilledRect(Frame(fw, fh, old(data[..])), x, y, width, height, r, g, b, a).data
  {
    ghost var d0 := data[..];
    AllInGrid(fw, fh);
    var dy := 0;
    while dy < height
      invariant (0 <= dy <= height) || dy == 0
      invariant forall k :: 0 <= k < data.Length ==>
        data[k] == (if RectDone(x, y, width, height, fw, k, 0, dy) then Channel(k % 4, r, g, b, a) else d0[k])
    {
      var py := y + dy;
      if py < 0 || py >= fh {
        dy := dy + 1;
        continue;
      }
      var dx := 0;
      while dx < width
        invariant (0 <= dx <= width) || dx == 0
        invariant forall k :: 0 <= k < data.Length ==>
          data[k] == (if RectDone(x, y, width, height, fw, k, dx, dy) then Channel(k % 4, r, g, b, a) else d0[k])
      {
        var px := x + dx;
        if px < 0 || px >= fw {
          dx := dx + 1;
          continue;
        }
        PaintPixel(data, fw, fh, px, py, r, g, b, a);
        dx := dx + 1;
      }
      dy := dy + 1;
    }
    FilledRectBytes(Frame(fw, fh, d0), x, y, width, height, r, g, b, a);
  }
}
