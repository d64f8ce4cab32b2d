// FrameBuffer (frame_buffer.cpp): the engine's RGBA working buffer and the
// per-frame geometry, colour-space conversion and blending it offers.
// crop, rotate and the flips build a new frame with loops and are proved
// equal to frame functions; rgbaToYuv420, yuv420ToRgba, blend and composite
// write into caller buffers and are proved against byte-level functions.
module FrameBuffer {
  import opened Common
  import ImageUtils

  // ---------------------------------------------------------------------
  // rotate
  // ---------------------------------------------------------------------

  /** Only the quarter turns swap width and height. */
  predicate SwapsDims(degrees: int) { degrees == 90 || degrees == 270 }

  function RotWidth(src: Frame, degrees: int): int
  {
    if SwapsDims(degrees) then src.height else src.width
  }

  function RotHeight(src: Frame, degrees: int): int
  {
    if SwapsDims(degrees) then src.width else src.height
  }

  /** The source column whose pixel the loops place at (X, Y) of the result. */
  function RotSrcX(degrees: int, w: int, h: int, X: int, Y: int): int
  {
    if degrees == 90 then Y
    else if degrees == 180 then w - 1 - X
    else if degrees == 270 then w - 1 - Y
    else X
  }

  /** The source row whose pixel the loops place at (X, Y) of the result. */
  function RotSrcY(degrees: int, w: int, h: int, X: int, Y: int): int
  {
    if degrees == 90 then h - 1 - X
    else if degrees == 180 then h - 1 - Y
    else if degrees == 270 then X
    else Y
  }

  /** The frame rotate returns for the given angle. */
  function Rotated(src: Frame, degrees: int): (r: Frame)
    requires src.width >= 0 && src.height >= 0
    ensures Shaped(r)
    ensures SwapsDims(degrees) ==> r.width == src.height && r.height == src.width
    ensures !SwapsDims(degrees) ==> r.width == src.width && r.height == src.height
  {
    Build(RotWidth(src, degrees), RotHeight(src, degrees), (X, Y, c) =>
      At(src, RotSrcX(degrees, src.width, src.height, X, Y), RotSrcY(degrees, src.width, src.height, X, Y), c))
  }

  /** rotate(90/180/270) agrees with ImageUtils' rotate90/rotate180/rotate270. */
  lemma {:induction false} RotateAgreesWithImageUtils(src: Frame)
    requires Shaped(src)
    ensures Rotated(src, 90) == ImageUtils.Rotated90(src)
    ensures Rotated(src, 180) == ImageUtils.Rotated180(src)
    ensures Rotated(src, 270) == ImageUtils.Rotated270(src)
  {
    FrameExt(Rotated(src, 90), ImageUtils.Rotated90(src));
    FrameExt(Rotated(src, 180), ImageUtils.Rotated180(src));
    FrameExt(Rotated(src, 270), ImageUtils.Rotated270(src));
  }

  /** Any angle other than 90, 180 and 270 gives an exact copy. */
  lemma {:induction false} RotateOtherIsCopy(src: Frame, degrees: int)
    requires Shaped(src) && degrees != 90 && degrees != 180 && degrees != 270
    ensures Rotated(src, degrees) == src
  {
    FrameExt(Rotated(src, degrees), src);
  }

  /** A full set of quarter turns in either direction gives the frame back. */
  lemma {:induction false} RotateInverse(src: Frame)
    requires Shaped(src)
    ensures Rotated(Rotated(src, 90), 270) == src
    ensures Rotated(Rotated(src, 270), 90) == src
    ensures Rotated(Rotated(src, 180), 180) == src
  {
    RotateAgreesWithImageUtils(src);
    RotateAgreesWithImageUtils(Rotated(src, 90));
    RotateAgreesWithImageUtils(Rotated(src, 270));
    RotateAgreesWithImageUtils(Rotated(src, 180));
    ImageUtils.Rotate270Undoes90(src);
    ImageUtils.Rotate90Undoes270(src);
    ImageUtils.Rotate180Twice(src);
  }

  /** Byte k of the result is written once the loops have passed its source pixel (x, y). */
  predicate RotDone(degrees: int, w: int, h: int, rw: int, k: int, x: int, y: int)
  {
    var sx := RotSrcX(degrees, w, h, ColOf(rw, k / 4), RowOf(rw, k / 4));
    var sy := RotSrcY(degrees, w, h, ColOf(rw, k / 4), RowOf(rw, k / 4));
    sy < y || (sy == y && sx < x)
  }

  /** Byte k of the result and the source pixel it comes from. */
  function RotValue(src: Frame, degrees: int, rw: int, k: int): int
  {
    At(src, RotSrcX(degrees, src.width, src.height, ColOf(rw, k / 4), RowOf(rw, k / 4)),
            RotSrcY(degrees, src.width, src.height, ColOf(rw, k / 4), RowOf(rw, k / 4)), k % 4)
  }

  /** Byte k of the result while the loops stand at source pixel (x, y): written or still 0. */
  function RotSoFar(src: Frame, degrees: int, k: int, x: int, y: int): int
  {
    var rw := RotWidth(src, degrees);
    if RotDone(degrees, src.width, src.height, rw, k, x, y) then RotValue(src, degrees, rw, k) else 0
  }

  /** a holds the rotation with the source pixels before (x, y) copied and the rest still 0. */
  ghost predicate RotatedSoFar(src: Frame, degrees: int, a: seq<int>, x: int, y: int) {
    |a| == RotWidth(src, degrees) * RotHeight(src, degrees) * 4
    && forall k :: 0 <= k < |a| ==> a[k] == RotSoFar(src, degrees, k, x, y)
  }

  /** Every pixel of the rotated grid comes from a pixel of the source grid. */
  lemma {:induction false} RotSourceInGrid(src: Frame, degrees: int, k: int)
    requires Shaped(src) && 0 <= k < RotWidth(src, degrees) * RotHeight(src, degrees) * 4
    ensures InGrid(src.width, src.height,
                   RotSrcX(degrees, src.width, src.height, ColOf(RotWidth(src, degrees), k / 4), RowOf(RotWidth(src, degrees), k / 4)),
                   RotSrcY(degrees, src.width, src.height, ColOf(RotWidth(src, degrees), k / 4), RowOf(RotWidth(src, degrees), k / 4)))
  {
    AllInGrid(RotWidth(src, degrees), RotHeight(src, degrees));
  }

  /** Copying source pixel (x, y) to the place the angle sends it marks it written. */
  lemma {:induction false} RotStep(src: Frame, degrees: int, x: int, y: int, dstX: int, dstY: int,
                                   r: int, g: int, b: int, alpha: int, before: seq<int>, after: seq<int>)
    requires Shaped(src) && InGrid(src.width, src.height, x, y)
    requires dstX == (if degrees == 90 then src.height - 1 - y else if degrees == 180 then src.width - 1 - x
                      else if degrees == 270 then y else x)
    requires dstY == (if degrees == 90 then x else if degrees == 180 then src.height - 1 - y
                      else if degrees == 270 then src.width - 1 - x else y)
    requires r == At(src, x, y, 0) && g == At(src, x, y, 1) && b == At(src, x, y, 2) && alpha == At(src, x, y, 3)
    requires RotatedSoFar(src, degrees, before, x, y) && |after| == |before|
    requires forall k :: 0 <= k < |after| ==>
      after[k] == if PixelIs(RotWidth(src, degrees), k, dstX, dstY)
                  then ImageUtils.Channel(k % 4, r, g, b, alpha) else before[k]
    ensures RotatedSoFar(src, degrees, after, x + 1, y)
  {
    var rw := RotWidth(src, degrees);
    forall k | 0 <= k < |after|
      ensures after[k] == RotSoFar(src, degrees, k, x + 1, y)
    {
      if PixelIs(rw, k, dstX, dstY) {
        assert RotValue(src, degrees, rw, k) == At(src, x, y, k % 4);
      }
    }
  }

  /** At the end of a row every pixel of that row has been copied. */
  lemma {:induction false} RotRowDone(src: Frame, degrees: int, y: int, a: seq<int>)
    requires Shaped(src) && RotatedSoFar(src, degrees, a, src.width, y)
    ensures RotatedSoFar(src, degrees, a, 0, y + 1)
  {
    forall k | 0 <= k < |a| ensures a[k] == RotSoFar(src, degrees, k, 0, y + 1) {
      RotSourceInGrid(src, degrees, k);
    }
  }

  /** After the last row the buffer holds the rotated frame. */
  lemma {:induction false} RotAllDone(src: Frame, degrees: int, a: seq<int>)
    requires Shaped(src) && RotatedSoFar(src, degrees, a, 0, src.height)
    ensures a == Rotated(src, degrees).data
  {
    forall k | 0 <= k < |a| ensures a[k] == Rotated(src, degrees).data[k] {
      RotSourceInGrid(src, degrees, k);
    }
  }

  // ---------------------------------------------------------------------
  // crop
  // ---------------------------------------------------------------------

  /** Pixel of byte k precedes (x, y) in row-major order. */
  predicate Before(w: int, k: int, x: int, y: int)
  {
    RowOf(w, k / 4) < y || (RowOf(w, k / 4) == y && ColOf(w, k / 4) < x)
  }

  /** Byte k of the crop while the loops stand at (x, y): copied or still 0. */
  function CropSoFar(src: Frame, cropX: int, cropY: int, cw: int, k: int, x: int, y: int): int
  {
    if Before(cw, k, x, y) then At(src, cropX + ColOf(cw, k / 4), cropY + RowOf(cw, k / 4), k % 4) else 0
  }

  /** Visiting (x, y) copies the source pixel if it exists; otherwise the 0 already there is right. */
  lemma {:induction false} CropStep(src: Frame, cropX: int, cropY: int, cw: int, ch: int, x: int, y: int,
                                    r: int, g: int, b: int, alpha: int, before: seq<int>, after: seq<int>)
    requires Shaped(src) && InGrid(cw, ch, x, y) && |before| == |after| == cw * ch * 4
    requires forall k :: 0 <= k < |before| ==> before[k] == CropSoFar(src, cropX, cropY, cw, k, x, y)
    requires r == At(src, cropX + x, cropY + y, 0) && g == At(src, cropX + x, cropY + y, 1)
    requires b == At(src, cropX + x, cropY + y, 2) && alpha == At(src, cropX + x, cropY + y, 3)
    requires !InGrid(src.width, src.height, cropX + x, cropY + y) ==> after == before
    requires InGrid(src.width, src.height, cropX + x, cropY + y) ==>
      forall k :: 0 <= k < |after| ==>
        after[k] == if PixelIs(cw, k, x, y)
                    then ImageUtils.Channel(k % 4, r, g, b, alpha) else before[k]
    ensures forall k :: 0 <= k < |after| ==> after[k] == CropSoFar(src, cropX, cropY, cw, k, x + 1, y)
  {
    forall k | 0 <= k < |after|
      ensures after[k] == CropSoFar(src, cropX, cropY, cw, k, x + 1, y)
    {
      if PixelIs(cw, k, x, y) {
        assert At(src, cropX + ColOf(cw, k / 4), cropY + RowOf(cw, k / 4), k % 4) == At(src, cropX + x, cropY + y, k % 4);
      }
    }
  }

  lemma {:induction false} CropRowDone(src: Frame, cropX: int, cropY: int, cw: int, ch: int, y: int, a: seq<int>)
    requires cw >= 0 && ch >= 0 && |a| == cw * ch * 4
    requires forall k :: 0 <= k < |a| ==> a[k] == CropSoFar(src, cropX, cropY, cw, k, cw, y)
    ensures forall k :: 0 <= k < |a| ==> a[k] == CropSoFar(src, cropX, cropY, cw, k, 0, y + 1)
  {
    AllInGrid(cw, ch);
  }

  lemma {:induction false} CropAllDone(src: Frame, cropX: int, cropY: int, cw: int, ch: int, a: seq<int>)
    requires cw >= 0 && ch >= 0 && |a| == cw * ch * 4
    requires forall k :: 0 <= k < |a| ==> a[k] == CropSoFar(src, cropX, cropY, cw, k, 0, ch)
    ensures a == ImageUtils.Cropped(src, cropX, cropY, cw, ch).data
  {
    AllInGrid(cw, ch);
    var r := ImageUtils.Cropped(src, cropX, cropY, cw, ch);
    forall k | 0 <= k < |a| ensures a[k] == r.data[k] {
      assert Before(cw, k, 0, ch);
    }
  }

  // ---------------------------------------------------------------------
  // rgbaToYuv420 / yuv420ToRgba: 8-bit BT.601 studio-range conversion
  // ---------------------------------------------------------------------

  // The source shifts possibly negative sums right by 8. That is an
  // arithmetic shift, i.e. floor division by 256, which is what Dafny's `/`
  // computes for a positive divisor.

  /** Luma: ((66r + 129g + 25b + 128) >> 8) + 16, within the studio range for 8-bit input. */
  function Luma(r: int, g: int, b: int): (y: int)
    ensures IsByte(r) && IsByte(g) && IsByte(b) ==> 16 <= y <= 235
  {
    (66 * r + 129 * g + 25 * b + 128) / 256 + 16
  }

  /** Blue-difference chroma: ((-38r - 74g + 112b + 128) >> 8) + 128. */
  function ChromaU(r: int, g: int, b: int): (u: int)
    ensures IsByte(r) && IsByte(g) && IsByte(b) ==> 16 <= u <= 240
    ensures r == g == b ==> u == 128
  {
    (-38 * r - 74 * g + 112 * b + 128) / 256 + 128
  }

  /** Red-difference chroma: ((112r - 94g - 18b + 128) >> 8) + 128. */
  function ChromaV(r: int, g: int, b: int): (v: int)
    ensures IsByte(r) && IsByte(g) && IsByte(b) ==> 16 <= v <= 240
    ensures r == g == b ==> v == 128
  {
    (112 * r - 94 * g - 18 * b + 128) / 256 + 128
  }

  /** Red from (Y, U, V) samples: (298(Y-16) + 409(V-128) + 128) >> 8, clamped. */
  function DecodeRed(y: int, u: int, v: int): (r: int)
    ensures IsByte(r)
  {
    ClampByte((298 * (y - 16) + 409 * (v - 128) + 128) / 256)
  }

  /** Green: (298(Y-16) - 100(U-128) - 208(V-128) + 128) >> 8, clamped. */
  function DecodeGreen(y: int, u: int, v: int): (g: int)
    ensures IsByte(g)
  {
    ClampByte((298 * (y - 16) - 100 * (u - 128) - 208 * (v - 128) + 128) / 256)
  }

  /** Blue: (298(Y-16) + 516(U-128) + 128) >> 8, clamped. */
  function DecodeBlue(y: int, u: int, v: int): (b: int)
    ensures IsByte(b)
  {
    ClampByte((298 * (y - 16) + 516 * (u - 128) + 128) / 256)
  }

  /**
   * A grey level survives encoding and decoding to within one step, and
   * black and white survive exactly.
   */
  lemma GreyRoundTrip(v: int)
    requires IsByte(v)
    ensures -1 <= DecodeRed(Luma(v, v, v), ChromaU(v, v, v), ChromaV(v, v, v)) - v <= 1
    ensures DecodeRed(Luma(v, v, v), ChromaU(v, v, v), ChromaV(v, v, v))
         == DecodeGreen(Luma(v, v, v), ChromaU(v, v, v), ChromaV(v, v, v))
         == DecodeBlue(Luma(v, v, v), ChromaU(v, v, v), ChromaV(v, v, v))
    ensures v == 0 || v == 255 ==> DecodeRed(Luma(v, v, v), ChromaU(v, v, v), ChromaV(v, v, v)) == v
  {
  }

  // Plane layout. A chroma plane holds one sample per 2x2 block of pixels,
  // partial blocks at an odd right or bottom edge included; for even
  // dimensions that is exactly the (w/2) x (h/2) plane the source assumes.

  function ChromaWidth(w: int): int { (w + 1) / 2 }
  function ChromaHeight(h: int): int { (h + 1) / 2 }
  function UvSize(w: int, h: int): (n: int)
    ensures w >= 0 && h >= 0 ==> n >= 0
  {
    if w >= 0 && h >= 0 then ImageUtils.MulNonneg(ChromaWidth(w), ChromaHeight(h)); ChromaWidth(w) * ChromaHeight(h)
    else ChromaWidth(w) * ChromaHeight(h)
  }

  function YuvSize(w: int, h: int): int { w * h + 2 * UvSize(w, h) }

  /** Chroma sample of the 2x2 block holding pixel (x, y). */
  function UvIndex(w: int, x: int, y: int): int { (y / 2) * ChromaWidth(w) + x / 2 }

  /** The chroma plane size as the source computes it: ySize / 4. */
  function UvSizeAsWritten(w: int, h: int): int { (w * h) / 4 }

  /** The chroma index as the source computes it: (y / 2) * (width / 2) + x / 2. */
  function UvIndexAsWritten(w: int, x: int, y: int): int { (y / 2) * (w / 2) + x / 2 }

  /**
   * For a 3 x 3 frame the source's chroma index overruns its plane: pixel
   * (2, 2) writes U over the first V sample and V to byte 13 of a buffer
   * of DataSize(YUV420P, 3, 3) = 13 bytes.
   */
  lemma OddFrameOverrunsBuffer()
    ensures UvSizeAsWritten(3, 3) == 2 && UvIndexAsWritten(3, 2, 2) == UvSizeAsWritten(3, 3)
    ensures 3 * 3 + UvSizeAsWritten(3, 3) + UvIndexAsWritten(3, 2, 2) == DataSize(YUV420P, 3, 3)
  {
    assert DataSize(YUV420P, 3, 3) == 27 / 2 == 13;
  }

  /** For a 3 x 2 frame the U sample of pixel (2, 0) lands on the V sample of block (0, 0). */
  lemma OddWidthOverlapsPlanes()
    ensures UvSizeAsWritten(3, 2) == 1
    ensures UvIndexAsWritten(3, 2, 0) == UvSizeAsWritten(3, 2) + UvIndexAsWritten(3, 0, 0)
  {
  }

  /** Every pixel's chroma sample lies inside the plane. */
  lemma {:induction false} UvIndexInPlane(w: int, h: int, x: int, y: int)
    requires InGrid(w, h, x, y)
    ensures 0 <= UvIndex(w, x, y) < UvSize(w, h)
  {
    var cw, ch := ChromaWidth(w), ChromaHeight(h);
    CellCompose(cw, ch, x / 2, y / 2);
  }

  /** For even dimensions the layout is the source's, and fills a YUV420P buffer exactly. */
  lemma {:induction false} EvenFrameLayout(w: int, h: int)
    requires w >= 0 && h >= 0 && w % 2 == 0 && h % 2 == 0
    ensures UvSize(w, h) == UvSizeAsWritten(w, h)
    ensures YuvSize(w, h) == DataSize(YUV420P, w, h)
    ensures forall x, y :: UvIndex(w, x, y) == UvIndexAsWritten(w, x, y)
  {
    Yuv420Layout(w, h);
  }

  /**
   * The pixel whose visit writes byte i of the YUV buffer: pixel i for a
   * luma byte, the top-left pixel of the block for a chroma byte.
   */
  function Owner(w: int, h: int, i: int): int
  {
    if i < w * h then i
    else
      var j := ChromaSample(w, h, i);
      (2 * RowOf(ChromaWidth(w), j)) * w + 2 * ColOf(ChromaWidth(w), j)
  }

  /** The chroma sample a byte past the luma plane holds, counted within its plane. */
  function ChromaSample(w: int, h: int, i: int): int
  {
    if i < w * h + UvSize(w, h) then i - w * h else i - w * h - UvSize(w, h)
  }

  /** A chroma byte is owned by the top-left pixel of its block, inside the frame. */
  lemma {:induction false} ChromaOwner(w: int, h: int, i: int)
    requires w >= 0 && h >= 0 && w * h <= i < YuvSize(w, h)
    ensures w > 0 && 0 <= Owner(w, h, i) < w * h
    ensures var cw, j := ChromaWidth(w), ChromaSample(w, h, i);
      0 <= j < UvSize(w, h) &&
      ColOf(w, Owner(w, h, i)) == 2 * ColOf(cw, j) && RowOf(w, Owner(w, h, i)) == 2 * RowOf(cw, j)
  {
    var cw, ch := ChromaWidth(w), ChromaHeight(h);
    var j := ChromaSample(w, h, i);
    ImageUtils.MulNonneg(w, h);
    IntMulLe(cw, 0, ch);
    assert UvSize(w, h) == cw * ch;
    ChromaCell(w, h, j);
    var cx, cy := ColOf(cw, j), RowOf(cw, j);
    assert Owner(w, h, i) == (2 * cy) * w + 2 * cx;
    CellCompose(w, h, 2 * cx, 2 * cy);
  }

  /** Byte i of the YUV buffer computed from the pixel that owns it. */
  function YuvByte(rgba: seq<int>, w: int, h: int, i: int): int
  {
    var o := Owner(w, h, i);
    if 0 <= 4 * o && 4 * o + 2 < |rgba| then
      var r, g, b := rgba[4 * o], rgba[4 * o + 1], rgba[4 * o + 2];
      if i < w * h then Luma(r, g, b)
      else if i < w * h + UvSize(w, h) then ChromaU(r, g, b)
      else ChromaV(r, g, b)
    else 0
  }

  /** The planar buffer rgbaToYuv420 produces: Y plane, then U plane, then V plane. */
  function Yuv420(rgba: seq<int>, w: int, h: int): (s: seq<int>)
    requires w >= 0 && h >= 0
    ensures |s| == YuvSize(w, h)
  {
    ImageUtils.MulNonneg(w, h);
    ImageUtils.MulNonneg(ChromaWidth(w), ChromaHeight(h));
    seq(YuvSize(w, h), i => YuvByte(rgba, w, h, i))
  }

  /** A chroma sample j of the plane belongs to a block inside the frame. */
  lemma {:induction false} ChromaCell(w: int, h: int, j: int)
    requires w > 0 && 0 <= j < UvSize(w, h)
    ensures 0 <= 2 * ColOf(ChromaWidth(w), j) < w && 0 <= 2 * RowOf(ChromaWidth(w), j) < h
    ensures j == RowOf(ChromaWidth(w), j) * ChromaWidth(w) + ColOf(ChromaWidth(w), j)
  {
    CellDecompose(ChromaWidth(w), ChromaHeight(h), j);
  }

  /** The bytes a visit to pixel (x, y) writes are exactly those it owns. */
  lemma {:induction false} OwnerAt(w: int, h: int, x: int, y: int, i: int)
    requires InGrid(w, h, x, y) && 0 <= i < YuvSize(w, h)
    ensures 0 <= Owner(w, h, i) < w * h
    ensures Owner(w, h, i) == y * w + x <==>
      (i == y * w + x ||
       (x % 2 == 0 && y % 2 == 0 &&
        (i == w * h + UvIndex(w, x, y) || i == w * h + UvSize(w, h) + UvIndex(w, x, y))))
  {
    var p := y * w + x;
    CellCompose(w, h, x, y);
    UvIndexInPlane(w, h, x, y);
    if i >= w * h {
      var j := ChromaSample(w, h, i);
      var cw := ChromaWidth(w);
      var cx, cy := ColOf(cw, j), RowOf(cw, j);
      ChromaOwner(w, h, i);
      ChromaCell(w, h, j);
      if Owner(w, h, i) == p {
        assert 2 * cx == x && 2 * cy == y;
        assert j == UvIndex(w, x, y);
      }
      if x % 2 == 0 && y % 2 == 0 && j == UvIndex(w, x, y) {
        DivModUnique(j, cw, y / 2, x / 2);
      }
    }
  }

  /** The three bytes a visit to pixel (x, y) writes, and the samples they hold. */
  lemma {:induction false} PixelYuvBytes(rgba: seq<int>, w: int, h: int, x: int, y: int)
    requires |rgba| == w * h * 4 && InGrid(w, h, x, y)
    ensures 0 <= 4 * (y * w + x) && 4 * (y * w + x) + 2 < |rgba|
    ensures var p := y * w + x;
      var r, g, b := rgba[4 * p], rgba[4 * p + 1], rgba[4 * p + 2];
      p < w * h && YuvByte(rgba, w, h, p) == Luma(r, g, b) &&
      (x % 2 == 0 && y % 2 == 0 ==>
        0 <= UvIndex(w, x, y) < UvSize(w, h) &&
        YuvByte(rgba, w, h, w * h + UvIndex(w, x, y)) == ChromaU(r, g, b) &&
        YuvByte(rgba, w, h, w * h + UvSize(w, h) + UvIndex(w, x, y)) == ChromaV(r, g, b))
  {
    var p := y * w + x;
    CellCompose(w, h, x, y);
    OwnerAt(w, h, x, y, p);
    if x % 2 == 0 && y % 2 == 0 {
      UvIndexInPlane(w, h, x, y);
      OwnerAt(w, h, x, y, w * h + UvIndex(w, x, y));
      OwnerAt(w, h, x, y, w * h + UvSize(w, h) + UvIndex(w, x, y));
    }
  }

  /** Every byte of the buffer is owned by a pixel of the frame. */
  lemma {:induction false} OwnerInFrame(w: int, h: int, i: int)
    requires w >= 0 && h >= 0 && 0 <= i < YuvSize(w, h)
    ensures 0 <= Owner(w, h, i) < w * h
  {
    if i >= w * h {
      ChromaOwner(w, h, i);
    }
  }

  /**
   * What the conversion promises per pixel: its luma sits at y * w + x, and
   * a pixel with even x and even y supplies the U and V samples of its block.
   */
  lemma {:induction false} Yuv420Planes(rgba: seq<int>, w: int, h: int, x: int, y: int)
    requires |rgba| == w * h * 4 && InGrid(w, h, x, y)
    ensures var p := y * w + x;
      0 <= p < w * h && Yuv420(rgba, w, h)[p] == Luma(rgba[4 * p], rgba[4 * p + 1], rgba[4 * p + 2])
    ensures var p := y * w + x;
      x % 2 == 0 && y % 2 == 0 ==>
        0 <= p < w * h && 0 <= UvIndex(w, x, y) < UvSize(w, h) &&
        Yuv420(rgba, w, h)[w * h + UvIndex(w, x, y)] == ChromaU(rgba[4 * p], rgba[4 * p + 1], rgba[4 * p + 2]) &&
        Yuv420(rgba, w, h)[w * h + UvSize(w, h) + UvIndex(w, x, y)] == ChromaV(rgba[4 * p], rgba[4 * p + 1], rgba[4 * p + 2])
  {
    PixelYuvBytes(rgba, w, h, x, y);
  }

  /** Only pixels with even x and even y supply chroma. */
  lemma {:induction false} ChromaFromEvenPixels(w: int, h: int, i: int)
    requires w >= 0 && h >= 0 && w * h <= i < YuvSize(w, h)
    ensures ColOf(w, Owner(w, h, i)) % 2 == 0 && RowOf(w, Owner(w, h, i)) % 2 == 0
  {
    ChromaOwner(w, h, i);
  }

  /** For 8-bit input every byte of the YUV buffer is in [16, 240], so no uint8 cast wraps. */
  lemma {:induction false} Yuv420InStudioRange(rgba: seq<int>, w: int, h: int)
    requires w >= 0 && h >= 0 && |rgba| == w * h * 4 && AllBytes(rgba)
    ensures forall i :: 0 <= i < |Yuv420(rgba, w, h)| ==> 16 <= Yuv420(rgba, w, h)[i] <= 240
  {
    forall i | 0 <= i < |Yuv420(rgba, w, h)| ensures 16 <= Yuv420(rgba, w, h)[i] <= 240 {
      OwnerInFrame(w, h, i);
    }
  }

  /** Byte i of the YUV buffer while the loops stand at pixel p: converted, or as it was. */
  function YuvSoFar(rgba: seq<int>, w: int, h: int, y0: seq<int>, i: int, p: int): int
  {
    if 0 <= i < YuvSize(w, h) && Owner(w, h, i) < p then YuvByte(rgba, w, h, i)
    else if 0 <= i < |y0| then y0[i] else 0
  }

  /** The buffer while the loops stand at pixel p: each byte converted, or as it was. */
  ghost predicate ConvertedBefore(rgba: seq<int>, w: int, h: int, y0: seq<int>, a: seq<int>, p: int)
  {
    |a| == |y0| && forall i :: 0 <= i < |a| ==> a[i] == YuvSoFar(rgba, w, h, y0, i, p)
  }

  /** Before the first pixel nothing is converted. */
  lemma {:induction false} YuvNoneYet(rgba: seq<int>, w: int, h: int, y0: seq<int>)
    requires w >= 0 && h >= 0
    ensures ConvertedBefore(rgba, w, h, y0, y0, 0)
  {
    forall i | 0 <= i < |y0| ensures y0[i] == YuvSoFar(rgba, w, h, y0, i, 0) {
      if i < YuvSize(w, h) {
        OwnerInFrame(w, h, i);
      }
    }
  }

  /** Visiting pixel (x, y) converts exactly the bytes it owns. */
  lemma {:induction false} YuvStep(rgba: seq<int>, w: int, h: int, x: int, y: int, y0: seq<int>,
                                   before: seq<int>, after: seq<int>)
    requires |rgba| == w * h * 4 && InGrid(w, h, x, y) && |before| == |after| == |y0| >= YuvSize(w, h)
    requires ConvertedBefore(rgba, w, h, y0, before, y * w + x)
    requires forall i :: 0 <= i < |after| ==>
      after[i] == if i == y * w + x || (x % 2 == 0 && y % 2 == 0 &&
                     (i == w * h + UvIndex(w, x, y) || i == w * h + UvSize(w, h) + UvIndex(w, x, y)))
                  then YuvByte(rgba, w, h, i) else before[i]
    ensures ConvertedBefore(rgba, w, h, y0, after, y * w + x + 1)
  {
    var p := y * w + x;
    CellCompose(w, h, x, y);
    UvIndexInPlane(w, h, x, y);
    forall i | 0 <= i < |after| ensures after[i] == YuvSoFar(rgba, w, h, y0, i, p + 1) {
      if i < YuvSize(w, h) {
        OwnerAt(w, h, x, y, i);
        if Owner(w, h, i) == p {
          assert after[i] == YuvByte(rgba, w, h, i);
        } else {
          assert after[i] == before[i];
        }
      } else {
        assert after[i] == before[i];
      }
    }
  }

  /** After the last pixel every byte of the planes is converted. */
  lemma {:induction false} YuvAllDone(rgba: seq<int>, w: int, h: int, y0: seq<int>, a: seq<int>)
    requires w >= 0 && h >= 0 && |a| == |y0| >= YuvSize(w, h)
    requires ConvertedBefore(rgba, w, h, y0, a, h * w)
    ensures a[..YuvSize(w, h)] == Yuv420(rgba, w, h)
    ensures a[YuvSize(w, h)..] == y0[YuvSize(w, h)..]
  {
    forall i | 0 <= i < YuvSize(w, h) ensures a[i] == Yuv420(rgba, w, h)[i] {
      OwnerInFrame(w, h, i);
    }
  }

  /** Where pixel p (row-major) finds its U sample. */
  function UIndex(w: int, h: int, p: int): int { w * h + UvIndex(w, ColOf(w, p), RowOf(w, p)) }

  /** Where pixel p (row-major) finds its V sample. */
  function VIndex(w: int, h: int, p: int): int { w * h + UvSize(w, h) + UvIndex(w, ColOf(w, p), RowOf(w, p)) }

  /** Byte k of the RGBA output: channel k % 4 decoded from the samples of its pixel, alpha 255. */
  function RgbaByte(yuv: seq<int>, w: int, h: int, k: int): (v: int)
    ensures IsByte(v) && (k % 4 == 3 ==> v == 255)
  {
    var p := k / 4;
    var ui, vi := UIndex(w, h, p), VIndex(w, h, p);
    if k % 4 == 3 then 255
    else if 0 <= p < |yuv| && 0 <= ui < |yuv| && 0 <= vi < |yuv| then
      ImageUtils.Channel(k % 4, DecodeRed(yuv[p], yuv[ui], yuv[vi]), DecodeGreen(yuv[p], yuv[ui], yuv[vi]),
                         DecodeBlue(yuv[p], yuv[ui], yuv[vi]), 255)
    else 0
  }

  /** The samples of every pixel lie inside the buffer. */
  lemma {:induction false} SampleIndices(w: int, h: int, p: int)
    requires 0 <= p < w * h && w > 0
    ensures 0 <= p < YuvSize(w, h)
    ensures w * h <= UIndex(w, h, p) < w * h + UvSize(w, h) <= VIndex(w, h, p) < YuvSize(w, h)
  {
    CellDecompose(w, h, p);
    UvIndexInPlane(w, h, ColOf(w, p), RowOf(w, p));
  }

  /** The decode formulas as yuv420ToRgba writes them: max(0, min(255, ...)) of the fixed-point sums. */
  lemma DecodeFormulas(Y: int, U: int, V: int)
    ensures Max(0, Min(255, (298 * Y + 409 * V + 128) / 256)) == DecodeRed(Y + 16, U + 128, V + 128)
    ensures Max(0, Min(255, (298 * Y - 100 * U - 208 * V + 128) / 256)) == DecodeGreen(Y + 16, U + 128, V + 128)
    ensures Max(0, Min(255, (298 * Y + 516 * U + 128) / 256)) == DecodeBlue(Y + 16, U + 128, V + 128)
  {
  }

  /** A byte of pixel (x, y) decodes the pixel's own luma and its block's chroma. */
  lemma {:induction false} DecodedPixelByte(yuv: seq<int>, w: int, h: int, x: int, y: int, k: int)
    requires InGrid(w, h, x, y) && |yuv| >= YuvSize(w, h) && 0 <= k < w * h * 4 && PixelIs(w, k, x, y)
    ensures var p, ui := y * w + x, w * h + UvIndex(w, x, y);
      var vi := ui + UvSize(w, h);
      0 <= p < |yuv| && 0 <= ui < |yuv| && 0 <= vi < |yuv| &&
      RgbaByte(yuv, w, h, k) == ImageUtils.Channel(k % 4, DecodeRed(yuv[p], yuv[ui], yuv[vi]),
        DecodeGreen(yuv[p], yuv[ui], yuv[vi]), DecodeBlue(yuv[p], yuv[ui], yuv[vi]), 255)
  {
    var p := y * w + x;
    PixelIndex(w, h, k, x, y);
    CellCompose(w, h, x, y);
    UvIndexInPlane(w, h, x, y);
    assert k / 4 == p;
    assert UIndex(w, h, p) == w * h + UvIndex(w, x, y);
  }

  /** Every byte of pixel (x, y) decodes the pixel's luma with its block's chroma. */
  lemma PixelDecodes(yuv: seq<int>, w: int, h: int, x: int, y: int)
    requires InGrid(w, h, x, y) && |yuv| >= YuvSize(w, h)
    ensures 0 <= y * w + x < |yuv| && 0 <= UvIndex(w, x, y)
    ensures w * h + UvSize(w, h) + UvIndex(w, x, y) < |yuv|
    ensures forall k :: 0 <= k < w * h * 4 && PixelIs(w, k, x, y) ==>
      RgbaByte(yuv, w, h, k) == ImageUtils.Channel(k % 4,
        DecodeRed(yuv[y * w + x], yuv[w * h + UvIndex(w, x, y)], yuv[w * h + UvSize(w, h) + UvIndex(w, x, y)]),
        DecodeGreen(yuv[y * w + x], yuv[w * h + UvIndex(w, x, y)], yuv[w * h + UvSize(w, h) + UvIndex(w, x, y)]),
        DecodeBlue(yuv[y * w + x], yuv[w * h + UvIndex(w, x, y)], yuv[w * h + UvSize(w, h) + UvIndex(w, x, y)]), 255)
  {
    CellCompose(w, h, x, y);
    UvIndexInPlane(w, h, x, y);
    forall k | 0 <= k < w * h * 4 && PixelIs(w, k, x, y)
      ensures RgbaByte(yuv, w, h, k) == ImageUtils.Channel(k % 4,
        DecodeRed(yuv[y * w + x], yuv[w * h + UvIndex(w, x, y)], yuv[w * h + UvSize(w, h) + UvIndex(w, x, y)]),
        DecodeGreen(yuv[y * w + x], yuv[w * h + UvIndex(w, x, y)], yuv[w * h + UvSize(w, h) + UvIndex(w, x, y)]),
        DecodeBlue(yuv[y * w + x], yuv[w * h + UvIndex(w, x, y)], yuv[w * h + UvSize(w, h) + UvIndex(w, x, y)]), 255)
    {
      DecodedPixelByte(yuv, w, h, x, y, k);
    }
  }

  /** The RGBA buffer yuv420ToRgba produces. */
  function Decoded(yuv: seq<int>, w: int, h: int): (s: seq<int>)
    requires w >= 0 && h >= 0
    ensures |s| == w * h * 4
  {
    ImageUtils.MulNonneg(w * h, 4);
    seq(w * h * 4, k => RgbaByte(yuv, w, h, k))
  }

  /** A grey pixel: equal red, green and blue. */
  predicate GreyPixels(rgba: seq<int>, n: int)
    requires 0 <= n && |rgba| == n * 4
  {
    forall p :: 0 <= p < n ==> rgba[4 * p] == rgba[4 * p + 1] && rgba[4 * p + 1] == rgba[4 * p + 2]
  }

  /**
   * Converting a grey frame to YUV and back changes no colour channel by
   * more than one step, and makes every pixel opaque.
   */
  lemma {:induction false} GreyFrameRoundTrip(rgba: seq<int>, w: int, h: int)
    requires w >= 0 && h >= 0 && |rgba| == w * h * 4 && AllBytes(rgba) && GreyPixels(rgba, w * h)
    ensures forall k :: 0 <= k < |rgba| && k % 4 != 3 ==> -1 <= Decoded(Yuv420(rgba, w, h), w, h)[k] - rgba[k] <= 1
    ensures forall k :: 0 <= k < |rgba| && k % 4 == 3 ==> Decoded(Yuv420(rgba, w, h), w, h)[k] == 255
  {
    forall k | 0 <= k < |rgba| && k % 4 != 3
      ensures -1 <= Decoded(Yuv420(rgba, w, h), w, h)[k] - rgba[k] <= 1
    {
      GreyByteRoundTrip(rgba, w, h, k);
      assert Decoded(Yuv420(rgba, w, h), w, h)[k] == RgbaByte(Yuv420(rgba, w, h), w, h, k);
    }
  }

  lemma {:induction false} GreyByteRoundTrip(rgba: seq<int>, w: int, h: int, k: int)
    requires w >= 0 && h >= 0 && |rgba| == w * h * 4 && AllBytes(rgba) && GreyPixels(rgba, w * h)
    requires 0 <= k < |rgba| && k % 4 != 3
    ensures -1 <= RgbaByte(Yuv420(rgba, w, h), w, h, k) - rgba[k] <= 1
  {
    var yuv := Yuv420(rgba, w, h);
    var p := k / 4;
    GreyChannel(rgba, w * h, k);
    var v := rgba[4 * p];
    GreySamples(rgba, w, h, p);
    var l := Luma(v, v, v);
    GreyRoundTrip(v);
    var d := DecodeRed(l, 128, 128);
    assert RgbaByte(yuv, w, h, k) == ImageUtils.Channel(k % 4, d, d, d, 255);
  }

  /** The three samples of a grey pixel: its luma and neutral chroma. */
  lemma {:induction false} GreySamples(rgba: seq<int>, w: int, h: int, p: int)
    requires w >= 0 && h >= 0 && |rgba| == w * h * 4 && GreyPixels(rgba, w * h) && 0 <= p < w * h
    ensures 0 <= p < YuvSize(w, h) && Yuv420(rgba, w, h)[p] == Luma(rgba[4 * p], rgba[4 * p], rgba[4 * p])
    ensures 0 <= UIndex(w, h, p) < YuvSize(w, h) && Yuv420(rgba, w, h)[UIndex(w, h, p)] == 128
    ensures 0 <= VIndex(w, h, p) < YuvSize(w, h) && Yuv420(rgba, w, h)[VIndex(w, h, p)] == 128
  {
    SampleIndices(w, h, p);
    LumaOfGrey(rgba, w, h, p);
    ChromaOfGrey(rgba, w, h, UIndex(w, h, p));
    ChromaOfGrey(rgba, w, h, VIndex(w, h, p));
  }

  /** The luma sample of a grey pixel is the luma of its red byte. */
  lemma {:induction false} LumaOfGrey(rgba: seq<int>, w: int, h: int, p: int)
    requires w >= 0 && h >= 0 && |rgba| == w * h * 4 && GreyPixels(rgba, w * h) && 0 <= p < w * h
    ensures 4 * p + 2 < |rgba| && Yuv420(rgba, w, h)[p] == Luma(rgba[4 * p], rgba[4 * p], rgba[4 * p])
  {
    assert rgba[4 * p] == rgba[4 * p + 1] == rgba[4 * p + 2];
    assert Yuv420(rgba, w, h)[p] == YuvByte(rgba, w, h, p);
  }

  /** Every chroma sample of a grey frame is neutral. */
  lemma {:induction false} ChromaOfGrey(rgba: seq<int>, w: int, h: int, i: int)
    requires w >= 0 && h >= 0 && |rgba| == w * h * 4 && GreyPixels(rgba, w * h) && w * h <= i < YuvSize(w, h)
    ensures Yuv420(rgba, w, h)[i] == 128
  {
    OwnerInFrame(w, h, i);
    var o := Owner(w, h, i);
    assert rgba[4 * o] == rgba[4 * o + 1] == rgba[4 * o + 2];
    assert Yuv420(rgba, w, h)[i] == YuvByte(rgba, w, h, i);
  }

  /** A colour byte of a grey pixel equals the pixel's red byte. */
  lemma {:induction false} GreyChannel(rgba: seq<int>, n: int, k: int)
    requires 0 <= n && |rgba| == n * 4 && GreyPixels(rgba, n) && 0 <= k < |rgba| && k % 4 != 3
    ensures 0 <= k / 4 < n && rgba[k] == rgba[4 * (k / 4)]
  {
    var p := k / 4;
    assert k == 4 * p + k % 4;
    assert rgba[4 * p] == rgba[4 * p + 1] == rgba[4 * p + 2];
  }

  /** Byte k of the RGBA output while the loops stand at pixel (x, y): decoded, or as it was. */
  function RgbaSoFar(yuv: seq<int>, w: int, h: int, r0: seq<int>, k: int, x: int, y: int): int
  {
    if Before(w, k, x, y) then RgbaByte(yuv, w, h, k) else if 0 <= k < |r0| then r0[k] else 0
  }

  /** Decoding pixel (x, y) writes exactly its four bytes. */
  lemma {:induction false} DecodeStep(yuv: seq<int>, w: int, h: int, x: int, y: int, r0: seq<int>,
                                      before: seq<int>, after: seq<int>)
    requires InGrid(w, h, x, y) && |before| == |after| == |r0| == w * h * 4 && |yuv| >= YuvSize(w, h)
    requires forall k :: 0 <= k < |before| ==> before[k] == RgbaSoFar(yuv, w, h, r0, k, x, y)
    requires forall k :: 0 <= k < |after| ==> after[k] == if PixelIs(w, k, x, y) then RgbaByte(yuv, w, h, k) else before[k]
    ensures forall k :: 0 <= k < |after| ==> after[k] == RgbaSoFar(yuv, w, h, r0, k, x + 1, y)
  {
  }

  /**
   * The engine's frame buffer: fixed dimensions and a zero-initialised RGBA
   * buffer of width * height * 4 bytes.
   */
  // ---------------------------------------------------------------------
  // blend and composite: alpha mixing of 8-bit channels
  // ---------------------------------------------------------------------

  /** static_cast<uint8_t>(s * alpha + d * (1 - alpha)), with the float product taken exactly. */
  function BlendByte(s: int, d: int, alpha: real): int
  {
    Trunc(s as real * alpha + d as real * (1.0 - alpha))
  }

  /**
   * For bytes and an alpha in [0, 1] the mix lies between the two inputs,
   * so the uint8 cast never wraps; alpha 0 keeps the destination byte and
   * alpha 1 takes the source byte.
   */
  lemma {:induction false} BlendByteBetween(s: int, d: int, alpha: real)
    requires IsByte(s) && IsByte(d) && 0.0 <= alpha <= 1.0
    ensures Min(s, d) <= BlendByte(s, d, alpha) <= Max(s, d)
    ensures IsByte(BlendByte(s, d, alpha))
    ensures alpha == 0.0 ==> BlendByte(s, d, alpha) == d
    ensures alpha == 1.0 ==> BlendByte(s, d, alpha) == s
  {
    var v := s as real * alpha + d as real * (1.0 - alpha);
    MixWithinBytes(s, d, alpha);
    TruncWithin(v, Min(s, d), Max(s, d));
    if alpha == 0.0 {
      assert v == d as real;
      TruncWithin(v, d, d);
    }
    if alpha == 1.0 {
      assert v == s as real;
      TruncWithin(v, s, s);
    }
  }

  /**
   * blend: the first min(|dest|, |src|) / 4 pixels of dest get their
   * red, green and blue mixed with src; alpha bytes and the rest of dest
   * are left as they were.
   */
  function Blended(d: seq<int>, s: seq<int>, alpha: real): (r: seq<int>)
    ensures |r| == |d|
  {
    seq(|d|, k requires 0 <= k < |d| =>
      if k / 4 < Min(|d|, |s|) / 4 && k % 4 != 3 then BlendByte(s[k], d[k], alpha) else d[k])
  }

  /** Blending bytes with an alpha in [0, 1] yields bytes, each between the two it mixes. */
  lemma {:induction false} BlendedBytes(d: seq<int>, s: seq<int>, alpha: real)
    requires AllBytes(d) && AllBytes(s) && 0.0 <= alpha <= 1.0
    ensures AllBytes(Blended(d, s, alpha))
    ensures forall k :: 0 <= k < |d| && k < |s| ==>
      Min(s[k], d[k]) <= Blended(d, s, alpha)[k] <= Max(s[k], d[k])
  {
    var r := Blended(d, s, alpha);
    forall k | 0 <= k < |d|
      ensures IsByte(r[k]) && (k < |s| ==> Min(s[k], d[k]) <= r[k] <= Max(s[k], d[k]))
    {
      if k < |s| {
        BlendByteBetween(s[k], d[k], alpha);
      }
    }
  }

  /**
   * The uint8 cast is defined for every mix blend computes: each mixed
   * value, before truncation, lies in [0, 256).
   */
  predicate MixesInRange(d: seq<int>, s: seq<int>, alpha: real)
  {
    forall k :: 0 <= k < |d| && k < |s| && k % 4 != 3 ==>
      0.0 <= s[k] as real * alpha + d[k] as real * (1.0 - alpha) < 256.0
  }

  /** Any alpha whose mixes keep the cast defined, 2 over equal bytes say, yields bytes. */
  lemma {:induction false} BlendedBytesWhereDefined(d: seq<int>, s: seq<int>, alpha: real)
    requires AllBytes(d) && MixesInRange(d, s, alpha)
    ensures AllBytes(Blended(d, s, alpha))
  {
    var r := Blended(d, s, alpha);
    forall k | 0 <= k < |d| ensures IsByte(r[k]) {
      if k / 4 < Min(|d|, |s|) / 4 && k % 4 != 3 {
        assert 0.0 <= s[k] as real * alpha + d[k] as real * (1.0 - alpha) < 256.0;
      }
    }
  }

  /** With bytes, every alpha in [0, 1] keeps the cast defined. */
  lemma {:induction false} UnitAlphaInRange(d: seq<int>, s: seq<int>, alpha: real)
    requires AllBytes(d) && AllBytes(s) && 0.0 <= alpha <= 1.0
    ensures MixesInRange(d, s, alpha)
  {
    forall k | 0 <= k < |d| && k < |s| && k % 4 != 3
      ensures 0.0 <= s[k] as real * alpha + d[k] as real * (1.0 - alpha) < 256.0
    {
      MixWithinBytes(s[k], d[k], alpha);
    }
  }

  /** alpha 0 leaves the destination as it was. */
  lemma {:induction false} BlendZeroKeepsDest(d: seq<int>, s: seq<int>)
    requires AllBytes(d) && AllBytes(s)
    ensures Blended(d, s, 0.0) == d
  {
    var r := Blended(d, s, 0.0);
    forall k | 0 <= k < |d| ensures r[k] == d[k] {
      if k / 4 < Min(|d|, |s|) / 4 && k % 4 != 3 {
        BlendByteBetween(s[k], d[k], 0.0);
      }
    }
  }

  /** alpha 1 copies the colour bytes of every pixel both buffers hold; alpha bytes stay. */
  lemma {:induction false} BlendOneCopiesSource(d: seq<int>, s: seq<int>)
    requires AllBytes(d) && AllBytes(s)
    ensures forall k :: 0 <= k < |d| ==>
      Blended(d, s, 1.0)[k] == if k / 4 < Min(|d|, |s|) / 4 && k % 4 != 3 then s[k] else d[k]
  {
    var r := Blended(d, s, 1.0);
    forall k | 0 <= k < |d|
      ensures r[k] == if k / 4 < Min(|d|, |s|) / 4 && k % 4 != 3 then s[k] else d[k]
    {
      if k / 4 < Min(|d|, |s|) / 4 && k % 4 != 3 {
        BlendByteBetween(s[k], d[k], 1.0);
      }
    }
  }

  /**
   * Where composite places the scaled source: the float scale that fits it
   * inside the destination, the scaled size, and the offsets that centre it.
   */
  datatype Placement = Placement(scale: real, width: int, height: int, offsetX: int, offsetY: int)

  /** std::min(dstWidth / srcWidth, dstHeight / srcHeight) in float: the largest scale that fits. */
  function FitScale(dw: int, dh: int, sw: int, sh: int): real
    requires sw > 0 && sh > 0
  {
    var scaleX := dw as real / sw as real;
    var scaleY := dh as real / sh as real;
    if scaleY < scaleX then scaleY else scaleX
  }

  /** static_cast<int>(size * scale): the scaled size, truncated. */
  function Scaled(size: int, scale: real): int
  {
    Trunc(size as real * scale)
  }

  /** (outer - inner) / 2 in C++ integer division: the offset that centres inner in outer. */
  function Centred(outer: int, inner: int): int
  {
    CDiv(outer - inner, 2)
  }

  function Place(dw: int, dh: int, sw: int, sh: int): Placement
    requires sw > 0 && sh > 0
  {
    var scale := FitScale(dw, dh, sw, sh);
    var scaledW := Scaled(sw, scale);
    var scaledH := Scaled(sh, scale);
    Placement(scale, scaledW, scaledH, Centred(dw, scaledW), Centred(dh, scaledH))
  }

  lemma QuotientNonneg(a: real, b: real)
    requires a >= 0.0 && b > 0.0
    ensures a / b >= 0.0
  {
  }

  /** Scaling n by at most bound / n and truncating stays within [0, bound]. */
  lemma {:induction false} ScaledWithin(n: int, bound: int, scale: real)
    requires n > 0 && bound >= 0 && 0.0 <= scale <= bound as real / n as real
    ensures 0 <= Scaled(n, scale) <= bound
    ensures Scaled(n, scale) as real <= n as real * scale
    ensures Scaled(n, scale) > 0 ==> scale > 0.0
    ensures scale == bound as real / n as real ==> Scaled(n, scale) == bound
    ensures 0 <= Centred(bound, Scaled(n, scale)) && Centred(bound, Scaled(n, scale)) + Scaled(n, scale) <= bound
  {
    var q := bound as real / n as real;
    assert n as real * q == bound as real;
    RealMulNonneg(n as real, q - scale);
    RealMulNonneg(n as real, scale);
  }

  /** The placed window lies inside the destination, and a non-empty window has a positive scale. */
  lemma {:induction false} PlacementFits(dw: int, dh: int, sw: int, sh: int, p: Placement)
    requires dw >= 0 && dh >= 0 && sw > 0 && sh > 0 && p == Place(dw, dh, sw, sh)
    ensures 0 <= p.offsetX && p.offsetX + p.width <= dw && 0 <= p.offsetY && p.offsetY + p.height <= dh
    ensures 0 <= p.width && 0 <= p.height && p.scale >= 0.0
    ensures (p.width > 0 ==> p.scale > 0.0) && (p.height > 0 ==> p.scale > 0.0)
    ensures p.width as real <= sw as real * p.scale && p.height as real <= sh as real * p.scale
  {
    var scale := FitScale(dw, dh, sw, sh);
    QuotientNonneg(dw as real, sw as real);
    QuotientNonneg(dh as real, sh as real);
    ScaledWithin(sw, dw, scale);
    ScaledWithin(sh, dh, scale);
  }

  /** Fit inside: the scaled source fills the full width or the full height. */
  lemma {:induction false} PlacementFillsOneSide(dw: int, dh: int, sw: int, sh: int, p: Placement)
    requires dw >= 0 && dh >= 0 && sw > 0 && sh > 0 && p == Place(dw, dh, sw, sh)
    ensures p.width == dw || p.height == dh
  {
    var scale := FitScale(dw, dh, sw, sh);
    QuotientNonneg(dw as real, sw as real);
    QuotientNonneg(dh as real, sh as real);
    if dh as real / sh as real < dw as real / sw as real {
      ScaledWithin(sh, dh, scale);
    } else {
      ScaledWithin(sw, dw, scale);
    }
  }

  /** A source of the destination's own size is placed at scale 1 over the whole frame. */
  lemma {:induction false} PlacementSameSize(w: int, h: int)
    requires w > 0 && h > 0
    ensures Place(w, h, w, h) == Placement(1.0, w, h, 0, 0)
  {
    RealDivSelf(w as real);
    RealDivSelf(h as real);
    assert FitScale(w, h, w, h) == 1.0;
    ScaledWithin(w, w, 1.0);
    ScaledWithin(h, h, 1.0);
  }

  /** x / scale truncated, capped at the last source index (the two `if (srcX >= srcWidth)` lines). */
  function SrcCoord(v: int, scale: real, size: int): int
  {
    if scale > 0.0 then Min(Trunc(v as real / scale), size - 1) else 0
  }

  /** Inside the scaled window the truncated source coordinate is already in range: the cap never applies. */
  lemma {:induction false} SrcCoordInRange(v: int, scale: real, size: int, scaled: int)
    requires 0 <= v < scaled && scale > 0.0 && scaled as real <= size as real * scale
    ensures SrcCoord(v, scale, size) == Trunc(v as real / scale)
    ensures 0 <= SrcCoord(v, scale, size) < size
  {
    var q := v as real / scale;
    assert q * scale == v as real;
    assert v as real < size as real * scale;
    assert q < size as real;
  }

  /** Every position of the window samples a source pixel: the cap at the last row or column never applies. */
  lemma {:induction false} WindowSample(dw: int, dh: int, src: Frame, p: Placement, x: int, y: int)
    requires dw >= 0 && dh >= 0 && Shaped(src) && |src.data| > 0 && p == Place(dw, dh, src.width, src.height)
    requires 0 <= x < p.width && 0 <= y < p.height
    ensures p.scale > 0.0
    ensures SrcCoord(x, p.scale, src.width) == Trunc(x as real / p.scale)
    ensures SrcCoord(y, p.scale, src.height) == Trunc(y as real / p.scale)
    ensures InGrid(src.width, src.height, SrcCoord(x, p.scale, src.width), SrcCoord(y, p.scale, src.height))
  {
    NonEmptySource(src);
    PlacementFits(dw, dh, src.width, src.height, p);
    SrcCoordInRange(x, p.scale, src.width, p.width);
    SrcCoordInRange(y, p.scale, src.height, p.height);
  }

  predicate InWindow(p: Placement, x: int, y: int)
  {
    p.offsetX <= x < p.offsetX + p.width && p.offsetY <= y < p.offsetY + p.height
  }

  /**
   * Channel c of destination pixel (x, y) inside the window: the source
   * pixel it samples, mixed over the destination by the source's alpha
   * byte / 255; the written alpha is 255.
   */
  function CompValue(d: Frame, src: Frame, p: Placement, x: int, y: int, c: int): int
  {
    var sx := SrcCoord(x - p.offsetX, p.scale, src.width);
    var sy := SrcCoord(y - p.offsetY, p.scale, src.height);
    if c == 3 then 255
    else BlendByte(At(src, sx, sy, c), At(d, x, y, c), At(src, sx, sy, 3) as real / 255.0)
  }

  /**
   * composite: an empty source changes nothing; otherwise the pixels of
   * the centred window are replaced by the blended source and the rest
   * of the destination is kept.
   */
  function Composited(d: Frame, src: Frame): (r: Frame)
    requires Shaped(d) && Shaped(src)
    ensures Shaped(r) && r.width == d.width && r.height == d.height
  {
    if |src.data| == 0 then d
    else
      var p := Place(d.width, d.height, src.width, src.height);
      Build(d.width, d.height, (x, y, c) => if InWindow(p, x, y) then CompValue(d, src, p, x, y, c) else At(d, x, y, c))
  }

  /** A source with pixels has positive dimensions. */
  lemma {:induction false} NonEmptySource(src: Frame)
    requires Shaped(src) && |src.data| > 0
    ensures src.width > 0 && src.height > 0
  {
  }

  /**
   * What composite does to pixel (x, y): inside the centred window the
   * blended source sample, outside it the destination as it was.
   */
  lemma {:induction false} CompositeEffect(d: Frame, src: Frame, x: int, y: int, c: int)
    requires Shaped(d) && Shaped(src) && |src.data| > 0
    requires InGrid(d.width, d.height, x, y) && 0 <= c < 4
    ensures var p := Place(d.width, d.height, src.width, src.height);
      At(Composited(d, src), x, y, c) == if InWindow(p, x, y) then CompValue(d, src, p, x, y, c) else At(d, x, y, c)
  {
    NonEmptySource(src);
  }

  /**
   * One pixel of the window: the sampled source pixel exists, the result
   * is a byte, the alpha byte becomes 255, an opaque source pixel is
   * copied and a transparent one leaves the colour as it was.
   */
  lemma {:induction false} WindowPixel(d: Frame, src: Frame, p: Placement, x: int, y: int, c: int)
    requires ValidFrame(d) && ValidFrame(src) && |src.data| > 0 && p == Place(d.width, d.height, src.width, src.height)
    requires InWindow(p, x, y) && 0 <= c < 4
    ensures var sx, sy := SrcCoord(x - p.offsetX, p.scale, src.width), SrcCoord(y - p.offsetY, p.scale, src.height);
      var v := CompValue(d, src, p, x, y, c);
      InGrid(src.width, src.height, sx, sy) && IsByte(v) &&
      (c == 3 ==> v == 255) &&
      (c < 3 && At(src, sx, sy, 3) == 255 ==> v == At(src, sx, sy, c)) &&
      (c < 3 && At(src, sx, sy, 3) == 0 ==> v == At(d, x, y, c))
  {
    WindowSample(d.width, d.height, src, p, x - p.offsetX, y - p.offsetY);
    var sx, sy := SrcCoord(x - p.offsetX, p.scale, src.width), SrcCoord(y - p.offsetY, p.scale, src.height);
    AtIsByte(src, sx, sy, 3);
    if c < 3 {
      var a := At(src, sx, sy, 3);
      AtIsByte(src, sx, sy, c);
      AtIsByte(d, x, y, c);
      assert 0.0 <= a as real / 255.0 <= 1.0;
      BlendByteBetween(At(src, sx, sy, c), At(d, x, y, c), a as real / 255.0);
    }
  }

  /** Byte k of the destination while composite's loops stand at window position (x, y). */
  function CompSoFar(d: Frame, src: Frame, p: Placement, k: int, x: int, y: int): int
  {
    var X, Y := ColOf(d.width, k / 4), RowOf(d.width, k / 4);
    if InWindow(p, X, Y) && (Y - p.offsetY < y || (Y - p.offsetY == y && X - p.offsetX < x))
    then CompValue(d, src, p, X, Y, k % 4) else At(d, X, Y, k % 4)
  }

  /** Before the loops every byte is the destination's own. */
  lemma {:induction false} CompStart(d: Frame, src: Frame, p: Placement)
    requires Shaped(d)
    ensures forall k :: 0 <= k < |d.data| ==> d.data[k] == CompSoFar(d, src, p, k, 0, 0)
  {
    forall k | 0 <= k < |d.data| ensures d.data[k] == CompSoFar(d, src, p, k, 0, 0) {
      IdxDecompose(d.width, d.height, k);
    }
  }

  /** The destination bytes of window pixel (x, y) are still the original ones when the loops reach it. */
  lemma {:induction false} CompReads(d: Frame, src: Frame, p: Placement, x: int, y: int, X: int, Y: int, cur: seq<int>)
    requires Shaped(d) && |cur| == |d.data| && 0 <= x < p.width && 0 <= y < p.height
    requires X == p.offsetX + x && Y == p.offsetY + y && InGrid(d.width, d.height, X, Y)
    requires forall k :: 0 <= k < |cur| ==> cur[k] == CompSoFar(d, src, p, k, x, y)
    ensures forall c :: 0 <= c < 4 ==> 0 <= Idx(d.width, X, Y, c) < |cur| && cur[Idx(d.width, X, Y, c)] == At(d, X, Y, c)
  {
    forall c | 0 <= c < 4
      ensures 0 <= Idx(d.width, X, Y, c) < |cur| && cur[Idx(d.width, X, Y, c)] == At(d, X, Y, c)
    {
      IdxCompose(d.width, d.height, X, Y, c);
    }
  }

  /** The four bytes composite writes at window pixel (x, y) are CompValue's. */
  lemma {:induction false} CompChannels(d: Frame, src: Frame, p: Placement, x: int, y: int, sx: int, sy: int, r: int, g: int, b: int)
    requires sx == SrcCoord(x, p.scale, src.width) && sy == SrcCoord(y, p.scale, src.height)
    requires var X, Y, a := p.offsetX + x, p.offsetY + y, At(src, sx, sy, 3) as real / 255.0;
      r == BlendByte(At(src, sx, sy, 0), At(d, X, Y, 0), a) &&
      g == BlendByte(At(src, sx, sy, 1), At(d, X, Y, 1), a) &&
      b == BlendByte(At(src, sx, sy, 2), At(d, X, Y, 2), a)
    ensures forall c :: 0 <= c < 4 ==>
      ImageUtils.Channel(c, r, g, b, 255) == CompValue(d, src, p, p.offsetX + x, p.offsetY + y, c)
  {
  }

  /** Painting window pixel (x, y) advances the loops by one pixel. */
  lemma {:induction false} CompStep(d: Frame, src: Frame, p: Placement, x: int, y: int, before: seq<int>, after: seq<int>)
    requires Shaped(d) && |before| == |after| == |d.data|
    requires 0 <= x < p.width && 0 <= y < p.height && InGrid(d.width, d.height, p.offsetX + x, p.offsetY + y)
    requires forall k :: 0 <= k < |before| ==> before[k] == CompSoFar(d, src, p, k, x, y)
    requires forall k :: 0 <= k < |after| ==>
      after[k] == if PixelIs(d.width, k, p.offsetX + x, p.offsetY + y)
                  then CompValue(d, src, p, p.offsetX + x, p.offsetY + y, k % 4) else before[k]
    ensures forall k :: 0 <= k < |after| ==> after[k] == CompSoFar(d, src, p, k, x + 1, y)
  {
  }

  lemma {:induction false} CompRowDone(d: Frame, src: Frame, p: Placement, y: int, a: seq<int>)
    requires Shaped(d) && |a| == |d.data|
    requires forall k :: 0 <= k < |a| ==> a[k] == CompSoFar(d, src, p, k, p.width, y)
    ensures forall k :: 0 <= k < |a| ==> a[k] == CompSoFar(d, src, p, k, 0, y + 1)
  {
  }

  lemma {:induction false} CompAllDone(d: Frame, src: Frame, p: Placement, a: seq<int>)
    requires Shaped(d) && Shaped(src) && |src.data| > 0 && |a| == |d.data|
    requires p == Place(d.width, d.height, src.width, src.height)
    requires forall k :: 0 <= k < |a| ==> a[k] == CompSoFar(d, src, p, k, 0, p.height)
    ensures a == Composited(d, src).data
  {
    var r := Composited(d, src);
    forall k | 0 <= k < |a| ensures a[k] == r.data[k] {
    }
  }

  class FrameBuffer {
    const width: int
    const height: int
    const buffer: array<int>

    ghost predicate Valid()
      reads this
    {
      width >= 0 && height >= 0 && buffer.Length == width * height * 4
    }

    /** Sizes the buffer to width * height * 4 and clears it to black. */
    constructor (width: int, height: int)
      requires width >= 0 && height >= 0
      ensures Valid() && this.width == width && this.height == height && fresh(buffer)
      ensures forall i :: 0 <= i < buffer.Length ==> buffer[i] == 0
    {
      this.width := width;
      this.height := height;
      ImageUtils.MulNonneg(width * height, 4);
      buffer := new int[width * height * 4];
      new;
      Clear();
    }

    /** clear: every byte of the buffer becomes 0. */
    method Clear()
      requires Valid()
      modifies buffer
      ensures Valid()
      ensures forall i :: 0 <= i < buffer.Length ==> buffer[i] == 0
    {
      var i := 0;
      while i < buffer.Length
        invariant 0 <= i <= buffer.Length
        invariant forall j :: 0 <= j < i ==> buffer[j] == 0
      {
        buffer[i] := 0;
        i := i + 1;
      }
    }

    /**
     * rgbaToYuv420: the Y plane from every pixel and, from each pixel with
     * even x and even y, the U and V samples of its 2x2 block. The chroma
     * planes use the rounded-up layout (UvSize, UvIndex), so an odd width or
     * height needs YuvSize bytes; for even sizes this is the source's layout
     * (EvenFrameLayout), and OddFrameOverrunsBuffer shows where the source's
     * own index goes wrong for odd ones.
     */
    static method RgbaToYuv420(rgba: seq<int>, yuv: array<int>, width: int, height: int)
      requires width >= 0 && height >= 0 && |rgba| == width * height * 4 && yuv.Length >= YuvSize(width, height)
      modifies yuv
      ensures yuv[..YuvSize(width, height)] == Yuv420(rgba, width, height)
      ensures yuv[YuvSize(width, height)..] == old(yuv[YuvSize(width, height)..])
    {
      ghost var y0 := yuv[..];
      YuvNoneYet(rgba, width, height, y0);
      var y := 0;
      while y < height
        invariant 0 <= y <= height
        invariant ConvertedBefore(rgba, width, height, y0, yuv[..], y * width)
      {
        ConvertRow(rgba, yuv, width, height, y, y0);
        y := y + 1;
      }
      YuvAllDone(rgba, width, height, y0, yuv[..]);
    }

    /** One row of rgbaToYuv420's loops. */
    static method ConvertRow(rgba: seq<int>, yuv: array<int>, width: int, height: int, y: int, ghost y0: seq<int>)
      requires |rgba| == width * height * 4 && 0 <= y < height && width >= 0
      requires yuv.Length == |y0| >= YuvSize(width, height)
      requires ConvertedBefore(rgba, width, height, y0, yuv[..], y * width)
      modifies yuv
      ensures ConvertedBefore(rgba, width, height, y0, yuv[..], (y + 1) * width)
    {
      var x := 0;
      while x < width
        invariant 0 <= x <= width
        invariant ConvertedBefore(rgba, width, height, y0, yuv[..], y * width + x)
      {
        ghost var before := yuv[..];
        ConvertPixel(rgba, yuv, width, height, x, y);
        YuvStep(rgba, width, height, x, y, y0, before, yuv[..]);
        x := x + 1;
      }
      assert y * width + width == (y + 1) * width;
    }

    /** The body of rgbaToYuv420's loops for pixel (x, y). */
    static method ConvertPixel(rgba: seq<int>, yuv: array<int>, width: int, height: int, x: int, y: int)
      requires |rgba| == width * height * 4 && InGrid(width, height, x, y) && yuv.Length >= YuvSize(width, height)
      modifies yuv
      ensures forall i :: 0 <= i < yuv.Length ==>
        yuv[i] == if i == y * width + x || (x % 2 == 0 && y % 2 == 0 &&
                     (i == width * height + UvIndex(width, x, y) || i == width * height + UvSize(width, height) + UvIndex(width, x, y)))
                  then YuvByte(rgba, width, height, i) else old(yuv[i])
    {
      var ySize := width * height;
      var uvSize := UvSize(width, height);
      var idx := (y * width + x) * 4;
      PixelYuvBytes(rgba, width, height, x, y);
      var r, g, b := rgba[idx], rgba[idx + 1], rgba[idx + 2];
      yuv[y * width + x] := Luma(r, g, b);
      if y % 2 == 0 && x % 2 == 0 {
        var uvIdx := (y / 2) * ((width + 1) / 2) + x / 2;
        yuv[ySize + uvIdx] := ChromaU(r, g, b);
        yuv[ySize + uvSize + uvIdx] := ChromaV(r, g, b);
      }
    }

    /**
     * yuv420ToRgba: every pixel decoded from its luma sample and its block's
     * chroma samples, each channel clamped to [0, 255], alpha 255. It reads
     * the rounded-up chroma layout RgbaToYuv420 writes, the source's own for
     * even sizes.
     */
    static method Yuv420ToRgba(yuv: seq<int>, rgba: array<int>, width: int, height: int)
      requires width >= 0 && height >= 0 && |yuv| >= YuvSize(width, height) && rgba.Length == width * height * 4
      modifies rgba
      ensures rgba[..] == Decoded(yuv, width, height)
    {
      ghost var r0 := rgba[..];
      AllInGrid(width, height);
      var y := 0;
      while y < height
        invariant 0 <= y <= height
        invariant forall k :: 0 <= k < rgba.Length ==> rgba[k] == RgbaSoFar(yuv, width, height, r0, k, 0, y)
      {
        var x := 0;
        while x < width
          invariant 0 <= x <= width
          invariant forall k :: 0 <= k < rgba.Length ==> rgba[k] == RgbaSoFar(yuv, width, height, r0, k, x, y)
        {
          ghost var before := rgba[..];
          DecodePixel(yuv, rgba, width, height, x, y);
          DecodeStep(yuv, width, height, x, y, r0, before, rgba[..]);
          x := x + 1;
        }
        y := y + 1;
      }
      assert rgba[..] == Decoded(yuv, width, height);
    }

    /** The body of yuv420ToRgba's loops for pixel (x, y). */
    static method DecodePixel(yuv: seq<int>, rgba: array<int>, width: int, height: int, x: int, y: int)
      requires InGrid(width, height, x, y) && |yuv| >= YuvSize(width, height) && rgba.Length == width * height * 4
      modifies rgba
      ensures forall k :: 0 <= k < rgba.Length ==>
        rgba[k] == if PixelIs(width, k, x, y) then RgbaByte(yuv, width, height, k) else old(rgba[k])
    {
      var r, g, b := DecodeSamples(yuv, width, height, x, y);
      ImageUtils.PaintPixel(rgba, width, height, x, y, r, g, b, 255);
    }

    /** The colour yuv420ToRgba computes for pixel (x, y), clamped to bytes as it is written. */
    static method DecodeSamples(yuv: seq<int>, width: int, height: int, x: int, y: int) returns (r: int, g: int, b: int)
      requires InGrid(width, height, x, y) && |yuv| >= YuvSize(width, height)
      ensures forall k :: 0 <= k < width * height * 4 && PixelIs(width, k, x, y) ==>
        RgbaByte(yuv, width, height, k) == ImageUtils.Channel(k % 4, r, g, b, 255)
    {
      var p, ui := y * width + x, width * height + UvIndex(width, x, y);
      var vi := ui + UvSize(width, height);
      CellCompose(width, height, x, y);
      UvIndexInPlane(width, height, x, y);
      r, g, b := ConvertSample(yuv[p], yuv[ui], yuv[vi]);
      forall k | 0 <= k < width * height * 4 && PixelIs(width, k, x, y)
        ensures RgbaByte(yuv, width, height, k) == ImageUtils.Channel(k % 4, r, g, b, 255)
      {
        DecodedPixelByte(yuv, width, height, x, y, k);
      }
    }

    /** The BT.601 integer conversion of one (Y, U, V) sample, each channel clamped to a byte. */
    static method ConvertSample(ySample: int, uSample: int, vSample: int) returns (r: int, g: int, b: int)
      ensures r == DecodeRed(ySample, uSample, vSample)
      ensures g == DecodeGreen(ySample, uSample, vSample)
      ensures b == DecodeBlue(ySample, uSample, vSample)
    {
      var Y := ySample - 16;
      var U := uSample - 128;
      var V := vSample - 128;
      r := (298 * Y + 409 * V + 128) / 256;
      g := (298 * Y - 100 * U - 208 * V + 128) / 256;
      b := (298 * Y + 516 * U + 128) / 256;
      DecodeFormulas(Y, U, V);
      r, g, b := Max(0, Min(255, r)), Max(0, Min(255, g)), Max(0, Min(255, b));
    }

    /** One step of rotate: source pixel (x, y) copied to where the angle sends it. */
    static method RotatePixel(src: Frame, degrees: int, a: array<int>, x: int, y: int)
      requires Shaped(src) && InGrid(src.width, src.height, x, y)
      requires RotatedSoFar(src, degrees, a[..], x, y)
      modifies a
      ensures RotatedSoFar(src, degrees, a[..], x + 1, y)
    {
      var w, h := src.width, src.height;
      var srcIdx := (y * w + x) * 4;
      var dstX, dstY;
      if degrees == 90 {
        dstX, dstY := h - 1 - y, x;
      } else if degrees == 180 {
        dstX, dstY := w - 1 - x, h - 1 - y;
      } else if degrees == 270 {
        dstX, dstY := y, w - 1 - x;
      } else {
        dstX, dstY := x, y;
      }
      IdxCompose(w, h, x, y, 3);
      ghost var before := a[..];
      ImageUtils.PaintPixel(a, RotWidth(src, degrees), RotHeight(src, degrees), dstX, dstY,
                            src.data[srcIdx], src.data[srcIdx + 1], src.data[srcIdx + 2], src.data[srcIdx + 3]);
      RotStep(src, degrees, x, y, dstX, dstY, src.data[srcIdx], src.data[srcIdx + 1], src.data[srcIdx + 2], src.data[srcIdx + 3],
              before, a[..]);
    }

    /**
     * rotate: a fresh frame of the rotated size, filled by copying each
     * source pixel (x, y) to where the angle sends it.
     */
    static method Rotate(src: Frame, degrees: int) returns (result: Frame)
      requires Shaped(src)
      ensures result == Rotated(src, degrees)
    {
      var w, h := src.width, src.height;
      var rw, rh := RotWidth(src, degrees), RotHeight(src, degrees);
      ImageUtils.MulNonneg(rw * rh, 4);
      var a := new int[rw * rh * 4](i => 0);
      var y := 0;
      while y < h
        invariant 0 <= y <= h
        invariant RotatedSoFar(src, degrees, a[..], 0, y)
      {
        var x := 0;
        while x < w
          invariant 0 <= x <= w
          invariant RotatedSoFar(src, degrees, a[..], x, y)
        {
          RotatePixel(src, degrees, a, x, y);
          x := x + 1;
        }
        RotRowDone(src, degrees, y, a[..]);
        y := y + 1;
      }
      RotAllDone(src, degrees, a[..]);
      result := Frame(rw, rh, a[..]);
    }

    /**
     * crop: a fresh cropWidth x cropHeight frame; pixel (x, y) copies
     * source pixel (cropX + x, cropY + y) when that pixel exists. Sizing the
     * buffer throws on a negative area (None); a negative side with an area
     * of at least 0 leaves the zeroed buffer.
     */
    static method Crop(src: Frame, cropX: int, cropY: int, cropWidth: int, cropHeight: int) returns (result: Option<Frame>)
      requires Shaped(src)
      ensures result == ImageUtils.Crop(src, cropX, cropY, cropWidth, cropHeight)
    {
      if cropWidth * cropHeight < 0 {
        return None;
      }
      if cropWidth < 0 || cropHeight < 0 {
        return Some(ImageUtils.Unpainted(cropWidth, cropHeight));
      }
      ImageUtils.MulNonneg(cropWidth * cropHeight, 4);
      var a := new int[cropWidth * cropHeight * 4](i => 0);
      var y := 0;
      while y < cropHeight
        invariant 0 <= y <= cropHeight
        invariant forall k :: 0 <= k < a.Length ==> a[k] == CropSoFar(src, cropX, cropY, cropWidth, k, 0, y)
      {
        var x := 0;
        while x < cropWidth
          invariant 0 <= x <= cropWidth
          invariant forall k :: 0 <= k < a.Length ==> a[k] == CropSoFar(src, cropX, cropY, cropWidth, k, x, y)
        {
          var srcX := cropX + x;
          var srcY := cropY + y;
          ghost var before := a[..];
          if srcX >= 0 && srcX < src.width && srcY >= 0 && srcY < src.height {
            var srcIdx := (srcY * src.width + srcX) * 4;
            IdxCompose(src.width, src.height, srcX, srcY, 3);
            ImageUtils.PaintPixel(a, cropWidth, cropHeight, x, y,
                                  src.data[srcIdx], src.data[srcIdx + 1], src.data[srcIdx + 2], src.data[srcIdx + 3]);
            CropStep(src, cropX, cropY, cropWidth, cropHeight, x, y,
                     src.data[srcIdx], src.data[srcIdx + 1], src.data[srcIdx + 2], src.data[srcIdx + 3], before, a[..]);
          } else {
            CropStep(src, cropX, cropY, cropWidth, cropHeight, x, y, 0, 0, 0, 0, before, a[..]);
          }
          x := x + 1;
        }
        CropRowDone(src, cropX, cropY, cropWidth, cropHeight, y, a[..]);
        y := y + 1;
      }
      CropAllDone(src, cropX, cropY, cropWidth, cropHeight, a[..]);
      result := Some(Frame(cropWidth, cropHeight, a[..]));
    }

    /**
     * flipHorizontal: a copy of the source in which, row by row, pixel x
     * trades its four channels one at a time with pixel w-1-x.
     */
    static method FlipHorizontal(src: Frame) returns (result: Frame)
      requires Shaped(src)
      ensures result == ImageUtils.FlippedH(src)
    {
      var w, h := src.width, src.height;
      var a := new int[|src.data|](i requires 0 <= i < |src.data| => src.data[i]);
      ImageUtils.HNoRows(src);
      var y := 0;
      while y < h
        invariant 0 <= y <= h
        invariant ImageUtils.RowsFlipped(a[..], src.data, w, y)
      {
        MirrorRow(a, w, h, y, src.data);
        y := y + 1;
      }
      ImageUtils.HAllRows(src, a[..]);
      result := Frame(w, h, a[..]);
    }

    /** One row of flipHorizontal: pixel x of row y trades places with pixel w-1-x, for x < w / 2. */
    static method MirrorRow(a: array<int>, w: int, h: int, y: int, ghost s: seq<int>)
      requires a.Length == |s| == w * h * 4 && 0 <= y < h
      requires ImageUtils.RowsFlipped(a[..], s, w, y)
      modifies a
      ensures ImageUtils.RowsFlipped(a[..], s, w, y + 1)
    {
      ImageUtils.HRowStart(a[..], s, w, h, y);
      var x := 0;
      while x < w / 2
        invariant 0 <= x <= w / 2
        invariant ImageUtils.PairsFlipped(a[..], s, w, x, y)
      {
        var leftIdx := (y * w + x) * 4;
        var rightIdx := (y * w + (w - 1 - x)) * 4;
        IdxCompose(w, h, x, y, 3);
        IdxCompose(w, h, w - 1 - x, y, 3);
        ghost var before := a[..];
        SwapChannels(a, leftIdx, rightIdx);
        ImageUtils.SwappedMirror(before, a[..], w, h, x, y, leftIdx, rightIdx);
        ImageUtils.MirrorSwapStep(before, a[..], w, h, x, y, s);
        x := x + 1;
      }
      ImageUtils.HRowFinish(a[..], s, w, h, y);
    }

    /** The inner loop of flipHorizontal: swap channel c of the two pixels, c = 0..3. */
    static method SwapChannels(a: array<int>, left: int, right: int)
      requires 0 <= left && left + 4 <= right && right + 4 <= a.Length
      modifies a
      ensures ImageUtils.PixelsSwapped(old(a[..]), a[..], left, right)
    {
      ghost var before := a[..];
      var c := 0;
      while c < 4
        invariant 0 <= c <= 4
        invariant forall k {:trigger a[k]} :: 0 <= k < a.Length ==>
          a[k] == if left <= k < left + c then before[right + (k - left)]
                  else if right <= k < right + c then before[left + (k - right)]
                  else before[k]
      {
        a[left + c], a[right + c] := a[right + c], a[left + c];
        c := c + 1;
      }
    }

    /**
     * blend: mixes the colour bytes of src over dest with weight alpha,
     * for the pixels both buffers hold; alpha bytes are not touched.
     */
    static method Blend(dest: array<int>, src: seq<int>, alpha: real)
      requires AllBytes(dest[..]) && AllBytes(src)
      modifies dest
      ensures dest[..] == Blended(old(dest[..]), src, alpha)
    {
      ghost var d := dest[..];
      var pixelCount := Min(dest.Length, |src|) / 4;
      var i := 0;
      while i < pixelCount
        invariant 0 <= i <= pixelCount
        invariant forall k :: 0 <= k < dest.Length ==>
          dest[k] == if k / 4 < i && k % 4 != 3 then BlendByte(src[k], d[k], alpha) else d[k]
      {
        var idx := i * 4;
        dest[idx + 0] := BlendByte(src[idx + 0], dest[idx + 0], alpha);
        dest[idx + 1] := BlendByte(src[idx + 1], dest[idx + 1], alpha);
        dest[idx + 2] := BlendByte(src[idx + 2], dest[idx + 2], alpha);
        i := i + 1;
      }
    }

    /**
     * composite: scales the source to fit inside the destination, centres
     * it, and blends each of its pixels (nearest neighbour) over the
     * destination by the source pixel's own alpha.
     */
    static method Composite(dest: array<int>, destWidth: int, destHeight: int, src: Frame)
      requires Shaped(src) && destWidth >= 0 && destHeight >= 0 && dest.Length == destWidth * destHeight * 4
      modifies dest
      ensures dest[..] == Composited(Frame(destWidth, destHeight, old(dest[..])), src).data
    {
      ghost var d := Frame(destWidth, destHeight, dest[..]);
      if |src.data| == 0 {
        return;
      }
      NonEmptySource(src);
      var p := ComputePlacement(destWidth, destHeight, src.width, src.height);
      CompStart(d, src, p);
      var y := 0;
      while y < p.height
        invariant 0 <= y <= p.height
        invariant forall k :: 0 <= k < dest.Length ==> dest[k] == CompSoFar(d, src, p, k, 0, y)
      {
        CompositeRow(dest, destWidth, destHeight, d, src, p, y);
        y := y + 1;
      }
      CompAllDone(d, src, p, dest[..]);
    }

    /** The scale, scaled size and centring offsets composite computes before its loops. */
    static method ComputePlacement(dstWidth: int, dstHeight: int, srcWidth: int, srcHeight: int) returns (p: Placement)
      requires srcWidth > 0 && srcHeight > 0
      ensures p == Place(dstWidth, dstHeight, srcWidth, srcHeight)
    {
      var scaleX := dstWidth as real / srcWidth as real;
      var scaleY := dstHeight as real / srcHeight as real;
      var scale := if scaleY < scaleX then scaleY else scaleX;
      assert scale == FitScale(dstWidth, dstHeight, srcWidth, srcHeight);
      var scaledWidth := Scaled(srcWidth, scale);
      var scaledHeight := Scaled(srcHeight, scale);
      var offsetX := Centred(dstWidth, scaledWidth);
      var offsetY := Centred(dstHeight, scaledHeight);
      p := Placement(scale, scaledWidth, scaledHeight, offsetX, offsetY);
    }

    /** The inner loop of composite: row y of the window, x = 0 .. scaledWidth - 1. */
    static method CompositeRow(dest: array<int>, dstWidth: int, dstHeight: int, ghost d: Frame, src: Frame, p: Placement, y: int)
      requires Shaped(d) && Shaped(src) && |src.data| > 0 && d.width == dstWidth && d.height == dstHeight && dest.Length == |d.data|
      requires p == Place(d.width, d.height, src.width, src.height) && 0 <= y < p.height
      requires forall k :: 0 <= k < dest.Length ==> dest[k] == CompSoFar(d, src, p, k, 0, y)
      modifies dest
      ensures forall k :: 0 <= k < dest.Length ==> dest[k] == CompSoFar(d, src, p, k, 0, y + 1)
    {
      PlacementFits(d.width, d.height, src.width, src.height, p);
      var x := 0;
      while x < p.width
        invariant 0 <= x <= p.width
        invariant forall k :: 0 <= k < dest.Length ==> dest[k] == CompSoFar(d, src, p, k, x, y)
      {
        ghost var before := dest[..];
        var X, Y := p.offsetX + x, p.offsetY + y;
        CompReads(d, src, p, x, y, X, Y, dest[..]);
        CompositePixel(dest, dstWidth, dstHeight, d, src, p, x, y, X, Y);
        CompStep(d, src, p, x, y, before, dest[..]);
        x := x + 1;
      }
      CompRowDone(d, src, p, y, dest[..]);
    }

    /** The source pixel composite samples for window position (x, y): x / scale truncated, capped. */
    static method SourcePixel(ghost d: Frame, src: Frame, p: Placement, x: int, y: int) returns (srcX: int, srcY: int)
      requires Shaped(d) && Shaped(src) && |src.data| > 0
      requires p == Place(d.width, d.height, src.width, src.height) && 0 <= x < p.width && 0 <= y < p.height
      ensures srcX == SrcCoord(x, p.scale, src.width) && srcY == SrcCoord(y, p.scale, src.height)
      ensures InGrid(src.width, src.height, srcX, srcY)
    {
      WindowSample(d.width, d.height, src, p, x, y);
      srcX := Trunc(x as real / p.scale);
      srcY := Trunc(y as real / p.scale);
      if srcX >= src.width {
        srcX := src.width - 1;
      }
      if srcY >= src.height {
        srcY := src.height - 1;
      }
    }

    /**
     * The body of composite's loops for window position (x, y), which is
     * destination pixel (X, Y); its bytes still hold the destination's own.
     */
    static method CompositePixel(dest: array<int>, dstWidth: int, dstHeight: int, ghost d: Frame, src: Frame, p: Placement,
                                 x: int, y: int, X: int, Y: int)
      requires Shaped(d) && Shaped(src) && |src.data| > 0 && d.width == dstWidth && d.height == dstHeight && dest.Length == |d.data|
      requires p == Place(d.width, d.height, src.width, src.height) && 0 <= x < p.width && 0 <= y < p.height
      requires X == p.offsetX + x && Y == p.offsetY + y && InGrid(dstWidth, dstHeight, X, Y)
      requires forall c :: 0 <= c < 4 ==> 0 <= Idx(dstWidth, X, Y, c) < dest.Length && dest[Idx(dstWidth, X, Y, c)] == At(d, X, Y, c)
      modifies dest
      ensures forall k :: 0 <= k < dest.Length ==>
        dest[k] == if PixelIs(dstWidth, k, X, Y) then CompValue(d, src, p, X, Y, k % 4) else old(dest[k])
    {
      var srcX, srcY := SourcePixel(d, src, p, x, y);
      BlendPixel(dest, dstWidth, dstHeight, d, src, p, x, y, X, Y, srcX, srcY);
    }

    /** The blending half of composite's loop body: destination pixel (X, Y) over source pixel (srcX, srcY). */
    static method BlendPixel(dest: array<int>, dstWidth: int, dstHeight: int, ghost d: Frame, src: Frame, p: Placement,
                             x: int, y: int, X: int, Y: int, srcX: int, srcY: int)
      requires Shaped(d) && Shaped(src) && d.width == dstWidth && d.height == dstHeight && dest.Length == |d.data|
      requires X == p.offsetX + x && Y == p.offsetY + y && InGrid(dstWidth, dstHeight, X, Y)
      requires srcX == SrcCoord(x, p.scale, src.width) && srcY == SrcCoord(y, p.scale, src.height)
      requires InGrid(src.width, src.height, srcX, srcY)
      requires forall c :: 0 <= c < 4 ==> 0 <= Idx(dstWidth, X, Y, c) < dest.Length && dest[Idx(dstWidth, X, Y, c)] == At(d, X, Y, c)
      modifies dest
      ensures forall k :: 0 <= k < dest.Length ==>
        dest[k] == if PixelIs(dstWidth, k, X, Y) then CompValue(d, src, p, X, Y, k % 4) else old(dest[k])
    {
      var dstIdx := Idx(dstWidth, X, Y, 0);
      var srcIdx := Idx(src.width, srcX, srcY, 0);
      PixelBytes(src, srcX, srcY);
      if dstIdx + 3 < dest.Length && srcIdx + 3 < |src.data| {
        var srcAlpha := src.data[srcIdx + 3];
        var alpha := srcAlpha as real / 255.0;
        assert dest[dstIdx] == At(d, X, Y, 0) && dest[dstIdx + 1] == At(d, X, Y, 1) && dest[dstIdx + 2] == At(d, X, Y, 2);
        var r := BlendByte(src.data[srcIdx + 0], dest[dstIdx + 0], alpha);
        var g := BlendByte(src.data[srcIdx + 1], dest[dstIdx + 1], alpha);
        var b := BlendByte(src.data[srcIdx + 2], dest[dstIdx + 2], alpha);
        CompChannels(d, src, p, x, y, srcX, srcY, r, g, b);
        ImageUtils.PaintPixel(dest, dstWidth, dstHeight, X, Y, r, g, b, 255);
      }
    }

    /**
     * flipVertical: the same row-swapping loops as ImageUtils.flipV (row y
     * trades its w * 4 bytes, one at a time, with row h-1-y).
     */
    static method FlipVertical(src: Frame) returns (result: Frame)
      requires Shaped(src)
      ensures result == ImageUtils.FlippedV(src)
    {
      result := ImageUtils.FlipV(src);
    }
  }
}
