/** Bitmaps as BitmapUtils handles them: a grid of height x width ARGB
    pixels (`array2`, rows first), and the row-major pixel buffer that
    `getPixels` and `setPixels` exchange with it when called with offset 0,
    stride = width and the whole bitmap as the region. */
module Bitmaps {
  import opened Argb
  import SampleSize

  // ---------------------------------------------------------------------
  // Row-major layout
  // ---------------------------------------------------------------------

  /** A buffer of h rows of w pixels, row-major, row stride w. */
  lemma RowMajorIndex(y: int, x: int, w: int, h: int)
    requires 0 <= y < h && 0 <= x < w
    ensures 0 <= y * w + x < w * h
    ensures y * w + w <= w * h
  {
    assert (y + 1) * w <= h * w;
  }

  lemma ColumnIndices(x: int, w: int, h: int)
    requires 0 <= x < w
    ensures forall y :: 0 <= y < h ==> 0 <= y * w + x < w * h
  {
    forall y | 0 <= y < h
      ensures 0 <= y * w + x < w * h
    {
      RowMajorIndex(y, x, w, h);
    }
  }

  lemma RowMajorCoordinates(k: int, w: int, h: int)
    requires w > 0 && 0 <= k < w * h
    ensures 0 <= k / w < h && 0 <= k % w < w && k == (k / w) * w + k % w
  {
    SampleSize.MulLtCancel(k / w, h, w);
  }

  lemma RowMajorUnique(y: int, x: int, w: int)
    requires w > 0 && 0 <= y && 0 <= x < w
    ensures (y * w + x) / w == y && (y * w + x) % w == x
  {
    var k := y * w + x;
    var q, m := k / w, k % w;
    assert q * w + m == y * w + x;
    SampleSize.MulLtCancel(q, y + 1, w);
    SampleSize.MulLtCancel(y, q + 1, w);
  }

  // ---------------------------------------------------------------------
  // Bitmaps and their pixel buffers
  // ---------------------------------------------------------------------

  /** The pixels of bm, row after row: pixel (y, x) at index y * width + x. */
  ghost function Pixels(bm: array2<Pixel>): (s: seq<Pixel>)
    reads bm
    ensures |s| == bm.Length1 * bm.Length0
  {
    var h, w := bm.Length0, bm.Length1;
    seq(w * h, k requires 0 <= k < w * h reads bm =>
      RowMajorCoordinates(k, w, h);
      bm[k / w, k % w])
  }

  /** `Bitmap.copy`: a new bitmap of the same size and pixels. */
  method CopyBitmap(src: array2<Pixel>) returns (dst: array2<Pixel>)
    ensures fresh(dst)
    ensures dst.Length0 == src.Length0 && dst.Length1 == src.Length1
    ensures forall y, x :: 0 <= y < src.Length0 && 0 <= x < src.Length1 ==> dst[y, x] == src[y, x]
    ensures Pixels(dst) == Pixels(src)
  {
    var h, w := src.Length0, src.Length1;
    dst := new Pixel[h, w]((y, x) requires 0 <= y < h && 0 <= x < w reads src => src[y, x]);
    forall k | 0 <= k < w * h
      ensures Pixels(dst)[k] == Pixels(src)[k]
    {
      RowMajorCoordinates(k, w, h);
    }
  }

  /** `getPixels(pix, 0, w, 0, 0, w, h)` into a new buffer of w * h pixels. */
  method GetPixels(bm: array2<Pixel>) returns (pix: array<Pixel>)
    ensures fresh(pix)
    ensures pix[..] == Pixels(bm)
  {
    var h, w := bm.Length0, bm.Length1;
    pix := new Pixel[w * h];
    var k := 0;
    while k < w * h
      invariant 0 <= k <= w * h
      invariant pix[..k] == Pixels(bm)[..k]
    {
      RowMajorCoordinates(k, w, h);
      pix[k] := bm[k / w, k % w];
      k := k + 1;
    }
  }

  /** `setPixels(pix, 0, w, 0, 0, w, h)`: every pixel of bm from the buffer. */
  method SetPixels(bm: array2<Pixel>, pix: array<Pixel>)
    requires pix.Length == bm.Length1 * bm.Length0
    modifies bm
    ensures Pixels(bm) == pix[..]
  {
    var h, w := bm.Length0, bm.Length1;
    var k := 0;
    while k < w * h
      invariant 0 <= k <= w * h
      invariant forall j :: 0 <= j < k ==> Pixels(bm)[j] == pix[j]
    {
      RowMajorCoordinates(k, w, h);
      bm[k / w, k % w] := pix[k];
      k := k + 1;
    }
  }

  /** The offset of row a + 1 is w past that of row a. */
  lemma MulAddOne(a: int, w: int)
    ensures (a + 1) * w == a * w + w
  {
  }

  /** Past the last of h rows the offset is the length of the buffer. */
  lemma RowsEnd(yw: int, w: int, h: int)
    requires yw == h * w
    ensures yw == w * h
  {
  }

  lemma MulMonotone(a: int, b: int, w: int)
    requires 0 <= a <= b && 0 <= w
    ensures a * w <= b * w
  {
    assert (b - a) * w >= 0;
  }
}
