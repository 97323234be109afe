/** Decode-time sizing arithmetic of BitmapUtils: the byte size of an ARGB
    bitmap, the two inSampleSize policies and the power-of-two helper.

    The Java code goes through float and double arithmetic (Math.round,
    Math.ceil, Math.log, Math.pow); here each is the exact integer operation
    it approximates. */
module SampleSize {

  /** Largest value of a Java `int`. */
  const IntMax: int := 0x7fff_ffff

  /** Bytes per pixel of an ARGB_8888 bitmap. */
  const BytesPerPixel: int := 4

  /** The failure `Preconditions.checkArgument` raises. */
  datatype Error = IllegalArgument

  datatype Result<T> = Success(value: T) | Failure(error: Error)

  /** The probe-only result of decoding with inJustDecodeBounds: the
      dimensions of the source before any downsampling. */
  datatype DecodeBounds = DecodeBounds(outWidth: int, outHeight: int)

  // ---------------------------------------------------------------------
  // getSize(int, int)
  // ---------------------------------------------------------------------

  /** Byte occupation of a width x height ARGB_8888 bitmap. Java `int`
      overflow is excluded by the precondition instead of being modelled. */
  function GetSize(width: int, height: int): (bytes: int)
    requires 0 <= width && 0 <= height
    requires width * height * BytesPerPixel <= IntMax
    ensures 0 <= bytes <= IntMax
    ensures bytes % BytesPerPixel == 0
    ensures bytes / BytesPerPixel == width * height
  {
    width * height * 4
  }

  /** Row stride, in bytes, of an ARGB_8888 bitmap (what getRowBytes reports). */
  function RowBytes(width: nat): nat
  {
    BytesPerPixel * width
  }

  /** getSize(int, int) agrees with getSize(Bitmap), rowBytes * height, for
      a bitmap stored without row padding. */
  lemma GetSizeIsRowBytesTimesHeight(width: nat, height: nat)
    requires width * height * BytesPerPixel <= IntMax
    ensures GetSize(width, height) == RowBytes(width) * height
  {
  }

  // ---------------------------------------------------------------------
  // Powers of two
  // ---------------------------------------------------------------------

  function Pow2(k: nat): (p: nat)
    ensures p >= 1
  {
    if k == 0 then 1 else 2 * Pow2(k - 1)
  }

  predicate IsPowerOfTwo(n: int)
    decreases if n < 0 then 0 else n
  {
    n == 1 || (n >= 2 && n % 2 == 0 && IsPowerOfTwo(n / 2))
  }

  lemma {:induction false} Pow2IsPowerOfTwo(k: nat)
    ensures IsPowerOfTwo(Pow2(k))
  {
    if k > 0 {
      Pow2IsPowerOfTwo(k - 1);
      assert Pow2(k) / 2 == Pow2(k - 1);
    }
  }

  /** floor(log2(n)), the integer value of Math.floor(Math.log(n) / Math.log(2)). */
  function FloorLog2(n: int): (k: nat)
    requires n >= 1
    ensures Pow2(k) <= n < 2 * Pow2(k)
  {
    if n == 1 then 0 else 1 + FloorLog2(n / 2)
  }

  /** The value of `n & -n` for a positive Java int: its lowest set bit. */
  function LowestOneBit(n: int): (b: int)
    requires n >= 1
    ensures 1 <= b <= n
  {
    if n % 2 == 1 then 1 else 2 * LowestOneBit(n / 2)
  }

  /** The test `(n & -n) != n` of calculateInSampleSize is exactly "n is not a
      power of two". */
  lemma {:induction false} LowestOneBitIsSelfIffPowerOfTwo(n: int)
    requires n >= 1
    ensures LowestOneBit(n) == n <==> IsPowerOfTwo(n)
  {
    if n % 2 == 0 {
      LowestOneBitIsSelfIffPowerOfTwo(n / 2);
    }
  }

  // ---------------------------------------------------------------------
  // getNextLowerTwoPow
  // ---------------------------------------------------------------------

  /** getNextLowerTwoPow: a negative argument fails the argument check; 0
      gives 2^floor(log 0) = 2^-infinity, which the cast to int makes 0;
      otherwise the largest power of two not above the argument. */
  function GetNextLowerTwoPow(number: int): (r: Result<int>)
    ensures r.Failure? <==> number < 0
    ensures number == 0 ==> r == Success(0)
    ensures number >= 1 ==> r.Success? && IsPowerOfTwo(r.value)
                            && r.value <= number < 2 * r.value
  {
    if number < 0 then Failure(IllegalArgument)
    else if number == 0 then Success(0)
    else
      var k := FloorLog2(number);
      Pow2IsPowerOfTwo(k);
      Success(Pow2(k))
  }

  /** getNextLowerTwoPow is the identity on powers of two. */
  lemma {:induction false} NextLowerTwoPowOfPowerOfTwo(n: int)
    requires IsPowerOfTwo(n)
    ensures n >= 1 && GetNextLowerTwoPow(n) == Success(n)
  {
    if n != 1 {
      NextLowerTwoPowOfPowerOfTwo(n / 2);
      assert FloorLog2(n) == 1 + FloorLog2(n / 2);
    }
  }

  /** The power of two below n is unique: any power of two p with p <= n < 2p
      is the one getNextLowerTwoPow returns. */
  lemma {:induction false} NextLowerTwoPowUnique(n: int, p: int)
    requires IsPowerOfTwo(p) && p <= n < 2 * p
    ensures GetNextLowerTwoPow(n) == Success(p)
  {
    if p != 1 {
      assert n >= 2;
      NextLowerTwoPowUnique(n / 2, p / 2);
      assert FloorLog2(n) == 1 + FloorLog2(n / 2);
    }
  }

  // ---------------------------------------------------------------------
  // calculateInSampleSize ("fit inside")
  // ---------------------------------------------------------------------

  /** Math.round(a / b) for b > 0: round half up, floor(a/b + 1/2). */
  function RoundHalfUp(a: int, b: int): (q: int)
    requires b > 0
    ensures b * (2 * q - 1) <= 2 * a < b * (2 * q + 1)
  {
    var q := (2 * a + b) / (2 * b);
    assert 2 * b * q <= 2 * a + b < 2 * b * (q + 1);
    q
  }

  /** The factor calculateInSampleSize starts from, before any snapping: 1
      when the image already fits, else the rounded ratio of the shorter
      side (height in landscape, width otherwise) to its request. */
  function RawInSampleSize(bounds: DecodeBounds, reqWidth: int, reqHeight: int): (raw: int)
    requires reqWidth > 0 && reqHeight > 0
    ensures bounds.outHeight <= reqHeight && bounds.outWidth <= reqWidth ==> raw == 1
    ensures (bounds.outHeight > reqHeight || bounds.outWidth > reqWidth) && bounds.outWidth > bounds.outHeight
            ==> reqHeight * (2 * raw - 1) <= 2 * bounds.outHeight < reqHeight * (2 * raw + 1)
    ensures (bounds.outHeight > reqHeight || bounds.outWidth > reqWidth) && bounds.outWidth <= bounds.outHeight
            ==> reqWidth * (2 * raw - 1) <= 2 * bounds.outWidth < reqWidth * (2 * raw + 1)
  {
    var height := bounds.outHeight;
    var width := bounds.outWidth;
    if height > reqHeight || width > reqWidth then
      if width > height then RoundHalfUp(height, reqHeight) else RoundHalfUp(width, reqWidth)
    else
      1
  }

  /** calculateInSampleSize: the raw factor, snapped down to a power of two
      when it is above 3 and not already one. */
  function CalculateInSampleSize(bounds: DecodeBounds, reqWidth: int, reqHeight: int): (s: int)
    requires reqWidth > 0 && reqHeight > 0
    ensures var raw := RawInSampleSize(bounds, reqWidth, reqHeight);
            raw <= 3 ==> s == raw
    ensures var raw := RawInSampleSize(bounds, reqWidth, reqHeight);
            raw > 3 ==> IsPowerOfTwo(s) && s <= raw < 2 * s
    ensures var raw := RawInSampleSize(bounds, reqWidth, reqHeight);
            IsPowerOfTwo(raw) ==> s == raw
  {
    var inSampleSize := RawInSampleSize(bounds, reqWidth, reqHeight);
    if inSampleSize > 3 then
      LowestOneBitIsSelfIffPowerOfTwo(inSampleSize);
      if LowestOneBit(inSampleSize) != inSampleSize then
        GetNextLowerTwoPow(inSampleSize).value
      else
        inSampleSize
    else
      inSampleSize
  }

  /** An image that already fits its request is decoded at full size. */
  lemma InSampleSizeOfFittingImage(bounds: DecodeBounds, reqWidth: int, reqHeight: int)
    requires reqWidth > 0 && reqHeight > 0
    requires bounds.outHeight <= reqHeight && bounds.outWidth <= reqWidth
    ensures CalculateInSampleSize(bounds, reqWidth, reqHeight) == 1
  {
  }

  /** Above 3 the factor is the largest power of two not above the raw factor. */
  lemma InSampleSizeIsNextLowerTwoPow(bounds: DecodeBounds, reqWidth: int, reqHeight: int)
    requires reqWidth > 0 && reqHeight > 0
    requires RawInSampleSize(bounds, reqWidth, reqHeight) > 3
    ensures GetNextLowerTwoPow(RawInSampleSize(bounds, reqWidth, reqHeight))
            == Success(CalculateInSampleSize(bounds, reqWidth, reqHeight))
  {
    var raw := RawInSampleSize(bounds, reqWidth, reqHeight);
    NextLowerTwoPowUnique(raw, CalculateInSampleSize(bounds, reqWidth, reqHeight));
  }

  // ---------------------------------------------------------------------
  // calculateMaxInSampleSize ("bounded max")
  // ---------------------------------------------------------------------

  /** (int) Math.ceil(a / (double) m) for m > 0. */
  function CeilDiv(a: int, m: int): (q: int)
    requires m > 0
    ensures m * (q - 1) < a <= m * q
  {
    var q := (a + m - 1) / m;
    assert m * q <= a + m - 1 < m * (q + 1);
    q
  }

  function Max(a: int, b: int): int
  {
    if a >= b then a else b
  }

  /** calculateMaxInSampleSize: 1 when both sides fit maxSide, otherwise the
      least factor that brings the longer side down to maxSide. It is never
      snapped to a power of two. */
  function CalculateMaxInSampleSize(bounds: DecodeBounds, maxSide: int): (s: int)
    requires maxSide > 0
    ensures bounds.outWidth <= maxSide && bounds.outHeight <= maxSide ==> s == 1
    ensures bounds.outWidth > maxSide || bounds.outHeight > maxSide ==>
              s >= 2
              && Max(bounds.outWidth, bounds.outHeight) <= s * maxSide
              && (s - 1) * maxSide < Max(bounds.outWidth, bounds.outHeight)
  {
    var height := bounds.outHeight;
    var width := bounds.outWidth;
    if height > maxSide || width > maxSide then
      if width > height then CeilDiv(width, maxSide) else CeilDiv(height, maxSide)
    else
      1
  }

  /** Multiplying by a positive number keeps a strict order, both ways. */
  lemma MulLtCancel(a: int, b: int, w: int)
    requires w > 0 && a * w < b * w
    ensures a < b
  {
    assert (b - a) * w > 0;
  }

  /** A ceiling quotient is at most c exactly when the dividend is at most s * c. */
  lemma CeilDivAtMost(a: int, s: int, c: int)
    requires s > 0 && a <= s * c
    ensures CeilDiv(a, s) <= c
  {
    var q := CeilDiv(a, s);
    MulLtCancel(q - 1, c, s);
  }

  /** Applied to the longer side, the factor keeps that side within maxSide
      in a downsampled decode that rounds up: ceil(side / s) <= maxSide. */
  lemma MaxInSampleSizeBoundsLongerSide(bounds: DecodeBounds, maxSide: int)
    requires maxSide > 0
    ensures var s := CalculateMaxInSampleSize(bounds, maxSide);
            s >= 1 && CeilDiv(Max(bounds.outWidth, bounds.outHeight), s) <= maxSide
  {
    var s := CalculateMaxInSampleSize(bounds, maxSide);
    CeilDivAtMost(Max(bounds.outWidth, bounds.outHeight), s, maxSide);
  }
}
