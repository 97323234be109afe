/** Square cropping of profile pictures: cropSquaredBitmap,
    cropProfileBitmap(Bitmap) and cropProfileBitmap(String, int).

    The geometry of the crop is a value: the side of the square and the
    offsets of its window in the source. Without rotation the crop is a
    window copy of the source's pixels; a rotated crop goes through a
    Matrix with bilinear filtering, of which only the geometry is modelled. */
module SquareCrop {
  import opened SampleSize
  import opened Orientation
  import opened DecodePlan
  import opened Argb
  import opened Bitmaps

  /** The shorter side of a width by height picture. */
  function ShorterSide(width: int, height: int): int
  {
    if width <= height then width else height
  }

  /** The square window cropSquaredBitmap takes: squaredSize pixels a side,
      cropOffset pixels from the left edge and vertOffset from the top. */
  datatype CropGeometry = CropGeometry(squaredSize: int, cropOffset: int, vertOffset: int)

  /** The window fits inside a width by height source. */
  predicate WindowFits(g: CropGeometry, width: int, height: int)
  {
    0 <= g.cropOffset && g.cropOffset + g.squaredSize <= width
    && 0 <= g.vertOffset && g.vertOffset + g.squaredSize <= height
  }

  /** The cropping calculations of cropSquaredBitmap. A portrait picture
      keeps its full width and loses its bottom, below a one-pixel inset
      from the top edge; any other keeps its full height and is cut to the
      centre, the odd pixel of a difference going to the right margin. */
  function SquaredCropGeometry(width: int, height: int): (g: CropGeometry)
    requires width >= 1 && height >= 1
    ensures g.squaredSize == ShorterSide(width, height) && g.squaredSize >= 1
    ensures WindowFits(g, width, height)
    ensures height > width ==> g.cropOffset == 0 && g.vertOffset == 1
    ensures height <= width ==>
              g.vertOffset == 0
              && var rightMargin := width - (g.cropOffset + g.squaredSize);
                 rightMargin == g.cropOffset || rightMargin == g.cropOffset + 1
  {
    var portrait := height > width;
    if portrait then
      CropGeometry(width, 0, 1)
    else
      CropGeometry(height, (width - height) / 2, 0)
  }

  /** The whole picture is its own window exactly when it is square. */
  lemma WindowIsWholePictureIffSquare(width: int, height: int)
    requires width >= 1 && height >= 1
    ensures var g := SquaredCropGeometry(width, height);
            (g.cropOffset == 0 && g.vertOffset == 0 && g.squaredSize == width && g.squaredSize == height)
            <==> width == height
  {
  }

  /** What cropSquaredBitmap returns: the bitmap it was given, or a new
      bitmap made from the window turned by rotateValue degrees. */
  datatype Crop = Original | Window(geometry: CropGeometry, rotateValue: int)

  /** The decision of cropSquaredBitmap(bitmap, rotateValue) for a width by
      height bitmap. Its test also asks for a zero horizontal offset, which
      a square picture always has. */
  function CropSquaredBitmap(width: int, height: int, rotateValue: int): (c: Crop)
    requires width >= 1 && height >= 1
    ensures c.Original? <==> rotateValue == 0 && width == height
    ensures c.Window? ==>
              c.rotateValue == rotateValue
              && c.geometry == SquaredCropGeometry(width, height)
              && c.geometry.squaredSize == ShorterSide(width, height)
              && WindowFits(c.geometry, width, height)
  {
    var g := SquaredCropGeometry(width, height);
    if rotateValue == 0 && g.cropOffset == 0 && width == height then Original
    else Window(g, rotateValue)
  }

  /** The decision of cropProfileBitmap(Bitmap): a square bitmap comes back
      as it is, any other is cropped without rotation. */
  function CropProfileBitmap(width: int, height: int): (c: Crop)
    requires width >= 1 && height >= 1
    ensures c.Original? <==> width == height
  {
    if width == height then Original
    else CropSquaredBitmap(width, height, 0)
  }

  /** The early return of cropProfileBitmap(Bitmap) decides nothing that
      cropSquaredBitmap with rotation 0 would not. */
  lemma CropProfileIsUnrotatedCrop(width: int, height: int)
    requires width >= 1 && height >= 1
    ensures CropProfileBitmap(width, height) == CropSquaredBitmap(width, height, 0)
  {
  }

  /** The size of the bitmap a crop returns, for a width by height input. */
  function CropSize(width: int, height: int, c: Crop): Dims
  {
    match c
    case Original => Dims(width, height)
    case Window(g, rotateValue) => Dims(g.squaredSize, g.squaredSize)
  }

  /** For every rotation getRotationFromOrientation gives, the cropped
      picture is a square whose side is the input's shorter side. */
  lemma CropIsSquare(width: int, height: int, rotateValue: int)
    requires width >= 1 && height >= 1
    requires rotateValue in {0, 90, 180, 270}
    ensures var d := CropSize(width, height, CropSquaredBitmap(width, height, rotateValue));
            d.width == d.height == ShorterSide(width, height)
  {
    var c := CropSquaredBitmap(width, height, rotateValue);
    if c.Original? {
      assert width == height;
    }
  }

  // ---------------------------------------------------------------------
  // Pixels
  // ---------------------------------------------------------------------

  /** `Bitmap.createBitmap(source, x, y, side, side)` with an identity
      matrix: a new bitmap holding the side by side window of source whose
      top left corner is at (x, y). */
  method CreateBitmapWindow(source: array2<Pixel>, x: int, y: int, side: int) returns (window: array2<Pixel>)
    requires 0 <= x && 0 <= y && 0 <= side
    requires x + side <= source.Length1 && y + side <= source.Length0
    ensures fresh(window)
    ensures window.Length0 == side && window.Length1 == side
    ensures forall i, j :: 0 <= i < side && 0 <= j < side ==> window[i, j] == source[y + i, x + j]
  {
    window := new Pixel[side, side]((i, j) requires 0 <= i < side && 0 <= j < side reads source =>
                                      source[y + i, x + j]);
  }

  /** cropSquaredBitmap(bitmap, 0), the crop without rotation: bitmap
      itself when it is square, otherwise a new bitmap holding its square
      window. The input is never changed. */
  method CropSquaredBitmapUnrotated(bitmap: array2<Pixel>) returns (cropped: array2<Pixel>)
    requires bitmap.Length0 >= 1 && bitmap.Length1 >= 1
    ensures cropped == bitmap <==> bitmap.Length0 == bitmap.Length1
    ensures cropped != bitmap ==>
              var g := SquaredCropGeometry(bitmap.Length1, bitmap.Length0);
              fresh(cropped)
              && cropped.Length0 == g.squaredSize && cropped.Length1 == g.squaredSize
              && forall i, j :: 0 <= i < g.squaredSize && 0 <= j < g.squaredSize ==>
                   cropped[i, j] == bitmap[g.vertOffset + i, g.cropOffset + j]
  {
    var width, height := bitmap.Length1, bitmap.Length0;
    match CropSquaredBitmap(width, height, 0)
    case Original =>
      cropped := bitmap;
    case Window(g, _) =>
      cropped := CreateBitmapWindow(bitmap, g.cropOffset, g.vertOffset, g.squaredSize);
  }

  /** cropProfileBitmap(Bitmap): bitmap itself when it is square, otherwise
      its square window without rotation. */
  method CropProfileBitmapPixels(bitmap: array2<Pixel>) returns (cropped: array2<Pixel>)
    requires bitmap.Length0 >= 1 && bitmap.Length1 >= 1
    ensures cropped == bitmap <==> bitmap.Length0 == bitmap.Length1
    ensures cropped != bitmap ==>
              var g := SquaredCropGeometry(bitmap.Length1, bitmap.Length0);
              fresh(cropped)
              && cropped.Length0 == cropped.Length1 == ShorterSide(bitmap.Length1, bitmap.Length0)
              && forall i, j :: 0 <= i < g.squaredSize && 0 <= j < g.squaredSize ==>
                   cropped[i, j] == bitmap[g.vertOffset + i, g.cropOffset + j]
  {
    if bitmap.Length1 == bitmap.Length0 {
      return bitmap;
    } else {
      cropped := CropSquaredBitmapUnrotated(bitmap);
    }
  }

  // ---------------------------------------------------------------------
  // cropProfileBitmap(String, int)
  // ---------------------------------------------------------------------

  /** What cropProfileBitmap(path, maxSide) does once the orientation code
      and the probed bounds are known: the inSampleSize it decodes at, and
      the crop of the decoded bitmap. */
  datatype ProfileCrop = ProfileCrop(inSampleSize: int, crop: Crop)

  /** cropProfileBitmap(path, maxSide), given the Exif orientation code, the
      bounds of the first decode and the size of the second, sampled decode
      (None when the decoder gives null): null when decoding fails,
      otherwise the decoded bitmap cropped with the orientation's
      rotation. */
  function CropProfileBitmapFromPath(orientation: int, bounds: DecodeBounds, maxSide: int,
                                     decoded: Option<Dims>): (r: Option<ProfileCrop>)
    requires maxSide > 0
    requires decoded.Some? ==> decoded.value.width >= 1 && decoded.value.height >= 1
    ensures r.None? <==> decoded.None?
    ensures r.Some? ==>
              r.value.inSampleSize == CalculateMaxInSampleSize(bounds, maxSide)
              && r.value.crop == CropSquaredBitmap(decoded.value.width, decoded.value.height,
                                                   GetRotationFromOrientation(orientation))
  {
    var rotateValue := GetRotationFromOrientation(orientation);
    var inSampleSize := CalculateMaxInSampleSize(bounds, maxSide);
    if decoded.None? then None
    else
      var d := decoded.value;
      Some(ProfileCrop(inSampleSize, CropSquaredBitmap(d.width, d.height, rotateValue)))
  }

  /** When the decoder shrinks each side by the sample size, rounding up,
      the profile picture is a square no larger than maxSide a side. */
  lemma ProfileCropFitsMaxSide(orientation: int, bounds: DecodeBounds, maxSide: int, d: Dims)
    requires maxSide > 0 && d.width >= 1 && d.height >= 1
    requires bounds.outWidth >= 0 && bounds.outHeight >= 0
    requires var s := CalculateMaxInSampleSize(bounds, maxSide);
             d.width <= CeilDiv(bounds.outWidth, s) && d.height <= CeilDiv(bounds.outHeight, s)
    ensures var r := CropProfileBitmapFromPath(orientation, bounds, maxSide, Some(d));
            var size := CropSize(d.width, d.height, r.value.crop);
            size.width == size.height <= maxSide
  {
    var s := CalculateMaxInSampleSize(bounds, maxSide);
    var longer := Max(bounds.outWidth, bounds.outHeight);
    MaxInSampleSizeBoundsLongerSide(bounds, maxSide);
    CeilDivAtMost(bounds.outWidth, s, CeilDiv(longer, s));
    CeilDivAtMost(bounds.outHeight, s, CeilDiv(longer, s));
    CropIsSquare(d.width, d.height, GetRotationFromOrientation(orientation));
  }
}
