# BitmapUtils: decode sizing, orientation, square crops and Stack Blur

A Dafny model of the integer core of `BitmapUtils` in droid-utils:

- **Decode sizing** (`sample_size.dfy`). This covers:
  - `getSize(int, int)`;
  - the two inSampleSize policies, `calculateInSampleSize` ("fit inside", which snaps to a power of two above 3) and `calculateMaxInSampleSize` ("bounded max");
  - `getNextLowerTwoPow`.

  The float and double arithmetic of the source (`Math.round`, `Math.ceil`, `Math.log`, `Math.pow`) becomes the exact integer operation it approximates:
  - round half up is `(2a + b) / (2b)`;
  - ceiling is `(a + m - 1) / m`;
  - floor(log2) is a recursion;
  - `n & -n` is the lowest set bit, proved equal to `n` exactly for powers of two.
- **Orientation** (`orientation.dfy`). `getRotationFromOrientation` is modelled as the fall-through switch it is. It is proved equal to a lookup table over the Exif Orientation codes (tag 0x0112, section 4.6.4 of the Exif 2.3 standard).
- **Decode planning** (`decode_plan.dfy`). This is the part of `loadBitmapFromPath` that runs before pixels are decoded:
  - the rotation;
  - the swap of the requested sides for a quarter turn;
  - the sample size.

  It also gives what the method returns for a given decoder outcome, both as written and as intended (see Findings).
- **Square crops** (`square_crop.dfy`). The geometry of `cropSquaredBitmap` is a value, as is the decision of when the input comes back unchanged. `cropProfileBitmap(Bitmap)` and `cropProfileBitmap(String, int)` are modelled too. Without rotation the crop is also a method on a 2-D pixel array that copies the window.
- **Stack Blur** (`argb.dfy`, `bitmap.dfy`, `stack_blur_spec.dfy`, `stack_blur.dfy`).
  - `stack_blur_spec.dfy` states what `fastblur` computes without the ring buffer: each channel is the triangular kernel over its clamped neighbourhood, divided by (r + 1)^2, first along the rows and then along the columns.
  - `stack_blur.dfy` is the imperative algorithm. It works over arrays: the `dv` table, the `r`/`g`/`b` buffers, the `stack` ring buffer, the `vmin` cache and the running sums.
  - Each of its loops is proved against that specification. The running sums are proved to equal the kernel sums at every step.

Pixels are the 32-bit patterns of Java `int`s, read as unsigned numbers. The masks and shifts are divisions and remainders by powers of two.

## Model

| member | source | states |
|---|---|---|
| Argb.Red | src/com/github/luluvise/droid_utils/lib/BitmapUtils.java:572 | the red channel `(p & 0xff0000) >> 16` of a pixel is a value in 0..255 |
| Argb.Green | src/com/github/luluvise/droid_utils/lib/BitmapUtils.java:573 | the green channel `(p & 0x00ff00) >> 8` is a value in 0..255 |
| Argb.Blue | src/com/github/luluvise/droid_utils/lib/BitmapUtils.java:574 | the blue channel `p & 0x0000ff` is a value in 0..255 |
| Argb.Pack | src/com/github/luluvise/droid_utils/lib/BitmapUtils.java:676 | the packed pixel keeps the alpha byte of the old pixel and has exactly the three given channels |
| Argb.ChannelsDecompose | src/com/github/luluvise/droid_utils/lib/BitmapUtils.java:572-574 | a pixel is the sum of its alpha, red, green and blue bytes at their shifts, so the masks lose nothing |
| Argb.PixelFromChannels | src/com/github/luluvise/droid_utils/lib/BitmapUtils.java:572-576 | two pixels with the same four channels are the same pixel |
| Argb.PackOwnChannels | src/com/github/luluvise/droid_utils/lib/BitmapUtils.java:676 | packing a pixel's own channels over it gives the pixel back |
| SampleSize.GetSize | src/com/github/luluvise/droid_utils/lib/BitmapUtils.java:87-89 | the byte size is a non-negative multiple of 4 whose quarter is width times height |
| SampleSize.GetSizeIsRowBytesTimesHeight | src/com/github/luluvise/droid_utils/lib/BitmapUtils.java:87-100 | getSize(width, height) equals rowBytes times height of an unpadded ARGB_8888 bitmap |
| SampleSize.Pow2IsPowerOfTwo | src/com/github/luluvise/droid_utils/lib/BitmapUtils.java:194 | every 2^k is a power of two |
| SampleSize.FloorLog2 | src/com/github/luluvise/droid_utils/lib/BitmapUtils.java:194 | floor(log2 n) is the k with 2^k <= n < 2^(k+1) |
| SampleSize.LowestOneBitIsSelfIffPowerOfTwo | src/com/github/luluvise/droid_utils/lib/BitmapUtils.java:145 | the test `(n & -n) != n` holds exactly when n is not a power of two |
| SampleSize.GetNextLowerTwoPow | src/com/github/luluvise/droid_utils/lib/BitmapUtils.java:192-195 | a negative argument is an invalid-argument failure; 0 gives 0; n >= 1 gives a power of two p with p <= n < 2p |
| SampleSize.NextLowerTwoPowOfPowerOfTwo | src/com/github/luluvise/droid_utils/lib/BitmapUtils.java:186-195 | getNextLowerTwoPow is the identity on powers of two |
| SampleSize.NextLowerTwoPowUnique | src/com/github/luluvise/droid_utils/lib/BitmapUtils.java:186-195 | any power of two p with p <= n < 2p is the one getNextLowerTwoPow(n) returns |
| SampleSize.RoundHalfUp | src/com/github/luluvise/droid_utils/lib/BitmapUtils.java:138-140 | the rounded quotient q is the integer nearest a / b, ties going up |
| SampleSize.RawInSampleSize | src/com/github/luluvise/droid_utils/lib/BitmapUtils.java:131-142 | 1 when both sides fit the request; otherwise the rounded ratio of height to reqHeight for a landscape picture and of width to reqWidth for any other |
| SampleSize.CalculateInSampleSize | src/com/github/luluvise/droid_utils/lib/BitmapUtils.java:129-151 | a raw factor of at most 3 is kept; above 3 the result is a power of two s with s <= raw < 2s; a raw power of two is kept |
| SampleSize.InSampleSizeOfFittingImage | src/com/github/luluvise/droid_utils/lib/BitmapUtils.java:134-150 | a picture that fits the request is decoded at full size (factor 1) |
| SampleSize.InSampleSizeIsNextLowerTwoPow | src/com/github/luluvise/droid_utils/lib/BitmapUtils.java:144-148 | above 3 the factor is exactly getNextLowerTwoPow of the raw factor |
| SampleSize.CeilDiv | src/com/github/luluvise/droid_utils/lib/BitmapUtils.java:177-179 | the ceiling quotient q satisfies m(q - 1) < a <= mq |
| SampleSize.CeilDivAtMost | src/com/github/luluvise/droid_utils/lib/BitmapUtils.java:177-179 | a ceiling quotient is at most c whenever the dividend is at most s * c |
| SampleSize.CalculateMaxInSampleSize | src/com/github/luluvise/droid_utils/lib/BitmapUtils.java:169-184 | 1 when both sides fit maxSide; otherwise a factor s >= 2 with (s - 1) * maxSide < longer side <= s * maxSide, with no power-of-two snapping |
| SampleSize.MaxInSampleSizeBoundsLongerSide | src/com/github/luluvise/droid_utils/lib/BitmapUtils.java:153-184 | the factor is at least 1 and the longer side divided by it, rounded up, is at most maxSide |
| Orientation.EntryCase | src/com/github/luluvise/droid_utils/lib/BitmapUtils.java:374-383 | the switch enters at the first case label equal to the orientation, or at none |
| Orientation.RunCasesFrom | src/com/github/luluvise/droid_utils/lib/BitmapUtils.java:375-382 | running the fall-through bodies from case k to the break adds 90 for each remaining case |
| Orientation.GetRotationFromOrientation | src/com/github/luluvise/droid_utils/lib/BitmapUtils.java:372-385 | the rotation is always 0, 90, 180 or 270 degrees |
| Orientation.RotationMatchesTable | src/com/github/luluvise/droid_utils/lib/BitmapUtils.java:372-385 | the fall-through sums give ROTATE_90 -> 90, ROTATE_180 -> 180, ROTATE_270 -> 270 and every other code 0 |
| Orientation.RotationIsZeroExactlyForNonRotatingCodes | src/com/github/luluvise/droid_utils/lib/BitmapUtils.java:372-385 | the rotation is 0 exactly for the codes other than ROTATE_90, ROTATE_180 and ROTATE_270 |
| DecodePlan.Upright | src/com/github/luluvise/droid_utils/lib/BitmapUtils.java:302-307 | a quarter turn exchanges width and height; any other rotation keeps them |
| DecodePlan.PlanLoadBitmapFromPath | src/com/github/luluvise/droid_utils/lib/BitmapUtils.java:296-315 | the rotation comes from the orientation only when rotate is set; reqWidth and reqHeight are swapped exactly for 90 and 270 degrees; the factor is calculateInSampleSize of the bounds against the swapped request |
| DecodePlan.PlanSizesTheUprightPicture | src/com/github/luluvise/droid_utils/lib/BitmapUtils.java:302-315 | for a non-square source, swapping the request gives the same factor as sizing the upright picture against the request as given |
| DecodePlan.PlanOfFittingPictureDecodesFullSize | src/com/github/luluvise/droid_utils/lib/BitmapUtils.java:309-315 | a picture whose upright frame fits the request is decoded with factor 1 |
| DecodePlan.LoadBitmapFromPathAsWritten | src/com/github/luluvise/droid_utils/lib/BitmapUtils.java:319-340 | as written: without rotation the result is the decoded bitmap, or null when decoding fails |
| DecodePlan.HoneycombBranchDoesNotRotate | src/com/github/luluvise/droid_utils/lib/BitmapUtils.java:321-325 | on SDK >= 11 a successfully decoded picture with a quarter turn comes back exactly as decoded, which for a non-square picture is not its upright frame |
| DecodePlan.RotatedDecodeFailureDereferencesNull | src/com/github/luluvise/droid_utils/lib/BitmapUtils.java:321-335 | with a rotation, a failed decode dereferences null instead of returning null |
| DecodePlan.LoadBitmapFromPath | src/com/github/luluvise/droid_utils/lib/BitmapUtils.java:294-341 | corrected: null exactly when decoding fails, never an exception, otherwise the decoded picture turned upright |
| DecodePlan.LoadBitmapFromPathAgreesWhereAsWrittenIsRight | src/com/github/luluvise/droid_utils/lib/BitmapUtils.java:319-340 | the corrected result equals the code as written without rotation, and on the pre-Honeycomb branch for every successful decode |
| DecodePlan.LoadedPictureIsUpright | src/com/github/luluvise/droid_utils/lib/BitmapUtils.java:294-341 | turning the loaded picture back by the planned rotation gives the decoded frame |
| SquareCrop.SquaredCropGeometry | src/com/github/luluvise/droid_utils/lib/BitmapUtils.java:457-470 | the side is the shorter side and the window fits the source; a portrait picture gets offsets (0, 1); any other gets vertical offset 0 and a horizontal offset that centres the window, the odd pixel going to the right margin |
| SquareCrop.WindowIsWholePictureIffSquare | src/com/github/luluvise/droid_utils/lib/BitmapUtils.java:457-473 | the window is the whole picture exactly when the picture is square |
| SquareCrop.CropSquaredBitmap | src/com/github/luluvise/droid_utils/lib/BitmapUtils.java:457-483 | the original is returned exactly when the rotation is 0 and the picture is square; otherwise the window of SquaredCropGeometry (centred for a landscape or square picture, offsets (0, 1) for a portrait one) with the given rotation |
| SquareCrop.CropProfileBitmap | src/com/github/luluvise/droid_utils/lib/BitmapUtils.java:438-445 | cropProfileBitmap(Bitmap) returns the original exactly when the picture is square |
| SquareCrop.CropProfileIsUnrotatedCrop | src/com/github/luluvise/droid_utils/lib/BitmapUtils.java:438-445 | cropProfileBitmap(Bitmap) decides as cropSquaredBitmap(bitmap, 0) does |
| SquareCrop.CropIsSquare | src/com/github/luluvise/droid_utils/lib/BitmapUtils.java:457-483 | for each rotation getRotationFromOrientation can give (0, 90, 180, 270) the result is square with the shorter side of the input |
| SquareCrop.CreateBitmapWindow | src/com/github/luluvise/droid_utils/lib/BitmapUtils.java:479-480 | the new side by side bitmap holds the source pixel at (y + i, x + j) at (i, j) |
| SquareCrop.CropSquaredBitmapUnrotated | src/com/github/luluvise/droid_utils/lib/BitmapUtils.java:472-482 | with rotation 0 the same bitmap comes back exactly when it is square; otherwise a new bitmap holding the square window; the input is not changed |
| SquareCrop.CropProfileBitmapPixels | src/com/github/luluvise/droid_utils/lib/BitmapUtils.java:438-445 | the same bitmap exactly when square; otherwise a new square bitmap of the shorter side holding the window |
| SquareCrop.CropProfileBitmapFromPath | src/com/github/luluvise/droid_utils/lib/BitmapUtils.java:401-426 | null exactly when the decoder fails; otherwise the factor is calculateMaxInSampleSize and the crop is cropSquaredBitmap with the orientation's rotation |
| SquareCrop.ProfileCropFitsMaxSide | src/com/github/luluvise/droid_utils/lib/BitmapUtils.java:387-426 | when the decoder shrinks each side by the factor, rounding up, the profile picture is square with a side of at most maxSide |
| Bitmaps.CopyBitmap | src/com/github/luluvise/droid_utils/lib/BitmapUtils.java:526 | the copy is a new bitmap of the same size and pixels |
| Bitmaps.GetPixels | src/com/github/luluvise/droid_utils/lib/BitmapUtils.java:535-536 | the new buffer holds the pixels row after row |
| Bitmaps.SetPixels | src/com/github/luluvise/droid_utils/lib/BitmapUtils.java:721 | every pixel of the bitmap is set from the buffer, row after row |
| StackBlurSpec.Clamp | src/com/github/luluvise/droid_utils/lib/BitmapUtils.java:570 | the clamped index lies in 0..hi and is the index itself when that is in range |
| StackBlurSpec.Divisor | src/com/github/luluvise/droid_utils/lib/BitmapUtils.java:549-550 | the divisor ((div + 1) >> 1)^2 is positive |
| StackBlurSpec.KernelSlide | src/com/github/luluvise/droid_utils/lib/BitmapUtils.java:597-623 | moving the centre one step takes one unit of weight from each sample of the left half and adds one to each of the right half and the entering sample |
| StackBlurSpec.SlideStep | src/com/github/luluvise/droid_utils/lib/BitmapUtils.java:597-634 | the updates of one slide, in source order, turn the running sums at x into the running sums at x + 1 |
| StackBlurSpec.LoadStep | src/com/github/luluvise/droid_utils/lib/BitmapUtils.java:569-588 | each step of the loading loop adds the weighted sample to the sum and the sample to the in or out sum by the sign of its offset |
| StackBlurSpec.LoadDone | src/com/github/luluvise/droid_utils/lib/BitmapUtils.java:568-589 | after the loading loop the sums are the running sums of the window centred at 0 |
| StackBlurSpec.RisingWeightSum | src/com/github/luluvise/droid_utils/lib/BitmapUtils.java:575 | the weights 1..n add up to n(n + 1) / 2 |
| StackBlurSpec.FallingWeightSum | src/com/github/luluvise/droid_utils/lib/BitmapUtils.java:575 | the weights past the centre add up as a falling series |
| StackBlurSpec.WeightTotal | src/com/github/luluvise/droid_utils/lib/BitmapUtils.java:549-550 | the weights r + 1 - abs(i) of the whole kernel add up to the divisor (r + 1)^2 |
| StackBlurSpec.PartialKernelBounds | src/com/github/luluvise/droid_utils/lib/BitmapUtils.java:576-578 | a partial kernel over channel values lies between 0 and 255 times its weights |
| StackBlurSpec.KernelBounds | src/com/github/luluvise/droid_utils/lib/BitmapUtils.java:551-553 | the kernel over channel values indexes the division table and its blurred value is a channel |
| StackBlurSpec.KernelOfUniform | src/com/github/luluvise/droid_utils/lib/BitmapUtils.java:593-595 | on a line of one value c the kernel is c(r + 1)^2 and the blurred value is c |
| StackBlurSpec.BlurLine | src/com/github/luluvise/droid_utils/lib/BitmapUtils.java:567-639 | blurring a line keeps its length |
| StackBlurSpec.HorizontalPass | src/com/github/luluvise/droid_utils/lib/BitmapUtils.java:567-639 | the horizontal pass of n rows has n * w entries |
| StackBlurSpec.HorizontalPassAt | src/com/github/luluvise/droid_utils/lib/BitmapUtils.java:593-595 | entry (y, x) of the horizontal pass is the blurred value of row y at x |
| StackBlurSpec.HorizontalPassIsChannel | src/com/github/luluvise/droid_utils/lib/BitmapUtils.java:593-595 | every entry of the horizontal pass is a channel value |
| StackBlurSpec.VerticalAtIsChannel | src/com/github/luluvise/droid_utils/lib/BitmapUtils.java:676 | the vertical blur of a channel buffer at (y, x) is a channel value |
| StackBlurSpec.ColumnIsChannel | src/com/github/luluvise/droid_utils/lib/BitmapUtils.java:648-650 | the columns of a channel buffer are lines of channel values |
| StackBlurSpec.VerticalPass | src/com/github/luluvise/droid_utils/lib/BitmapUtils.java:640-719 | the vertical pass has w * h pixels |
| StackBlurSpec.VerticalPassAt | src/com/github/luluvise/droid_utils/lib/BitmapUtils.java:676 | pixel (y, x) of the vertical pass keeps the source alpha and has each channel blurred down column x |
| StackBlurSpec.StackBlur | src/com/github/luluvise/droid_utils/lib/BitmapUtils.java:496-723 | the blurred image has w * h pixels |
| StackBlurSpec.StackBlurAt | src/com/github/luluvise/droid_utils/lib/BitmapUtils.java:567-719 | pixel (y, x) of the blurred image keeps the source alpha; each colour channel is the vertical kernel over the horizontally blurred channel |
| StackBlurSpec.StackBlurPreservesAlpha | src/com/github/luluvise/droid_utils/lib/BitmapUtils.java:675-676 | the alpha byte of every pixel is unchanged |
| StackBlurSpec.HorizontalPassOfUniform | src/com/github/luluvise/droid_utils/lib/BitmapUtils.java:567-639 | the horizontal pass of a channel of one value c is c everywhere |
| StackBlurSpec.VerticalAtOfUniform | src/com/github/luluvise/droid_utils/lib/BitmapUtils.java:640-719 | the vertical blur of a buffer of one value c is c |
| StackBlurSpec.UniformColourPixelUnchanged | src/com/github/luluvise/droid_utils/lib/BitmapUtils.java:567-719 | in an image of one colour every pixel is left as it was |
| StackBlurSpec.StackBlurOfUniformColour | src/com/github/luluvise/droid_utils/lib/BitmapUtils.java:567-719 | an image whose pixels share one colour, whatever their alpha, is a fixed point of the blur |
| StackBlur.NextSlot | src/com/github/luluvise/droid_utils/lib/BitmapUtils.java:625 | the next ring slot is in 0..div - 1 |
| StackBlur.NextSlotIsMod | src/com/github/luluvise/droid_utils/lib/BitmapUtils.java:625 | the next slot is (s + 1) % div |
| StackBlur.LeavingSlot | src/com/github/luluvise/droid_utils/lib/BitmapUtils.java:601-602 | slot (stackpointer - radius + div) % div is the window's first slot and holds the leaving samples |
| StackBlur.SlotShift | src/com/github/luluvise/droid_utils/lib/BitmapUtils.java:601-615 | as the window slides its first slot moves on by one and every other slot keeps its sample |
| StackBlur.SlideWindow | src/com/github/luluvise/droid_utils/lib/BitmapUtils.java:611-615 | writing the entering samples into the first slot makes the ring hold the window at x + 1 |
| StackBlur.NextCentre | src/com/github/luluvise/droid_utils/lib/BitmapUtils.java:625-626 | after the slide the next slot holds the new centre samples |
| StackBlur.BuildDivisionTable | src/com/github/luluvise/droid_utils/lib/BitmapUtils.java:549-554 | the table has 256 * divsum entries and entry i is i / divsum |
| StackBlur.RowProgressDone | src/com/github/luluvise/droid_utils/lib/BitmapUtils.java:591-637 | a row written at every column is the blurred row spliced into the buffer |
| StackBlur.RowSamplesOfImage | src/com/github/luluvise/droid_utils/lib/BitmapUtils.java:567-570 | the channels of row y of the image are the samples the row loop reads |
| StackBlur.RowSampleAt | src/com/github/luluvise/droid_utils/lib/BitmapUtils.java:570 | the sample at a clamped column is the channels of that pixel |
| StackBlur.RowSamplesAreChannels | src/com/github/luluvise/droid_utils/lib/BitmapUtils.java:572-574 | the samples of a row are channel values |
| StackBlur.RowProgressStep | src/com/github/luluvise/droid_utils/lib/BitmapUtils.java:593-595 | writing column n extends the written part of the row by one blurred value and changes nothing else |
| StackBlur.TableLookup | src/com/github/luluvise/droid_utils/lib/BitmapUtils.java:593-595 | the running sum indexes the division table, which gives the blurred value |
| StackBlur.LoadSlot | src/com/github/luluvise/droid_utils/lib/BitmapUtils.java:569-588 | one loading step puts the samples in their slot and keeps the loading sums |
| StackBlur.LoadRowWindow | src/com/github/luluvise/droid_utils/lib/BitmapUtils.java:568-589 | loading a row leaves the running sums of the window centred at 0 and the ring holding that window |
| StackBlur.EmitRowColumn | src/com/github/luluvise/droid_utils/lib/BitmapUtils.java:593-595 | writing column x of a row extends the blurred prefix of each channel buffer by one |
| StackBlur.ReleaseLeaving | src/com/github/luluvise/droid_utils/lib/BitmapUtils.java:597-606 | each sum drops its out sum and each out sum drops its leaving sample |
| StackBlur.PutEntering | src/com/github/luluvise/droid_utils/lib/BitmapUtils.java:601-615 | writing the entering samples makes the ring hold the window at x + 1 |
| StackBlur.MoveCentre | src/com/github/luluvise/droid_utils/lib/BitmapUtils.java:625-626 | the centre moves to the next slot, which holds the samples at x + 1 |
| StackBlur.TakeEntering | src/com/github/luluvise/droid_utils/lib/BitmapUtils.java:611-634 | the entering samples go into the ring and the in, out and kernel sums take their new values |
| StackBlur.EnteringColumn | src/com/github/luluvise/droid_utils/lib/BitmapUtils.java:608-611 | the cached column of the entering sample is min(x + radius + 1, w - 1), filled on the first row |
| StackBlur.SlideRowWindow | src/com/github/luluvise/droid_utils/lib/BitmapUtils.java:597-634 | one slide turns the running sums and the ring at x into those at x + 1 |
| StackBlur.SlideColumn | src/com/github/luluvise/droid_utils/lib/BitmapUtils.java:591-636 | one step of the row loop keeps the loop state at the next column |
| StackBlur.SlideAlongRow | src/com/github/luluvise/droid_utils/lib/BitmapUtils.java:591-637 | the row loop writes the blurred value of every column of the row |
| StackBlur.BlurRow | src/com/github/luluvise/droid_utils/lib/BitmapUtils.java:567-638 | the channel buffers hold the blurred row spliced in at its offset, and nothing else changes |
| StackBlur.HorizontalPassStep | src/com/github/luluvise/droid_utils/lib/BitmapUtils.java:638 | blurring row y after y blurred rows gives the horizontal pass of y + 1 rows |
| StackBlur.BlurRows | src/com/github/luluvise/droid_utils/lib/BitmapUtils.java:567-639 | the channel buffers are the horizontal pass of the red, green and blue channels of the image |
| StackBlur.ColumnSampleAt | src/com/github/luluvise/droid_utils/lib/BitmapUtils.java:644-648 | the sample at a clamped row of a column is the buffer entry at that row |
| StackBlur.LoadOffset | src/com/github/luluvise/droid_utils/lib/BitmapUtils.java:642-670 | the row offset yp of the loading loop is the clamped row times w |
| StackBlur.EnteringRow | src/com/github/luluvise/droid_utils/lib/BitmapUtils.java:689-692 | the cached offset of the entering row is min(y + radius + 1, h - 1) * w, filled on the first column |
| StackBlur.EnteringSamples | src/com/github/luluvise/droid_utils/lib/BitmapUtils.java:689-696 | the samples read for the slide past row y are the column's channels at row min(y + radius + 1, h - 1) |
| StackBlur.LoadColumnWindow | src/com/github/luluvise/droid_utils/lib/BitmapUtils.java:641-673 | loading a column leaves the running sums of the window centred at row 0 and the ring holding that window |
| StackBlur.VerticalProgressStep | src/com/github/luluvise/droid_utils/lib/BitmapUtils.java:676 | writing pixel (y, x) extends the written part of the image by that pixel |
| StackBlur.VerticalStart | src/com/github/luluvise/droid_utils/lib/BitmapUtils.java:640 | before the vertical pass the pixel buffer is the source |
| StackBlur.ColumnDone | src/com/github/luluvise/droid_utils/lib/BitmapUtils.java:674-718 | a column written at every row is a finished column |
| StackBlur.VerticalDone | src/com/github/luluvise/droid_utils/lib/BitmapUtils.java:640-719 | with every column finished the buffer is the blurred image |
| StackBlur.EmitPixel | src/com/github/luluvise/droid_utils/lib/BitmapUtils.java:675-676 | the written pixel keeps its alpha and gets the blurred channels |
| StackBlur.SlideColumnWindow | src/com/github/luluvise/droid_utils/lib/BitmapUtils.java:678-715 | one slide turns the running sums and the ring at row y into those at y + 1 |
| StackBlur.SlidePixel | src/com/github/luluvise/droid_utils/lib/BitmapUtils.java:674-718 | one step of the column loop writes the blurred pixel and keeps the loop state at the next row |
| StackBlur.SlideDownColumn | src/com/github/luluvise/droid_utils/lib/BitmapUtils.java:674-718 | the column loop writes the blurred pixel at every row of the column |
| StackBlur.BlurColumn | src/com/github/luluvise/droid_utils/lib/BitmapUtils.java:641-718 | one column of the vertical pass is written and the others are as before |
| StackBlur.BlurColumns | src/com/github/luluvise/droid_utils/lib/BitmapUtils.java:640-719 | the pixel buffer becomes the vertical pass of the horizontally blurred channels |
| StackBlur.DivSum | src/com/github/luluvise/droid_utils/lib/BitmapUtils.java:549-551 | ((div + 1) >> 1)^2 is the kernel divisor (radius + 1)^2 and the table size fits an int |
| StackBlur.BlurPixels | src/com/github/luluvise/droid_utils/lib/BitmapUtils.java:532-719 | the pixel buffer becomes the Stack Blur of its old contents |
| StackBlur.FastBlur | src/com/github/luluvise/droid_utils/lib/BitmapUtils.java:496-723 | null exactly when radius < 1; otherwise a new bitmap of the same size whose pixels are the Stack Blur of the input's |

## Left out

- I/O is left out. Reading the Exif tag (`getExifOrientation`) and `BitmapFactory.decodeFile` are external, so the orientation code, the probed bounds and the decoded size are parameters. The same goes for `getPublicPicturesDir`, `loadBitmapFromUri`, `decodeSampledBitmapFromResource`, `decodeMutableBitmap`, `getSize(Bitmap)` (a platform accessor) and `getImagesMediaColumns` (a constant list).
- Float and double rounding is not reproduced bit for bit. `Math.round`, `Math.ceil`, `Math.log` and `Math.pow` are the exact integer results they approximate, so large inputs where the float results drift are not captured. `reqWidth`, `reqHeight` and `maxSide` are taken positive.
- SquareCrop.CropIsSquare: holds only for the rotations 0, 90, 180 and 270, the only ones the program passes. For any other angle, `createBitmap` returns the bounding box of the rotated window, and the model's `CropSize` does not capture that.
- SquareCrop.CropSquaredBitmap: only the geometry of a rotated crop is modelled. `Matrix` rotation and `createBitmap(..., matrix, true)` resample pixels with bilinear filtering, so the pixel copy (`SquareCrop.CropSquaredBitmapUnrotated`) exists only for rotation 0.
- DecodePlan.LoadBitmapFromPathAsWritten: only the result's dimensions are modelled, not its pixels. The rotation by `Matrix` in the pre-Honeycomb branch is a dimension swap. Recycling the original bitmap and the log calls are left out.
- SampleSize.GetSize: negative sizes are excluded, although the Java method accepts them and returns a negative byte count. Java `int` overflow is excluded by a precondition rather than modelled as wrap-around. The same holds for StackBlur.FastBlur, whose preconditions keep `w * h`, the `dv` table size (which bounds the radius at 2895) and the indices `x + radius + 1` and `y + radius + 1` within `int` range.
- StackBlur.FastBlur: the bitmap is an `array2` of pixels. `Bitmap.copy`, `getPixels` and `setPixels` are loops over it, so the bitmap config and mutability flags are not modelled.
- StackBlur: the ring buffer `int[div][3]` is an array of RGB triples. The Java code mutates a slot's row through the alias `sir`; in the model the slot is replaced whole.
- The asynchronous blur setter (`BlurryImageBitmapAsyncSetter`, an `AsyncTask` with `ImageView` glue) and the `ContentLoader` interface are not part of this model. No staleness or target-identity check exists in that code. Its fixed radius of 110 is one instance of the modelled radius range.

## Findings

| source | as written | input that shows it | evidently intended | confidence | as-written member | corrected member |
|---|---|---|---|---|---|---|
| src/com/github/luluvise/droid_utils/lib/BitmapUtils.java:321-325 | On SDK >= 11 a rotated picture is decoded mutable and `Canvas.rotate` is called on a canvas on which nothing is drawn, so the bitmap comes back unrotated | a 400 x 300 JPEG tagged ROTATE_90 loaded with rotate = true on SDK 11: the result is 400 x 300, not 300 x 400 | the decoded picture turned upright on every SDK level | not executed | DecodePlan.HoneycombBranchDoesNotRotate | DecodePlan.LoadBitmapFromPath |
| src/com/github/luluvise/droid_utils/lib/BitmapUtils.java:321-335 | With a rotation, a failed decode is dereferenced (`new Canvas(null)`, `bitmap.getWidth()` on null) | a JPEG whose Exif block reads ROTATE_90 but whose image data is corrupt, so that decodeFile gives null, loaded with rotate = true: NullPointerException instead of null | null when the decoder gives nothing, as the method's documentation says | not executed | DecodePlan.RotatedDecodeFailureDereferencesNull | DecodePlan.LoadBitmapFromPath |

## Notes

- `getNextLowerTwoPow(0)` is 0 in the model, as in the code: `Math.log(0)` is negative infinity, `Math.pow(2, -infinity)` is 0.0, and the cast to `int` keeps 0. A description of the function as "the next lower power of two" would suggest 1. `calculateInSampleSize` never passes 0, because it calls the function only above 3.
- The raw "fit inside" factor can be 0: it rounds the shorter side's ratio, and that side may be well inside its request while the longer side exceeds its own. `SampleSize.CalculateInSampleSize` therefore promises no lower bound of 1.
- `SquareCrop.ProfileCropFitsMaxSide` rests on a decoder assumption: each side is divided by the sample size and rounded up. A decoder that rounds `inSampleSize` down to a power of two decodes at factor 2 when the factor is 3. The result may then be larger than maxSide, whatever the documentation of calculateMaxInSampleSize promises.
