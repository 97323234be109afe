/** The planning half of loadBitmapFromPath: resolve the rotation, swap the
    requested sides for a quarter turn, pick the inSampleSize, and what the
    method then returns, as dimensions, for a given decoder outcome.

    Reading the Exif tag and decoding are external capabilities: the
    orientation code, the probed bounds and the decoded bitmap's size are
    parameters. */
module DecodePlan {
  import opened SampleSize
  import opened Orientation

  datatype Option<T> = None | Some(value: T)

  datatype Dims = Dims(width: int, height: int)

  /** The decisions loadBitmapFromPath takes before decoding pixels. */
  datatype LoadPlan = LoadPlan(rotateValue: int, reqWidth: int, reqHeight: int, inSampleSize: int)

  /** Dimensions of a picture after turning it by the given angle. */
  function Upright(d: Dims, degrees: int): (u: Dims)
    ensures IsQuarterTurn(degrees) ==> u.width == d.height && u.height == d.width
    ensures !IsQuarterTurn(degrees) ==> u == d
  {
    if IsQuarterTurn(degrees) then Dims(d.height, d.width) else d
  }

  /** Planning half of loadBitmapFromPath(path, reqWidth, reqHeight, rotate):
      with `rotate`, the rotation comes from the orientation code and a
      quarter turn swaps reqWidth and reqHeight; the sample size is then
      computed against the probed bounds. */
  function PlanLoadBitmapFromPath(rotate: bool, orientation: int, bounds: DecodeBounds,
                                  reqWidth: int, reqHeight: int): (plan: LoadPlan)
    requires reqWidth > 0 && reqHeight > 0
    ensures plan.rotateValue == if rotate then GetRotationFromOrientation(orientation) else 0
    ensures plan.rotateValue in {0, 90, 180, 270}
    ensures IsQuarterTurn(plan.rotateValue) ==> plan.reqWidth == reqHeight && plan.reqHeight == reqWidth
    ensures !IsQuarterTurn(plan.rotateValue) ==> plan.reqWidth == reqWidth && plan.reqHeight == reqHeight
    ensures plan.inSampleSize == CalculateInSampleSize(bounds, plan.reqWidth, plan.reqHeight)
  {
    var rotateValue := if rotate then GetRotationFromOrientation(orientation) else 0;
    var (w, h) := if IsQuarterTurn(rotateValue) then (reqHeight, reqWidth) else (reqWidth, reqHeight);
    LoadPlan(rotateValue, w, h, CalculateInSampleSize(bounds, w, h))
  }

  /** The probed bounds seen in the upright frame. */
  function UprightBounds(bounds: DecodeBounds, degrees: int): DecodeBounds
  {
    var u := Upright(Dims(bounds.outWidth, bounds.outHeight), degrees);
    DecodeBounds(u.width, u.height)
  }

  /** Swapping the request is the same as sizing the upright picture against
      the request as given (the two differ only in the tie-break of a square
      source, which picks the width side either way). */
  lemma PlanSizesTheUprightPicture(rotate: bool, orientation: int, bounds: DecodeBounds,
                                   reqWidth: int, reqHeight: int)
    requires reqWidth > 0 && reqHeight > 0
    requires bounds.outWidth != bounds.outHeight
    ensures var plan := PlanLoadBitmapFromPath(rotate, orientation, bounds, reqWidth, reqHeight);
            plan.inSampleSize == CalculateInSampleSize(UprightBounds(bounds, plan.rotateValue), reqWidth, reqHeight)
  {
    var plan := PlanLoadBitmapFromPath(rotate, orientation, bounds, reqWidth, reqHeight);
    var up := UprightBounds(bounds, plan.rotateValue);
    assert RawInSampleSize(bounds, plan.reqWidth, plan.reqHeight) == RawInSampleSize(up, reqWidth, reqHeight);
  }

  /** A picture whose upright frame already fits the request, square or not,
      is decoded at full size. */
  lemma PlanOfFittingPictureDecodesFullSize(rotate: bool, orientation: int, bounds: DecodeBounds,
                                            reqWidth: int, reqHeight: int)
    requires reqWidth > 0 && reqHeight > 0
    requires var up := UprightBounds(bounds, PlanLoadBitmapFromPath(rotate, orientation, bounds, reqWidth, reqHeight).rotateValue);
             up.outWidth <= reqWidth && up.outHeight <= reqHeight
    ensures PlanLoadBitmapFromPath(rotate, orientation, bounds, reqWidth, reqHeight).inSampleSize == 1
  {
  }

  // ---------------------------------------------------------------------
  // What loadBitmapFromPath returns
  // ---------------------------------------------------------------------

  /** The outcome of loadBitmapFromPath: a bitmap of the given size, null
      (the decoder gave nothing), or a NullPointerException. */
  datatype LoadOutcome = Loaded(dims: Dims) | NotDecoded | NullPointer

  /** First SDK level of the branch that decodes a mutable bitmap (Honeycomb). */
  const Honeycomb: int := 11

  /** loadBitmapFromPath as written, given the plan, the decoder's result at
      the planned sample size and the SDK level. On SDK >= 11 a rotation only
      sets the transform of a Canvas on which nothing is drawn, so the
      decoded bitmap comes back as decoded; below 11 a Matrix rotation makes a
      new bitmap whose sides are swapped by a quarter turn. A null decode with
      a rotation dereferences null in both branches. */
  function LoadBitmapFromPathAsWritten(plan: LoadPlan, decoded: Option<Dims>, sdkInt: int): (out: LoadOutcome)
    ensures plan.rotateValue == 0 ==>
              out == (if decoded.None? then NotDecoded else Loaded(decoded.value))
  {
    if plan.rotateValue != 0 && sdkInt >= Honeycomb then
      if decoded.None? then NullPointer else Loaded(decoded.value)
    else if decoded.None? then
      if plan.rotateValue != 0 then NullPointer else NotDecoded
    else if plan.rotateValue != 0 then
      Loaded(Upright(decoded.value, plan.rotateValue))
    else
      Loaded(decoded.value)
  }

  /** On SDK >= 11 a landscape picture tagged ROTATE_90 is returned in its
      stored, unrotated frame. */
  lemma HoneycombBranchDoesNotRotate(plan: LoadPlan, d: Dims, sdkInt: int)
    requires IsQuarterTurn(plan.rotateValue) && sdkInt >= Honeycomb && d.width != d.height
    ensures LoadBitmapFromPathAsWritten(plan, Some(d), sdkInt) == Loaded(d)
    ensures LoadBitmapFromPathAsWritten(plan, Some(d), sdkInt) != Loaded(Upright(d, plan.rotateValue))
  {
  }

  /** A rotated picture that the decoder cannot decode raises a
      NullPointerException instead of giving null. */
  lemma RotatedDecodeFailureDereferencesNull(plan: LoadPlan, sdkInt: int)
    requires plan.rotateValue != 0
    ensures LoadBitmapFromPathAsWritten(plan, None, sdkInt) == NullPointer
  {
  }

  /** loadBitmapFromPath as evidently intended: null when the decoder gives
      nothing, otherwise the decoded bitmap turned upright, whatever the SDK. */
  function LoadBitmapFromPath(plan: LoadPlan, decoded: Option<Dims>): (out: LoadOutcome)
    ensures out.NullPointer? == false
    ensures out.NotDecoded? <==> decoded.None?
    ensures decoded.Some? ==> out == Loaded(Upright(decoded.value, plan.rotateValue))
  {
    if decoded.None? then NotDecoded
    else Loaded(Upright(decoded.value, plan.rotateValue))
  }

  /** The corrected outcome agrees with the code as written wherever no
      rotation is involved, and with its pre-Honeycomb branch on every
      successful decode. */
  lemma LoadBitmapFromPathAgreesWhereAsWrittenIsRight(plan: LoadPlan, decoded: Option<Dims>, sdkInt: int)
    requires plan.rotateValue in {0, 90, 180, 270}
    requires plan.rotateValue == 0 || (sdkInt < Honeycomb && decoded.Some?)
    ensures LoadBitmapFromPath(plan, decoded) == LoadBitmapFromPathAsWritten(plan, decoded, sdkInt)
  {
  }

  /** The upright frame of the loaded picture is the frame the request was
      stated in: after a quarter turn the decoded sides are swapped back. */
  lemma LoadedPictureIsUpright(rotate: bool, orientation: int, bounds: DecodeBounds,
                               reqWidth: int, reqHeight: int, d: Dims)
    requires reqWidth > 0 && reqHeight > 0
    ensures var plan := PlanLoadBitmapFromPath(rotate, orientation, bounds, reqWidth, reqHeight);
            var out := LoadBitmapFromPath(plan, Some(d));
            out.Loaded? && Upright(out.dims, plan.rotateValue) == d
  {
  }
}
