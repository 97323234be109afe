/** Resolution of the Exif Orientation tag (0x0112, section 4.6.4 of the
    Exif 2.3 standard) to the clockwise rotation, in degrees, that makes a
    decoded picture upright (getRotationFromOrientation). */
module Orientation {

  // Orientation codes as ExifInterface names them.
  const OrientationUndefined: int := 0
  const OrientationNormal: int := 1
  const OrientationFlipHorizontal: int := 2
  const OrientationRotate180: int := 3
  const OrientationFlipVertical: int := 4
  const OrientationTranspose: int := 5
  const OrientationRotate90: int := 6
  const OrientationTransverse: int := 7
  const OrientationRotate270: int := 8

  /** The case labels of the switch in getRotationFromOrientation, in source
      order. Each case body adds 90 and falls through to the next; only the
      last one breaks; there is no default. */
  const CaseLabels: seq<int> := [OrientationRotate270, OrientationRotate180, OrientationRotate90]

  /** The index of the first case label, from index i on, that matches the
      switch value, or |CaseLabels| when none does. */
  function EntryCase(orientation: int, i: nat): (k: nat)
    requires i <= |CaseLabels|
    ensures i <= k <= |CaseLabels|
    ensures k < |CaseLabels| ==> CaseLabels[k] == orientation
    ensures forall j :: i <= j < k ==> CaseLabels[j] != orientation
    decreases |CaseLabels| - i
  {
    if i == |CaseLabels| || CaseLabels[i] == orientation then i
    else EntryCase(orientation, i + 1)
  }

  /** Runs the case bodies from index k to the break, each adding 90 to the
      accumulated rotation. */
  function RunCasesFrom(k: nat, rotateValue: int): (r: int)
    requires k <= |CaseLabels|
    ensures r == rotateValue + 90 * (|CaseLabels| - k)
    decreases |CaseLabels| - k
  {
    if k == |CaseLabels| then rotateValue
    else RunCasesFrom(k + 1, rotateValue + 90)
  }

  /** getRotationFromOrientation: enter the switch at the matching label,
      starting from 0, and fall through to the break. */
  function GetRotationFromOrientation(orientation: int): (degrees: int)
    ensures degrees in {0, 90, 180, 270}
  {
    RunCasesFrom(EntryCase(orientation, 0), 0)
  }

  /** The direct lookup table the fall-through switch implements. */
  function RotationTable(orientation: int): int
  {
    if orientation == OrientationRotate90 then 90
    else if orientation == OrientationRotate180 then 180
    else if orientation == OrientationRotate270 then 270
    else 0
  }

  /** The fall-through sums agree with the lookup table on every code. */
  lemma RotationMatchesTable(orientation: int)
    ensures GetRotationFromOrientation(orientation) == RotationTable(orientation)
  {
    var k := EntryCase(orientation, 0);
    assert CaseLabels[0] == 8 && CaseLabels[1] == 3 && CaseLabels[2] == 6;
    if k == |CaseLabels| {
      assert orientation !in {8, 3, 6} by {
        assert forall j :: 0 <= j < 3 ==> CaseLabels[j] != orientation;
      }
    }
  }

  /** Only the three rotation codes rotate; the normal, undefined, flip,
      transpose and transverse codes all give 0. */
  lemma RotationIsZeroExactlyForNonRotatingCodes(orientation: int)
    ensures GetRotationFromOrientation(orientation) == 0
            <==> orientation !in {OrientationRotate90, OrientationRotate180, OrientationRotate270}
  {
    RotationMatchesTable(orientation);
  }

  /** A quarter turn (90 or 270 degrees) exchanges the picture's width and
      height. */
  predicate IsQuarterTurn(degrees: int)
  {
    degrees == 90 || degrees == 270
  }
}
