/**
 * Angle arithmetic of the capture activity: the display rotation codes reported by the
 * window manager, the clockwise angle handed to the recogniser, the angle normalisation
 * done before a bitmap is rotated, and the "preview axes are swapped" test.
 */
module Orientation {

  import Arith

  /** Display rotation codes (android.view.Surface). */
  const ROTATION_0: int := 0
  const ROTATION_90: int := 1
  const ROTATION_180: int := 2
  const ROTATION_270: int := 3

  /** The two rotations in which the display axes are perpendicular to the natural ones. */
  predicate Perpendicular(rotation: int) {
    rotation == ROTATION_90 || rotation == ROTATION_270
  }

  /** Kotlin's `Int % Int`: the remainder of division truncated toward zero. */
  function KotlinRem(a: int, b: int): (r: int)
    requires b > 0
    ensures (a >= 0 ==> 0 <= r) && (a <= 0 ==> r <= 0)
    ensures -b < r < b
    ensures (a - r) % b == 0
  {
    if a >= 0 then
      Arith.DivModUnique(a - a % b, b, a / b, 0);
      a % b
    else
      Arith.DivModUnique(a + (-a) % b, b, -((-a) / b), 0);
      -((-a) % b)
  }

  /** Degrees of a display rotation code; unknown codes count as upright. */
  function DeviceDegrees(rotation: int): (d: int)
    ensures d == 0 || d == 90 || d == 180 || d == 270
    ensures ROTATION_0 <= rotation <= ROTATION_270 ==> d == 90 * rotation
  {
    if rotation == ROTATION_0 then 0
    else if rotation == ROTATION_90 then 90
    else if rotation == ROTATION_180 then 180
    else if rotation == ROTATION_270 then 270
    else 0
  }

  /**
   * The angle passed to the recogniser: `(sensorOrientation - deviceRotation + 360) % 360`.
   * For a sensor angle in [0, 360) it is the angle that, added to the display rotation,
   * gives back the sensor angle modulo a full turn.
   */
  function ComputeRotationDegrees(rotation: int, sensorOrientation: int): (r: int)
    ensures -360 < r < 360
    ensures (r - (sensorOrientation - DeviceDegrees(rotation))) % 360 == 0
    ensures 0 <= sensorOrientation < 360 ==>
              0 <= r < 360 && (r + DeviceDegrees(rotation)) % 360 == sensorOrientation
  {
    KotlinRem(sensorOrientation - DeviceDegrees(rotation) + 360, 360)
  }

  /**
   * The normalisation at the head of `rotateBitmap`: `((degrees % 360) + 360) % 360`
   * with Kotlin's truncating `%`. It is the mathematical residue of `degrees` modulo 360,
   * for negative angles too; a result of 0 means the bitmap is returned unrotated.
   */
  function NormalizeDegrees(degrees: int): (d: int)
    ensures 0 <= d < 360
    ensures d == degrees % 360
  {
    KotlinRem(KotlinRem(degrees, 360) + 360, 360)
  }

  /** Normalising twice is normalising once; the recogniser angle is already normal for real sensors. */
  lemma NormalizeDegreesIdempotent(degrees: int, rotation: int, sensorOrientation: int)
    ensures NormalizeDegrees(NormalizeDegrees(degrees)) == NormalizeDegrees(degrees)
    ensures 0 <= sensorOrientation < 360 ==>
              NormalizeDegrees(ComputeRotationDegrees(rotation, sensorOrientation))
              == ComputeRotationDegrees(rotation, sensorOrientation)
  {
    var d := NormalizeDegrees(degrees);
    Arith.DivModUnique(d, 360, 0, d);
    if 0 <= sensorOrientation < 360 {
      var r := ComputeRotationDegrees(rotation, sensorOrientation);
      Arith.DivModUnique(r, 360, 0, r);
    }
  }

  /**
   * `swapped` in `openCamera`: whether the sensor axes are perpendicular to the display axes,
   * so that the preview size must be chosen against the view's transposed size.
   */
  predicate Swapped(rotation: int, sensorOrientation: int): (swapped: bool)
    ensures swapped ==> ROTATION_0 <= rotation <= ROTATION_270
    ensures swapped ==> sensorOrientation == 0 || sensorOrientation == 90 || sensorOrientation == 180 || sensorOrientation == 270
    ensures ROTATION_0 <= rotation <= ROTATION_270 && 0 <= sensorOrientation < 360 && sensorOrientation % 90 == 0 ==>
      (swapped <==> ((rotation % 2 == 0) <==> (sensorOrientation % 180 == 90)))
  {
    if rotation == ROTATION_0 || rotation == ROTATION_180 then
      sensorOrientation == 90 || sensorOrientation == 270
    else if rotation == ROTATION_90 || rotation == ROTATION_270 then
      sensorOrientation == 0 || sensorOrientation == 180
    else
      false
  }

  /**
   * For a known rotation code and a right-angle sensor mounting, the axes are swapped exactly
   * when the recogniser angle is a quarter turn (90 or 270 degrees).
   */
  lemma SwappedIffQuarterTurn(rotation: int, sensorOrientation: int)
    requires ROTATION_0 <= rotation <= ROTATION_270
    requires sensorOrientation in {0, 90, 180, 270}
    ensures Swapped(rotation, sensorOrientation) <==>
              ComputeRotationDegrees(rotation, sensorOrientation) % 180 == 90
  {
  }
}
