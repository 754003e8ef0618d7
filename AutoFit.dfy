/**
 * The preview view that keeps a fixed aspect ratio: `setAspectRatio` stores a ratio and
 * `onMeasure` shrinks the offered size to the largest size of that ratio that fits,
 * all in 32-bit integer division (modelled on unbounded naturals).
 */
module AutoFit {
  import Arith

  datatype Size = Size(width: nat, height: nat)

  /**
   * The measured size for a stored ratio `ratioWidth:ratioHeight` and the offered
   * `width` x `height` (both `MeasureSpec.getSize` values, never negative).
   */
  function Measure(ratioWidth: nat, ratioHeight: nat, width: nat, height: nat): (m: Size)
    ensures ratioWidth == 0 || ratioHeight == 0 ==> m == Size(width, height)
    ensures ratioWidth > 0 && ratioHeight > 0 ==>
      m.width <= width && m.height <= height && (m.width == width || m.height == height)
  {
    if ratioWidth == 0 || ratioHeight == 0 then Size(width, height)
    else if width < height * ratioWidth / ratioHeight then
      WidthLimitedFits(ratioWidth, ratioHeight, width, height);
      Size(width, width * ratioHeight / ratioWidth)
    else Size(height * ratioWidth / ratioHeight, height)
  }

  /** When the width binds, the ratio-derived height stays within the offered height. */
  lemma WidthLimitedFits(ratioWidth: nat, ratioHeight: nat, width: nat, height: nat)
    requires ratioWidth > 0 && ratioHeight > 0
    requires width < height * ratioWidth / ratioHeight
    ensures width * ratioHeight / ratioWidth <= height
  {
    var q := height * ratioWidth / ratioHeight;
    assert q * ratioHeight <= height * ratioWidth;
    assert width * ratioHeight < q * ratioHeight by {
      Arith.MulMonotoneNat(width + 1, q, ratioHeight);
    }
    assert width * ratioHeight < height * ratioWidth;
    var p := width * ratioHeight / ratioWidth;
    assert p * ratioWidth <= width * ratioHeight;
    Arith.MulCancelLess(p, height, ratioWidth);
  }

  /**
   * The width-limited branch is taken exactly when the offered width is below the width
   * the ratio derives from the offered height; the other side is then the largest length
   * whose ratio-derived counterpart does not exceed the binding side.
   */
  lemma MeasureIsLargestFit(ratioWidth: nat, ratioHeight: nat, width: nat, height: nat)
    requires ratioWidth > 0 && ratioHeight > 0
    ensures var m := Measure(ratioWidth, ratioHeight, width, height);
      && (m.width == width && m.height * ratioWidth <= width * ratioHeight < (m.height + 1) * ratioWidth
          <== width < height * ratioWidth / ratioHeight)
      && (m.height == height && m.width * ratioHeight <= height * ratioWidth < (m.width + 1) * ratioHeight
          <== !(width < height * ratioWidth / ratioHeight))
  {
    var p := width * ratioHeight / ratioWidth;
    var q := height * ratioWidth / ratioHeight;
    assert width * ratioHeight == p * ratioWidth + width * ratioHeight % ratioWidth;
    assert height * ratioWidth == q * ratioHeight + height * ratioWidth % ratioHeight;
  }

  /**
   * Only the ratio matters, not the numbers it is given in: `setAspectRatio(2, 3)` and
   * `setAspectRatio(4, 6)` measure alike.
   */
  lemma MeasureScaleInvariant(a: nat, b: nat, k: nat, width: nat, height: nat)
    requires a > 0 && b > 0 && k > 0
    ensures Measure(k * a, k * b, width, height) == Measure(a, b, width, height)
  {
    Arith.MulAtLeast(k, a);
    Arith.MulAtLeast(k, b);
    assert height * (k * a) == k * (height * a);
    assert width * (k * b) == k * (width * b);
    Arith.DivScale(height * a, b, k);
    Arith.DivScale(width * b, a, k);
  }

  /** The view: its stored ratio is either unset (both 0) or a positive pair. */
  class AutoFitTextureView {
    var ratioWidth: nat
    var ratioHeight: nat

    ghost predicate Valid()
      reads this
    {
      (ratioWidth == 0 && ratioHeight == 0) || (ratioWidth > 0 && ratioHeight > 0)
    }

    constructor ()
      ensures Valid() && ratioWidth == 0 && ratioHeight == 0
    {
      ratioWidth := 0;
      ratioHeight := 0;
    }

    /**
     * `setAspectRatio`: a non-positive side is refused (the source throws
     * `IllegalArgumentException`, here `false` with nothing changed); otherwise both are stored.
     */
    method SetAspectRatio(width: int, height: int) returns (accepted: bool)
      requires Valid()
      modifies this
      ensures Valid()
      ensures accepted <==> width > 0 && height > 0
      ensures accepted ==> ratioWidth == width && ratioHeight == height
      ensures !accepted ==> ratioWidth == old(ratioWidth) && ratioHeight == old(ratioHeight)
    {
      if !(width > 0 && height > 0) {
        return false;
      }
      ratioWidth := width;
      ratioHeight := height;
      accepted := true;
    }

    /** `onMeasure`: the dimensions passed to `setMeasuredDimension`. */
    method OnMeasure(width: nat, height: nat) returns (measured: Size)
      requires Valid()
      ensures measured == Measure(ratioWidth, ratioHeight, width, height)
    {
      measured := Measure(ratioWidth, ratioHeight, width, height);
    }
  }
}
