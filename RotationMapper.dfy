/**
 * Exact mapping of the capture rectangle between display (texture view) space and the unrotated
 * preview buffer, for the two perpendicular display rotations. The preview is shown cover-fit:
 * uniformly scaled so that the rotated buffer covers the whole view, and centred.
 *
 * Float arithmetic is modelled over `real`; `roundToInt` is `floor(x + 1/2)` and the
 * `and 0xFFFFFFFE` mask is rounding down to an even number.
 */
module RotationMapper {

  import opened Wrappers
  import opened Orientation

  /** android.graphics.Rect: integer bounds. */
  datatype Rect = Rect(left: int, top: int, right: int, bottom: int)

  datatype Point = Point(x: real, y: real)

  /** A real-valued bounding box (the `minX`, `minY`, `maxX`, `maxY` accumulators). */
  datatype Box = Box(minX: real, minY: real, maxX: real, maxY: real)

  /** The sizes both mappers read: the texture view and the unrotated preview buffer. */
  datatype Layout = Layout(viewW: int, viewH: int, bufW: int, bufH: int)

  predicate ValidLayout(g: Layout) {
    g.viewW > 0 && g.viewH > 0 && g.bufW > 0 && g.bufH > 0
  }

  // ---------------------------------------------------------------- scalar helpers

  function Max(a: real, b: real): real { if a >= b then a else b }
  function Min(a: real, b: real): real { if a <= b then a else b }

  /** `min(max(v, lo), hi)` */
  function Clamp(v: real, lo: real, hi: real): real { Min(Max(v, lo), hi) }

  /** Kotlin `Float.roundToInt()` (round half up), ignoring the saturation at the Int range. */
  function RoundToInt(x: real): (n: int)
    ensures n as real <= x + 0.5 < n as real + 1.0
  {
    (x + 0.5).Floor
  }

  /** `n and 0xFFFFFFFE`: clear the lowest bit of the two's-complement value, i.e. round down to even. */
  function EvenDown(n: int): (e: int)
    ensures e % 2 == 0 && e <= n <= e + 1
  {
    n - n % 2
  }

  function CoerceAtLeast(n: int, lo: int): int { if n < lo then lo else n }
  function CoerceAtMost(n: int, hi: int): int { if n > hi then hi else n }

  // ---------------------------------------------------------------- the cover-fit transform

  /** Width and height of the buffer once turned to the display's orientation. */
  function RotW(g: Layout): real { g.bufH as real }
  function RotH(g: Layout): real { g.bufW as real }

  function Scale(g: Layout): (s: real)
    requires ValidLayout(g)
    ensures s > 0.0
  {
    Max(g.viewW as real / RotW(g), g.viewH as real / RotH(g))
  }

  function OffsetX(g: Layout): real
    requires ValidLayout(g)
  {
    (g.viewW as real - Scale(g) * RotW(g)) / 2.0
  }

  function OffsetY(g: Layout): real
    requires ValidLayout(g)
  {
    (g.viewH as real - Scale(g) * RotH(g)) / 2.0
  }

  function ViewToRotated(g: Layout, p: Point): Point
    requires ValidLayout(g)
  {
    Point((p.x - OffsetX(g)) / Scale(g), (p.y - OffsetY(g)) / Scale(g))
  }

  function RotatedToView(g: Layout, p: Point): Point
    requires ValidLayout(g)
  {
    Point(p.x * Scale(g) + OffsetX(g), p.y * Scale(g) + OffsetY(g))
  }

  /** The rotation-specific axis swap; ROTATION_270 is the `else` branch of the source. */
  function RotatedToUnrotated(g: Layout, rotation: int, p: Point): Point {
    if rotation == ROTATION_90 then Point(g.bufW as real - p.y, p.x)
    else Point(p.y, g.bufH as real - p.x)
  }

  function UnrotatedToRotated(g: Layout, rotation: int, p: Point): Point {
    if rotation == ROTATION_90 then Point(p.y, g.bufW as real - p.x)
    else Point(g.bufH as real - p.y, p.x)
  }

  function ClampToRotated(g: Layout, p: Point): Point {
    Point(Clamp(p.x, 0.0, RotW(g)), Clamp(p.y, 0.0, RotH(g)))
  }

  function ClampBox(b: Box, w: real, h: real): (c: Box)
    requires w >= 0.0 && h >= 0.0
    ensures 0.0 <= c.minX <= w && 0.0 <= c.maxX <= w && 0.0 <= c.minY <= h && 0.0 <= c.maxY <= h
    ensures b.minX <= b.maxX ==> c.minX <= c.maxX
    ensures b.minY <= b.maxY ==> c.minY <= c.maxY
  {
    Box(Clamp(b.minX, 0.0, w), Clamp(b.minY, 0.0, h), Clamp(b.maxX, 0.0, w), Clamp(b.maxY, 0.0, h))
  }

  // ---------------------------------------------------------------- bounding boxes of corners

  function RectAsBox(r: Rect): Box {
    Box(r.left as real, r.top as real, r.right as real, r.bottom as real)
  }

  /** The `corners` array: left-top, right-top, right-bottom, left-bottom. */
  function Corners(b: Box): seq<Point> {
    [Point(b.minX, b.minY), Point(b.maxX, b.minY), Point(b.maxX, b.maxY), Point(b.minX, b.maxY)]
  }

  /** One iteration of the accumulation: each bound moves only when the point lies strictly beyond it. */
  function Extend(b: Box, p: Point): Box {
    Box(if p.x < b.minX then p.x else b.minX,
        if p.y < b.minY then p.y else b.minY,
        if p.x > b.maxX then p.x else b.maxX,
        if p.y > b.maxY then p.y else b.maxY)
  }

  /**
   * The accumulators after visiting `ps` in order. The source starts them at plus and minus
   * infinity, so the first point always sets all four; that is the base case here.
   */
  function Bounds(ps: seq<Point>): (b: Box)
    requires |ps| > 0
    ensures b.minX <= b.maxX && b.minY <= b.maxY
  {
    if |ps| == 1 then Box(ps[0].x, ps[0].y, ps[0].x, ps[0].y)
    else Extend(Bounds(ps[..|ps| - 1]), ps[|ps| - 1])
  }

  // ---------------------------------------------------------------- the two mappings

  /** View corner -> rotated buffer, clamped into the rotated buffer, -> unrotated buffer. */
  function ForwardCorner(g: Layout, rotation: int, p: Point): Point
    requires ValidLayout(g)
  {
    RotatedToUnrotated(g, rotation, ClampToRotated(g, ViewToRotated(g, p)))
  }

  function ForwardCorners(g: Layout, rotation: int, rect: Rect): (ps: seq<Point>)
    requires ValidLayout(g)
    ensures |ps| == 4
  {
    var c := Corners(RectAsBox(rect));
    [ForwardCorner(g, rotation, c[0]), ForwardCorner(g, rotation, c[1]),
     ForwardCorner(g, rotation, c[2]), ForwardCorner(g, rotation, c[3])]
  }

  /** The real-valued buffer box of a view rectangle, before snapping (steps up to the final clamp). */
  function ForwardBox(g: Layout, rotation: int, rect: Rect): Box
    requires ValidLayout(g)
  {
    ClampBox(Bounds(ForwardCorners(g, rotation, rect)), g.bufW as real, g.bufH as real)
  }

  /**
   * One axis of the snapping: origin rounded and forced even and non-negative, far edge rounded,
   * forced even and capped at the buffer, then nudged to origin + 2 (again capped) when it does
   * not lie beyond the origin.
   */
  function SnapSpan(lo: real, hi: real, bound: int): (span: (int, int))
    ensures 0 <= span.0 && span.0 % 2 == 0 && span.1 <= bound
    ensures span.0 + 2 <= bound ==> span.0 < span.1
  {
    var l := CoerceAtLeast(EvenDown(RoundToInt(lo)), 0);
    var r := CoerceAtMost(EvenDown(RoundToInt(hi)), bound);
    (l, if r <= l then CoerceAtMost(l + 2, bound) else r)
  }

  /** Rounding to even bounds, then the forced minimum extent of 2 pixels, capped at the buffer. */
  function SnapToBuffer(g: Layout, b: Box): Rect {
    var (l, r) := SnapSpan(b.minX, b.maxX, g.bufW);
    var (t, bt) := SnapSpan(b.minY, b.maxY, g.bufH);
    Rect(l, t, r, bt)
  }

  function ForwardRect(g: Layout, rotation: int, rect: Rect): (r: Rect)
    requires ValidLayout(g)
    ensures 0 <= r.left && r.left % 2 == 0 && r.right <= g.bufW
    ensures 0 <= r.top && r.top % 2 == 0 && r.bottom <= g.bufH
  {
    SnapToBuffer(g, ForwardBox(g, rotation, rect))
  }

  /** Buffer corner -> rotated buffer -> view. */
  function InverseCorner(g: Layout, rotation: int, p: Point): Point
    requires ValidLayout(g)
  {
    RotatedToView(g, UnrotatedToRotated(g, rotation, p))
  }

  function InverseCorners(g: Layout, rotation: int, b: Box): (ps: seq<Point>)
    requires ValidLayout(g)
    ensures |ps| == 4
  {
    var c := Corners(b);
    [InverseCorner(g, rotation, c[0]), InverseCorner(g, rotation, c[1]),
     InverseCorner(g, rotation, c[2]), InverseCorner(g, rotation, c[3])]
  }

  /** The real-valued view box of a buffer box, clamped into the view, before rounding. */
  function InverseBox(g: Layout, rotation: int, b: Box): Box
    requires ValidLayout(g)
  {
    ClampBox(Bounds(InverseCorners(g, rotation, b)), g.viewW as real, g.viewH as real)
  }

  function InverseRect(g: Layout, rotation: int, buf: Rect): (r: Rect)
    requires ValidLayout(g)
    ensures r.left <= r.right && r.top <= r.bottom
  {
    var b := InverseBox(g, rotation, RectAsBox(buf));
    RoundToIntMonotone(b.minX, b.maxX);
    RoundToIntMonotone(b.minY, b.maxY);
    Rect(RoundToInt(b.minX), RoundToInt(b.minY), RoundToInt(b.maxX), RoundToInt(b.maxY))
  }

  // ---------------------------------------------------------------- the source's procedures

  /**
   * `mapViewRectToUnrotatedBufferExact`: the corner loop with its four accumulators. A rotation
   * other than ROTATION_90/ROTATION_270 fails the source's `require` and yields `None`.
   */
  method MapViewRectToUnrotatedBufferExact(g: Layout, rotation: int, rectInView: Rect)
    returns (res: Option<Rect>)
    requires ValidLayout(g)
    ensures res.None? <==> !Perpendicular(rotation)
    ensures res.Some? ==> res.value == ForwardRect(g, rotation, rectInView)
  {
    if !Perpendicular(rotation) {
      return None;
    }
    var corners := Corners(RectAsBox(rectInView));
    ghost var mapped := ForwardCorners(g, rotation, rectInView);
    var minX, minY, maxX, maxY := 0.0, 0.0, 0.0, 0.0;
    for i := 0 to 4
      invariant i > 0 ==> Box(minX, minY, maxX, maxY) == Bounds(mapped[..i])
    {
      var pr := ViewToRotated(g, corners[i]);
      var pc := ClampToRotated(g, pr);
      var pu := RotatedToUnrotated(g, rotation, pc);
      assert pu == mapped[i];
      // the accumulators start at +/- infinity: the first corner always sets them
      if i == 0 || pu.x < minX { minX := pu.x; }
      if i == 0 || pu.y < minY { minY := pu.y; }
      if i == 0 || pu.x > maxX { maxX := pu.x; }
      if i == 0 || pu.y > maxY { maxY := pu.y; }
      assert mapped[..i + 1][..i] == mapped[..i];
    }
    assert mapped[..4] == mapped;
    var box := ClampBox(Box(minX, minY, maxX, maxY), g.bufW as real, g.bufH as real);
    return Some(SnapToBuffer(g, box));
  }

  /** `unrotatedBufferRectToViewRectExact`: the inverse corner loop, clamp into the view, round. */
  method UnrotatedBufferRectToViewRectExact(g: Layout, rotation: int, buf: Rect)
    returns (res: Option<Rect>)
    requires ValidLayout(g)
    ensures res.None? <==> !Perpendicular(rotation)
    ensures res.Some? ==> res.value == InverseRect(g, rotation, buf)
  {
    if !Perpendicular(rotation) {
      return None;
    }
    var corners := Corners(RectAsBox(buf));
    ghost var mapped := InverseCorners(g, rotation, RectAsBox(buf));
    var minX, minY, maxX, maxY := 0.0, 0.0, 0.0, 0.0;
    for i := 0 to 4
      invariant i > 0 ==> Box(minX, minY, maxX, maxY) == Bounds(mapped[..i])
    {
      var pr := UnrotatedToRotated(g, rotation, corners[i]);
      var pv := RotatedToView(g, pr);
      assert pv == mapped[i];
      if i == 0 || pv.x < minX { minX := pv.x; }
      if i == 0 || pv.y < minY { minY := pv.y; }
      if i == 0 || pv.x > maxX { maxX := pv.x; }
      if i == 0 || pv.y > maxY { maxY := pv.y; }
      assert mapped[..i + 1][..i] == mapped[..i];
    }
    assert mapped[..4] == mapped;
    var vw, vh := g.viewW as real, g.viewH as real;
    var l := RoundToInt(Clamp(minX, 0.0, vw));
    var t := RoundToInt(Clamp(minY, 0.0, vh));
    var r := RoundToInt(Clamp(maxX, 0.0, vw));
    var b := RoundToInt(Clamp(maxY, 0.0, vh));
    return Some(Rect(l, t, r, b));
  }

  // ---------------------------------------------------------------- properties

  lemma MulMonotone(a: real, b: real, c: real)
    requires a <= b && c > 0.0
    ensures a * c <= b * c
  {
    assert b * c - a * c == (b - a) * c;
  }

  /**
   * Cover-fit: the scaled rotated buffer covers the view in both axes and fits it exactly in one,
   * so both centring offsets are non-positive.
   */
  lemma CoverFit(g: Layout)
    requires ValidLayout(g)
    ensures Scale(g) * RotW(g) >= g.viewW as real && Scale(g) * RotH(g) >= g.viewH as real
    ensures Scale(g) * RotW(g) == g.viewW as real || Scale(g) * RotH(g) == g.viewH as real
    ensures OffsetX(g) <= 0.0 && OffsetY(g) <= 0.0
  {
    var s, a, b := Scale(g), g.viewW as real / RotW(g), g.viewH as real / RotH(g);
    assert a * RotW(g) == g.viewW as real;
    assert b * RotH(g) == g.viewH as real;
    MulMonotone(a, s, RotW(g));
    MulMonotone(b, s, RotH(g));
  }

  /** `rotatedToView` undoes `viewToRotated` and vice versa. */
  lemma ViewRotatedInverse(g: Layout, p: Point)
    requires ValidLayout(g)
    ensures RotatedToView(g, ViewToRotated(g, p)) == p
    ensures ViewToRotated(g, RotatedToView(g, p)) == p
  {
    var s := Scale(g);
    assert (p.x - OffsetX(g)) / s * s == p.x - OffsetX(g);
    assert (p.y - OffsetY(g)) / s * s == p.y - OffsetY(g);
    assert (p.x * s + OffsetX(g) - OffsetX(g)) / s == p.x;
    assert (p.y * s + OffsetY(g) - OffsetY(g)) / s == p.y;
  }

  /** For each perpendicular rotation, `unrotatedToRotated` undoes `rotatedToUnrotated` and vice versa. */
  lemma RotationInverse(g: Layout, rotation: int, p: Point)
    requires Perpendicular(rotation)
    ensures UnrotatedToRotated(g, rotation, RotatedToUnrotated(g, rotation, p)) == p
    ensures RotatedToUnrotated(g, rotation, UnrotatedToRotated(g, rotation, p)) == p
  {
  }

  /** Every clamped and un-rotated corner lies in the buffer `[0, bufW] x [0, bufH]`. */
  lemma ForwardCornerInBuffer(g: Layout, rotation: int, p: Point)
    requires ValidLayout(g) && Perpendicular(rotation)
    ensures 0.0 <= ForwardCorner(g, rotation, p).x <= g.bufW as real
    ensures 0.0 <= ForwardCorner(g, rotation, p).y <= g.bufH as real
  {
  }

  /**
   * The accumulated box is the bounding box of the visited points: every point lies in it and
   * each of its four bounds is attained by some point.
   */
  lemma {:induction false} BoundsIsBoundingBox(ps: seq<Point>)
    requires |ps| > 0
    ensures var b := Bounds(ps);
      && (forall i :: 0 <= i < |ps| ==> b.minX <= ps[i].x <= b.maxX && b.minY <= ps[i].y <= b.maxY)
      && (exists i :: 0 <= i < |ps| && ps[i].x == b.minX)
      && (exists i :: 0 <= i < |ps| && ps[i].y == b.minY)
      && (exists i :: 0 <= i < |ps| && ps[i].x == b.maxX)
      && (exists i :: 0 <= i < |ps| && ps[i].y == b.maxY)
  {
    var n := |ps|;
    if n > 1 {
      var init := ps[..n - 1];
      BoundsIsBoundingBox(init);
      var b0, p := Bounds(init), ps[n - 1];
      assert forall i :: 0 <= i < n - 1 ==> ps[i] == init[i];
      var i0 :| 0 <= i0 < n - 1 && init[i0].x == b0.minX;
      var i1 :| 0 <= i1 < n - 1 && init[i1].y == b0.minY;
      var i2 :| 0 <= i2 < n - 1 && init[i2].x == b0.maxX;
      var i3 :| 0 <= i3 < n - 1 && init[i3].y == b0.maxY;
      var b := Bounds(ps);
      assert ps[if p.x < b0.minX then n - 1 else i0].x == b.minX;
      assert ps[if p.y < b0.minY then n - 1 else i1].y == b.minY;
      assert ps[if p.x > b0.maxX then n - 1 else i2].x == b.maxX;
      assert ps[if p.y > b0.maxY then n - 1 else i3].y == b.maxY;
    } else {
      assert ps[0].x == Bounds(ps).minX;
    }
  }

  /** Four points that are the corners of the box `[L, R] x [T, B]`, in any order, have that box as bounds. */
  lemma BoundsOfCorners(ps: seq<Point>, L: real, T: real, R: real, B: real)
    requires L <= R && T <= B && |ps| == 4
    requires forall i :: 0 <= i < 4 ==> (ps[i].x == L || ps[i].x == R) && (ps[i].y == T || ps[i].y == B)
    requires Point(L, T) in ps && Point(R, B) in ps
    ensures Bounds(ps) == Box(L, T, R, B)
  {
    BoundsIsBoundingBox(ps);
  }

  lemma RoundToIntInRange(x: real, hi: int)
    requires 0.0 <= x <= hi as real
    ensures 0 <= RoundToInt(x) <= hi
  {
    assert (hi as real + 0.5).Floor == hi;
  }

  lemma RoundToIntMonotone(x: real, y: real)
    requires x <= y
    ensures RoundToInt(x) <= RoundToInt(y)
  {
  }

  /** One axis of the snapping, for real bounds inside `[0, bound]`. */
  lemma SnapSpanBounds(lo: real, hi: real, bound: int)
    requires bound > 0 && 0.0 <= lo <= bound as real && 0.0 <= hi <= bound as real
    ensures var (l, r) := SnapSpan(lo, hi, bound);
      && 0 <= l <= r <= bound && l % 2 == 0
      && (l + 2 <= bound ==> l < r)
      && (bound % 2 == 0 ==> r % 2 == 0 && (r - l) % 2 == 0)
  {
    RoundToIntInRange(lo, bound);
    RoundToIntInRange(hi, bound);
    var l := EvenDown(RoundToInt(lo));
    var far := EvenDown(RoundToInt(hi));
    assert SnapSpan(lo, hi, bound) == (l, if far <= l then CoerceAtMost(l + 2, bound) else far);
    if bound % 2 == 0 {
      Arith.EvenDifference(SnapSpan(lo, hi, bound).1, l);
    }
  }

  /**
   * The crop rectangle handed to the JPEG encoder: origin even and inside the buffer, far edges
   * inside the buffer and not before the origin, a positive extent whenever the buffer leaves room
   * for the 2-pixel nudge, and even far edges (so even extents) when the buffer dimensions are even.
   */
  lemma ForwardRectBounds(g: Layout, rotation: int, rect: Rect)
    requires ValidLayout(g)
    ensures var r := ForwardRect(g, rotation, rect);
      && 0 <= r.left <= r.right <= g.bufW && 0 <= r.top <= r.bottom <= g.bufH
      && r.left % 2 == 0 && r.top % 2 == 0
      && (r.left + 2 <= g.bufW ==> r.left < r.right)
      && (r.top + 2 <= g.bufH ==> r.top < r.bottom)
      && (g.bufW % 2 == 0 ==> r.right % 2 == 0 && (r.right - r.left) % 2 == 0)
      && (g.bufH % 2 == 0 ==> r.bottom % 2 == 0 && (r.bottom - r.top) % 2 == 0)
  {
    SnapToBufferBounds(g, ForwardBox(g, rotation, rect));
  }

  lemma SnapToBufferBounds(g: Layout, b: Box)
    requires ValidLayout(g)
    requires 0.0 <= b.minX <= g.bufW as real && 0.0 <= b.maxX <= g.bufW as real
    requires 0.0 <= b.minY <= g.bufH as real && 0.0 <= b.maxY <= g.bufH as real
    ensures var r := SnapToBuffer(g, b);
      && 0 <= r.left <= r.right <= g.bufW && 0 <= r.top <= r.bottom <= g.bufH
      && r.left % 2 == 0 && r.top % 2 == 0
      && (r.left + 2 <= g.bufW ==> r.left < r.right)
      && (r.top + 2 <= g.bufH ==> r.top < r.bottom)
      && (g.bufW % 2 == 0 ==> r.right % 2 == 0 && (r.right - r.left) % 2 == 0)
      && (g.bufH % 2 == 0 ==> r.bottom % 2 == 0 && (r.bottom - r.top) % 2 == 0)
  {
    SnapSpanBounds(b.minX, b.maxX, g.bufW);
    SnapSpanBounds(b.minY, b.maxY, g.bufH);
    var x := SnapSpan(b.minX, b.maxX, g.bufW);
    var y := SnapSpan(b.minY, b.maxY, g.bufH);
    assert SnapToBuffer(g, b) == Rect(x.0, y.0, x.1, y.1);
  }

  /** The feedback rectangle lies inside the view and is not inverted. */
  lemma InverseRectBounds(g: Layout, rotation: int, buf: Rect)
    requires ValidLayout(g)
    ensures var r := InverseRect(g, rotation, buf);
      0 <= r.left <= r.right <= g.viewW && 0 <= r.top <= r.bottom <= g.viewH
  {
    var b := InverseBox(g, rotation, RectAsBox(buf));
    RoundToIntInRange(b.minX, g.viewW);
    RoundToIntInRange(b.minY, g.viewH);
    RoundToIntInRange(b.maxX, g.viewW);
    RoundToIntInRange(b.maxY, g.viewH);
    RoundToIntMonotone(b.minX, b.maxX);
    RoundToIntMonotone(b.minY, b.maxY);
  }

  /** A view coordinate inside the view maps inside the rotated buffer, so the corner clamp is inactive. */
  lemma InsideMapsInside(v: real, off: real, s: real, viewLen: real, rotLen: real)
    requires s > 0.0 && 0.0 <= v <= viewLen && viewLen <= s * rotLen && off == (viewLen - s * rotLen) / 2.0
    ensures 0.0 <= (v - off) / s <= rotLen
  {
    var q := (v - off) / s;
    assert q * s == v - off;
    if q < 0.0 {
      MulMonotone(q, 0.0, s);
    }
    if q > rotLen {
      MulMonotone(rotLen, q, s);
    }
  }

  lemma DivMonotone(a: real, b: real, s: real)
    requires a <= b && s > 0.0
    ensures a / s <= b / s
  {
    assert b / s - a / s == (b - a) / s;
  }

  /** Inside the view, the clamp of a corner into the rotated buffer changes nothing. */
  lemma ClampInactive(g: Layout, p: Point)
    requires ValidLayout(g)
    requires 0.0 <= p.x <= g.viewW as real && 0.0 <= p.y <= g.viewH as real
    ensures ClampToRotated(g, ViewToRotated(g, p)) == ViewToRotated(g, p)
  {
    CoverFit(g);
    InsideMapsInside(p.x, OffsetX(g), Scale(g), g.viewW as real, RotW(g));
    InsideMapsInside(p.y, OffsetY(g), Scale(g), g.viewH as real, RotH(g));
  }

  /** Inside the view, the real forward box is the exact image of the rectangle. */
  lemma ForwardBoxInside(g: Layout, rotation: int, rect: Rect)
    requires ValidLayout(g) && Perpendicular(rotation)
    requires 0 <= rect.left <= rect.right <= g.viewW && 0 <= rect.top <= rect.bottom <= g.viewH
    ensures var lt := ViewToRotated(g, Point(rect.left as real, rect.top as real));
      var rb := ViewToRotated(g, Point(rect.right as real, rect.bottom as real));
      ForwardBox(g, rotation, rect) ==
        if rotation == ROTATION_90 then Box(g.bufW as real - rb.y, lt.x, g.bufW as real - lt.y, rb.x)
        else Box(lt.y, g.bufH as real - rb.x, rb.y, g.bufH as real - lt.x)
  {
    var L, T, R, B := rect.left as real, rect.top as real, rect.right as real, rect.bottom as real;
    var lt, rb := ViewToRotated(g, Point(L, T)), ViewToRotated(g, Point(R, B));
    var c := Corners(RectAsBox(rect));
    ClampInactive(g, c[0]);
    ClampInactive(g, c[1]);
    ClampInactive(g, c[2]);
    ClampInactive(g, c[3]);
    DivMonotone(L - OffsetX(g), R - OffsetX(g), Scale(g));
    DivMonotone(T - OffsetY(g), B - OffsetY(g), Scale(g));
    assert lt.x <= rb.x && lt.y <= rb.y;
    assert ViewToRotated(g, c[1]) == Point(rb.x, lt.y);
    assert ViewToRotated(g, c[3]) == Point(lt.x, rb.y);
    var ps := ForwardCorners(g, rotation, rect);
    var W, H := g.bufW as real, g.bufH as real;
    ClampInactive(g, Point(L, T));
    ClampInactive(g, Point(R, B));
    if rotation == ROTATION_90 {
      assert ps == [Point(W - lt.y, lt.x), Point(W - lt.y, rb.x), Point(W - rb.y, rb.x), Point(W - rb.y, lt.x)];
      BoundsOfCorners(ps, W - rb.y, lt.x, W - lt.y, rb.x);
    } else {
      assert ps == [Point(lt.y, H - lt.x), Point(lt.y, H - rb.x), Point(rb.y, H - rb.x), Point(rb.y, H - lt.x)];
      BoundsOfCorners(ps, lt.y, H - rb.x, rb.y, H - lt.x);
    }
  }

  /**
   * Round trip over the reals: for a rectangle inside the view, mapping its real buffer box back
   * gives the rectangle itself. What separates the integer rectangles from this exact round trip
   * is only the rounding and even-snapping.
   */
  lemma RealRoundTrip(g: Layout, rotation: int, rect: Rect)
    requires ValidLayout(g) && Perpendicular(rotation)
    requires 0 <= rect.left <= rect.right <= g.viewW && 0 <= rect.top <= rect.bottom <= g.viewH
    ensures InverseBox(g, rotation, ForwardBox(g, rotation, rect)) == RectAsBox(rect)
  {
    var L, T, R, B := rect.left as real, rect.top as real, rect.right as real, rect.bottom as real;
    ForwardBoxInside(g, rotation, rect);
    ViewRotatedInverse(g, Point(L, T));
    ViewRotatedInverse(g, Point(R, B));
    InverseOfImage(g, rotation, ViewToRotated(g, Point(L, T)), ViewToRotated(g, Point(R, B)), RectAsBox(rect));
  }

  /** `rotatedToView` acts on each coordinate separately. */
  lemma ViewComponents(g: Layout, p: Point, q: Point)
    requires ValidLayout(g)
    ensures RotatedToView(g, Point(p.x, q.y)) == Point(RotatedToView(g, p).x, RotatedToView(g, q).y)
    ensures RotatedToView(g, Point(q.x, p.y)) == Point(RotatedToView(g, q).x, RotatedToView(g, p).y)
  {
  }

  /** The inverse box of the buffer image of a view box `v` is `v` again. */
  lemma InverseOfImage(g: Layout, rotation: int, lt: Point, rb: Point, v: Box)
    requires ValidLayout(g) && Perpendicular(rotation)
    requires 0.0 <= v.minX <= v.maxX <= g.viewW as real && 0.0 <= v.minY <= v.maxY <= g.viewH as real
    requires RotatedToView(g, lt) == Point(v.minX, v.minY) && RotatedToView(g, rb) == Point(v.maxX, v.maxY)
    ensures var W, H := g.bufW as real, g.bufH as real;
      InverseBox(g, rotation,
        if rotation == ROTATION_90 then Box(W - rb.y, lt.x, W - lt.y, rb.x)
        else Box(lt.y, H - rb.x, rb.y, H - lt.x)) == v
  {
    var W, H := g.bufW as real, g.bufH as real;
    var fb := if rotation == ROTATION_90 then Box(W - rb.y, lt.x, W - lt.y, rb.x)
              else Box(lt.y, H - rb.x, rb.y, H - lt.x);
    var ps := InverseCorners(g, rotation, fb);
    var L, T, R, B := v.minX, v.minY, v.maxX, v.maxY;
    var lb, rt := Point(lt.x, rb.y), Point(rb.x, lt.y);
    ViewComponents(g, lt, rb);
    var c := Corners(fb);
    if rotation == ROTATION_90 {
      assert UnrotatedToRotated(g, rotation, c[0]) == lb;
      assert UnrotatedToRotated(g, rotation, c[1]) == lt;
      assert UnrotatedToRotated(g, rotation, c[2]) == rt;
      assert UnrotatedToRotated(g, rotation, c[3]) == rb;
      assert ps == [Point(L, B), Point(L, T), Point(R, T), Point(R, B)];
    } else {
      assert UnrotatedToRotated(g, rotation, c[0]) == rt;
      assert UnrotatedToRotated(g, rotation, c[1]) == rb;
      assert UnrotatedToRotated(g, rotation, c[2]) == lb;
      assert UnrotatedToRotated(g, rotation, c[3]) == lt;
      assert ps == [Point(R, T), Point(R, B), Point(L, B), Point(L, T)];
    }
    BoundsOfCorners(ps, L, T, R, B);
  }
}
