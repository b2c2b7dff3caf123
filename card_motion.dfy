/** The card's pointer tracker and tilt/depth arithmetic (src/components/Card.jsx): a cursor
    position inside the card's bounding rectangle becomes a sample in [-1, 1] on each axis, and the
    sample becomes rotations, per-layer translations and a shadow by plain linear maps. Numbers are
    modelled as reals; the floating-point rounding of the browser is not. */
module CardMotion {
  import opened Common

  /** The bounding rectangle reported by getBoundingClientRect. */
  datatype Rect = Rect(left: real, top: real, width: real, height: real)

  /** The stored pointer sample, mouseVal. */
  datatype Sample = Sample(x: real, y: real)

  /** The sample the card starts with and returns to when the pointer leaves. */
  const Neutral := Sample(0.0, 0.0)

  predicate InUnitSquare(s: Sample) {
    -1.0 <= s.x <= 1.0 && -1.0 <= s.y <= 1.0
  }

  predicate Inside(clientX: real, clientY: real, rect: Rect) {
    rect.left <= clientX <= rect.left + rect.width && rect.top <= clientY <= rect.top + rect.height
  }

  // ---------------------------------------------------------------------------------------------
  // Pointer tracker

  /** One axis of the normalisation ((client - origin) / extent - 0.5) * 2. */
  function Normalize(pos: real, origin: real, extent: real): real
    requires extent != 0.0
  {
    ((pos - origin) / extent - 0.5) * 2.0
  }

  /** The position on the axis that a normalised coordinate stands for. */
  function Denormalize(r: real, origin: real, extent: real): real {
    origin + (r + 1.0) / 2.0 * extent
  }

  /** Normalize and Denormalize are inverse to each other on a non-degenerate axis. */
  lemma NormalizeRoundTrip(pos: real, r: real, origin: real, extent: real)
    requires extent != 0.0
    ensures Denormalize(Normalize(pos, origin, extent), origin, extent) == pos
    ensures Normalize(Denormalize(r, origin, extent), origin, extent) == r
  {
    var q := (pos - origin) / extent;
    assert q * extent == pos - origin;
    assert Normalize(pos, origin, extent) == (q - 0.5) * 2.0;
    assert (((q - 0.5) * 2.0) + 1.0) / 2.0 == q;
    var k := (r + 1.0) / 2.0;
    MulDivCancel(k, extent);
  }

  lemma MulDivCancel(k: real, extent: real)
    requires extent != 0.0
    ensures k * extent / extent == k
  {
  }

  lemma MulNonNegative(a: real, b: real)
    requires a >= 0.0 && b >= 0.0
    ensures a * b >= 0.0
  {
  }

  /** On an axis of positive extent, a position lies within the rectangle exactly when its
      normalised coordinate lies in [-1, 1]. */
  lemma NormalizeInUnitRange(pos: real, origin: real, extent: real)
    requires extent > 0.0
    ensures origin <= pos <= origin + extent <==> -1.0 <= Normalize(pos, origin, extent) <= 1.0
  {
    var q := (pos - origin) / extent;
    assert q * extent == pos - origin;
    if 0.0 <= pos - origin {
      assert q >= 0.0;
    } else {
      assert q < 0.0;
    }
    if pos - origin <= extent {
      assert q <= 1.0;
    } else {
      assert q > 1.0;
    }
  }

  /** The origin edge maps to -1, the centre to 0, the far edge to 1. */
  lemma NormalizeLandmarks(origin: real, extent: real)
    requires extent != 0.0
    ensures Normalize(origin, origin, extent) == -1.0
    ensures Normalize(origin + extent / 2.0, origin, extent) == 0.0
    ensures Normalize(origin + extent, origin, extent) == 1.0
  {
    assert (origin + extent / 2.0 - origin) / extent == 0.5;
    assert (origin + extent - origin) / extent == 1.0;
  }

  /** Moving the pointer towards the far edge never decreases the coordinate. */
  lemma NormalizeMonotonic(p1: real, p2: real, origin: real, extent: real)
    requires extent > 0.0 && p1 <= p2
    ensures Normalize(p1, origin, extent) <= Normalize(p2, origin, extent)
  {
    var q1, q2 := (p1 - origin) / extent, (p2 - origin) / extent;
    assert q1 * extent == p1 - origin && q2 * extent == p2 - origin;
    assert (q2 - q1) * extent >= 0.0;
  }

  /** The arithmetic of handleMouseMove: no sample when there is no target element or its
      rectangle has zero width or zero height; otherwise the normalised position, from which
      the cursor position can be recovered. */
  function Track(clientX: real, clientY: real, target: Option<Rect>): (r: Option<Sample>)
    ensures r.None? <==> target.None? || target.value.width == 0.0 || target.value.height == 0.0
    ensures r.Some? ==>
      && Denormalize(r.value.x, target.value.left, target.value.width) == clientX
      && Denormalize(r.value.y, target.value.top, target.value.height) == clientY
  {
    match target
    case None => None
    case Some(rect) =>
      if rect.width == 0.0 || rect.height == 0.0 then None
      else
        var s := Sample(Normalize(clientX, rect.left, rect.width), Normalize(clientY, rect.top, rect.height));
        NormalizeRoundTrip(clientX, 0.0, rect.left, rect.width);
        NormalizeRoundTrip(clientY, 0.0, rect.top, rect.height);
        Some(s)
  }

  /** A cursor inside a rectangle of positive size gives a sample in the unit square, and a
      sample in the unit square comes only from a cursor inside the rectangle. */
  lemma TrackInside(clientX: real, clientY: real, rect: Rect)
    requires rect.width > 0.0 && rect.height > 0.0
    ensures Track(clientX, clientY, Some(rect)).Some?
    ensures InUnitSquare(Track(clientX, clientY, Some(rect)).value) <==> Inside(clientX, clientY, rect)
  {
    NormalizeInUnitRange(clientX, rect.left, rect.width);
    NormalizeInUnitRange(clientY, rect.top, rect.height);
  }

  /** The centre of the rectangle is the neutral sample; the midpoint of the right edge is (1, 0). */
  lemma TrackLandmarks(rect: Rect)
    requires rect.width != 0.0 && rect.height != 0.0
    ensures Track(rect.left + rect.width / 2.0, rect.top + rect.height / 2.0, Some(rect)) == Some(Neutral)
    ensures Track(rect.left + rect.width, rect.top + rect.height / 2.0, Some(rect)) == Some(Sample(1.0, 0.0))
  {
    NormalizeLandmarks(rect.left, rect.width);
    NormalizeLandmarks(rect.top, rect.height);
  }

  // ---------------------------------------------------------------------------------------------
  // Tilt, depth and shadow

  /** The rotations of a card layer, in degrees. */
  datatype Rotation = Rotation(rotateX: real, rotateY: real)

  /** rotateX(sample.y * -tiltY) rotateY(sample.x * tiltX). */
  function Rotate(s: Sample, tiltX: real, tiltY: real): Rotation {
    Rotation(s.y * -tiltY, s.x * tiltX)
  }

  /** The fixed tilt of the inner layer. */
  const InnerTilt: real := 2.0

  /** A sample in the unit square and non-negative sensitivities give rotations of at most the
      sensitivity in either direction. */
  lemma RotateBounded(s: Sample, tiltX: real, tiltY: real)
    requires InUnitSquare(s) && tiltX >= 0.0 && tiltY >= 0.0
    ensures -tiltY <= Rotate(s, tiltX, tiltY).rotateX <= tiltY
    ensures -tiltX <= Rotate(s, tiltX, tiltY).rotateY <= tiltX
  {
    MulNonNegative(1.0 - s.x, tiltX);
    MulNonNegative(1.0 + s.x, tiltX);
    MulNonNegative(1.0 - s.y, tiltY);
    MulNonNegative(1.0 + s.y, tiltY);
  }

  /** Moving the pointer right turns the card further about its vertical axis, and moving it
      down turns it back about its horizontal axis (for non-negative sensitivities). */
  lemma RotateMonotonic(s1: Sample, s2: Sample, tiltX: real, tiltY: real)
    requires tiltX >= 0.0 && tiltY >= 0.0
    ensures s1.x <= s2.x ==> Rotate(s1, tiltX, tiltY).rotateY <= Rotate(s2, tiltX, tiltY).rotateY
    ensures s1.y <= s2.y ==> Rotate(s2, tiltX, tiltY).rotateX <= Rotate(s1, tiltX, tiltY).rotateX
  {
    assert (s2.x - s1.x) * tiltX == s2.x * tiltX - s1.x * tiltX;
    assert (s2.y - s1.y) * tiltY == s2.y * tiltY - s1.y * tiltY;
    if s1.x <= s2.x {
      assert (s2.x - s1.x) * tiltX >= 0.0;
    }
    if s1.y <= s2.y {
      assert (s2.y - s1.y) * tiltY >= 0.0;
    }
  }

  /** The rotation is linear in the sample: the rotation of a sum of samples is the sum of rotations. */
  lemma RotateAdditive(s1: Sample, s2: Sample, tiltX: real, tiltY: real)
    ensures var r1, r2 := Rotate(s1, tiltX, tiltY), Rotate(s2, tiltX, tiltY);
      Rotate(Sample(s1.x + s2.x, s1.y + s2.y), tiltX, tiltY) == Rotation(r1.rotateX + r2.rotateX, r1.rotateY + r2.rotateY)
  {
  }

  /** A translation of a card layer, in pixels. */
  datatype Offset = Offset(dx: real, dy: real)

  /** The scale of depthTransform, named maxTilt there. */
  const DepthScale: real := 2.0

  /** depthTransform: translateX(x * depthFactor * 2) translateY(y * depthFactor * 2). */
  function DepthTransform(s: Sample, depthFactor: real): Offset {
    Offset(s.x * depthFactor * DepthScale, s.y * depthFactor * DepthScale)
  }

  /** A sample in the unit square moves a layer by at most twice its depth factor on each axis,
      in the direction of the pointer. */
  lemma DepthTransformBounded(s: Sample, depthFactor: real)
    requires InUnitSquare(s) && depthFactor >= 0.0
    ensures var o := DepthTransform(s, depthFactor);
      && -2.0 * depthFactor <= o.dx <= 2.0 * depthFactor
      && -2.0 * depthFactor <= o.dy <= 2.0 * depthFactor
  {
    MulNonNegative(1.0 - s.x, depthFactor);
    MulNonNegative(1.0 + s.x, depthFactor);
    MulNonNegative(1.0 - s.y, depthFactor);
    MulNonNegative(1.0 + s.y, depthFactor);
  }

  /** The box shadow: offsets, blur radius and colour. */
  datatype Shadow = Shadow(offsetX: real, offsetY: real, blur: real, color: string)

  /** The largest shadow offset, maxOffset. */
  const MaxOffset: real := 20.0

  /** dynamicShadow: the shadow falls away from the pointer, and is sharper when not hovering. */
  function DynamicShadow(s: Sample, hovering: bool, color: string): Shadow {
    var offsetX := s.x * MaxOffset;
    var offsetY := s.y * MaxOffset;
    var intensity := if hovering then 1.0 else 0.5;
    Shadow(-offsetX, -offsetY, 30.0 * intensity, color)
  }

  /** The shadow lies opposite the pointer, at most 20 pixels away on each axis, with blur 30
      while hovering and 15 otherwise. */
  lemma DynamicShadowShape(s: Sample, hovering: bool, color: string)
    requires InUnitSquare(s)
    ensures var sh := DynamicShadow(s, hovering, color);
      && -MaxOffset <= sh.offsetX <= MaxOffset && -MaxOffset <= sh.offsetY <= MaxOffset
      && (s.x > 0.0 ==> sh.offsetX < 0.0) && (s.x < 0.0 ==> sh.offsetX > 0.0)
      && (s.y > 0.0 ==> sh.offsetY < 0.0) && (s.y < 0.0 ==> sh.offsetY > 0.0)
      && sh.blur == (if hovering then 30.0 else 15.0)
      && sh.color == color
  {
  }
}
