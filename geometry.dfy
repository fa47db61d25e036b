/** Pixel and bearing points, the rounding of pixel coordinates and the
    image-border and half-pixel tests used by the feature tracker. */
module Geometry {

  /** An image-plane point (cv::Point2f), over the reals. */
  datatype Point2 = Point2(x: real, y: real)

  /** A 3D point or bearing (cv::Point3f), over the reals. */
  datatype Point3 = Point3(x: real, y: real, z: real)

  /** Width of the rejected margin along every image edge. */
  const BORDER_SIZE: int := 1

  /** Radius, in pixels, of the forward-backward round-trip tolerance. */
  const ROUND_TRIP_TOLERANCE: real := 0.5

  /** cvRound: the nearest integer, halves going to the even neighbour
      (the default rounding mode of the processor). */
  function Round(r: real): (n: int)
    ensures -0.5 <= r - n as real <= 0.5
    ensures (r - n as real == 0.5 || r - n as real == -0.5) ==> n % 2 == 0
  {
    var f := r.Floor;
    var frac := r - f as real;
    if frac < 0.5 then f
    else if frac > 0.5 then f + 1
    else if f % 2 == 0 then f
    else f + 1
  }

  /** inBorder: the rounded point lies at least BORDER_SIZE pixels inside an
      image of the given width and height.  The member overload that takes
      no size uses the tracker's current (col, row). */
  predicate InBorder(pt: Point2, width: int, height: int)
    ensures InBorder(pt, width, height) ==> width > 2 * BORDER_SIZE && height > 2 * BORDER_SIZE
  {
    var ix := Round(pt.x);
    var iy := Round(pt.y);
    BORDER_SIZE <= ix < width - BORDER_SIZE && BORDER_SIZE <= iy < height - BORDER_SIZE
  }

  /** The border test in terms of the unrounded coordinates: an accepted point
      lies in the closed band [0.5, size - 1.5] on both axes, and every point
      strictly inside that band is accepted. */
  lemma InBorderBounds(pt: Point2, width: int, height: int)
    ensures InBorder(pt, width, height) ==>
              0.5 <= pt.x <= width as real - 1.5 && 0.5 <= pt.y <= height as real - 1.5
    ensures 0.5 < pt.x < width as real - 1.5 && 0.5 < pt.y < height as real - 1.5 ==>
              InBorder(pt, width, height)
  {
  }

  /** A point exactly on the last pixel column of the image is rejected. */
  lemma LastColumnRejected(y: real, width: int, height: int)
    ensures !InBorder(Point2((width - 1) as real, y), width, height)
  {
    assert Round((width - 1) as real) == width - 1;
  }

  /** The square of distance(): the source compares sqrt of this with 0.5. */
  function SqDistance(a: Point2, b: Point2): (d: real)
    ensures d >= 0.0
    ensures a == b ==> d == 0.0
  {
    var dx := a.x - b.x;
    var dy := a.y - b.y;
    SquareNonNegative(dx);
    SquareNonNegative(dy);
    dx * dx + dy * dy
  }

  lemma SqDistanceSymmetric(a: Point2, b: Point2)
    ensures SqDistance(a, b) == SqDistance(b, a)
  {
    assert (a.x - b.x) * (a.x - b.x) == (b.x - a.x) * (b.x - a.x);
    assert (a.y - b.y) * (a.y - b.y) == (b.y - a.y) * (b.y - a.y);
  }

  lemma SquareNonNegative(r: real)
    ensures r * r >= 0.0
  {
    if r < 0.0 {
      assert r * r == (-r) * (-r);
    }
  }

  /** distance(a, b) <= 0.5, stated without the square root: for d >= 0,
      sqrt(d) <= 0.5 exactly when d <= 0.25. */
  predicate WithinRoundTrip(a: Point2, b: Point2)
  {
    SqDistance(a, b) <= ROUND_TRIP_TOLERANCE * ROUND_TRIP_TOLERANCE
  }

  /** A round trip that lands on the starting point is accepted, and one that
      misses by a whole pixel along an axis is rejected. */
  lemma RoundTripTolerance(a: Point2, b: Point2)
    ensures a == b ==> WithinRoundTrip(a, b)
    ensures (a.x - b.x >= 1.0 || b.x - a.x >= 1.0) ==> !WithinRoundTrip(a, b)
  {
    var dx := a.x - b.x;
    var dy := a.y - b.y;
    SquareNonNegative(dy);
    assert SqDistance(a, b) == dx * dx + dy * dy;
    if dx >= 1.0 {
      assert dx * dx >= 1.0;
    } else if -dx >= 1.0 {
      assert (-dx) * (-dx) >= 1.0;
      assert dx * dx == (-dx) * (-dx);
    }
  }
}
