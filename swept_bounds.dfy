/**
 * The boxes TimePhysics's physics wrappers rewind with. Before an overlap
 * the wrapper builds an axis-aligned box around the query shape; before a
 * cast it builds the box of the shape at the start and the shape moved by
 * direction * maxDistance and encapsulates the two. Every registered body
 * whose sampled bounds meet that box is rewound before the engine's query
 * runs. The engine queries themselves are not part of this model.
 */
module SweptBounds {
  import opened UnityTypes
  import opened MatrixUtils

  /**
   * The cube of side radius * 2 around a point: the box of a sphere, which
   * is the box of a capsule whose two end points coincide.
   */
  function OverlapSphereBounds(position: Vector3, radius: real): (r: Bounds)
    ensures r.center == position && r.extents == Vector3(radius, radius, radius)
  {
    FromCenterSize(position, One.Times(radius * 2.0))
  }

  /** The box of an oriented box, built from its half extents only (the orientation is not used). */
  function OverlapBoxBounds(center: Vector3, halfExtents: Vector3): (r: Bounds)
    ensures r.center == center && r.extents == halfExtents
  {
    FromCenterSize(center, halfExtents.Times(2.0))
  }

  /**
   * The box of a capsule: centred between the two end points, as wide on
   * every axis as the end points are apart plus the diameter. CapsuleCast's
   * first box, and the box OverlapCapsuleNonAlloc should use.
   */
  function CapsuleBounds(point1: Vector3, point2: Vector3, radius: real): (r: Bounds)
    ensures r.center == point1.Plus(point2).Times(0.5)
    ensures r.extents == Vector3(AbsReal(point2.x - point1.x) * 0.5 + radius,
                                 AbsReal(point2.y - point1.y) * 0.5 + radius,
                                 AbsReal(point2.z - point1.z) * 0.5 + radius)
  {
    var pointDelta := point2.Minus(point1);
    FromCenterSize(point1.Plus(pointDelta.Times(0.5)),
                   Vector3(AbsReal(pointDelta.x) + radius * 2.0,
                           AbsReal(pointDelta.y) + radius * 2.0,
                           AbsReal(pointDelta.z) + radius * 2.0))
  }

  /**
   * OverlapCapsuleNonAlloc's box as the source builds it: only the y
   * distance of the end points widens it; on x and z it is the diameter.
   */
  function OverlapCapsuleBoundsAsWritten(point1: Vector3, point2: Vector3, radius: real): (r: Bounds)
    ensures r.center == CapsuleBounds(point1, point2, radius).center
    ensures r.extents.y == CapsuleBounds(point1, point2, radius).extents.y
    ensures r.extents.x == radius && r.extents.z == radius
  {
    FromCenterSize(point1.Plus(point2.Minus(point1).Times(0.5)),
                   Vector3(radius * 2.0, AbsReal(point2.y - point1.y) + radius * 2.0, radius * 2.0))
  }

  /** The same box moved by an offset. */
  function Moved(b: Bounds, offset: Vector3): Bounds
  {
    Bounds(b.center.Plus(offset), b.extents)
  }

  /**
   * A cast's box: the start box encapsulated with its copy moved by
   * direction * maxDistance. It contains the box at both ends of the cast.
   */
  function Swept(start: Bounds, direction: Vector3, maxDistance: real): (r: Bounds)
    ensures r.Contains(start) && r.Contains(Moved(start, direction.Times(maxDistance)))
  {
    EncapsulateContainsBoth(start, Moved(start, direction.Times(maxDistance)));
    start.Encapsulate(Moved(start, direction.Times(maxDistance)))
  }

  /** SphereCast and SphereCastNonAlloc. */
  function SphereCastBounds(origin: Vector3, radius: real, direction: Vector3, maxDistance: real): (r: Bounds)
    ensures r == Swept(OverlapSphereBounds(origin, radius), direction, maxDistance)
  {
    var bounds1 := FromCenterSize(origin, One.Times(radius * 2.0));
    var bounds2 := FromCenterSize(origin.Plus(direction.Times(maxDistance)), One.Times(radius * 2.0));
    bounds1.Encapsulate(bounds2)
  }

  /** BoxCast and BoxCastNonAlloc. */
  function BoxCastBounds(center: Vector3, halfExtents: Vector3, direction: Vector3, maxDistance: real): (r: Bounds)
    ensures r == Swept(OverlapBoxBounds(center, halfExtents), direction, maxDistance)
  {
    var bounds1 := FromCenterSize(center, halfExtents.Times(2.0));
    var bounds2 := FromCenterSize(center.Plus(direction.Times(maxDistance)), halfExtents.Times(2.0));
    bounds1.Encapsulate(bounds2)
  }

  /** CapsuleCast and CapsuleCastNonAlloc: the second box takes the first one's size. */
  function CapsuleCastBounds(point1: Vector3, point2: Vector3, radius: real, direction: Vector3, maxDistance: real)
    : (r: Bounds)
    ensures r == Swept(CapsuleBounds(point1, point2, radius), direction, maxDistance)
  {
    var pointDelta := point2.Minus(point1);
    var bounds1 := FromCenterSize(point1.Plus(pointDelta.Times(0.5)),
                                  Vector3(AbsReal(pointDelta.x) + radius * 2.0,
                                          AbsReal(pointDelta.y) + radius * 2.0,
                                          AbsReal(pointDelta.z) + radius * 2.0));
    var endPoint1 := point1.Plus(direction.Times(maxDistance));
    var bounds2 := FromCenterSize(endPoint1.Plus(pointDelta.Times(0.5)), bounds1.Size());
    assert bounds1 == CapsuleBounds(point1, point2, radius);
    assert bounds2.extents == bounds1.extents;
    assert bounds2.center == bounds1.center.Plus(direction.Times(maxDistance));
    bounds1.Encapsulate(bounds2)
  }

  // ---------------------------------------------------------------------
  // Properties.

  /** Encapsulate gives a box that contains both boxes. */
  lemma EncapsulateContainsBoth(a: Bounds, b: Bounds)
    ensures a.Encapsulate(b).Contains(a) && a.Encapsulate(b).Contains(b)
  {
    var e1 := a.EncapsulatePoint(b.center.Minus(b.extents));
    var e2 := e1.EncapsulatePoint(b.center.Plus(b.extents));
    assert e2.Min() == Min3(Min3(a.Min(), b.Min()), b.Max());
    assert e2.Max() == Max3(Max3(a.Max(), b.Min()), b.Max());
  }

  /** d * t lies between 0 and d * m when t lies between 0 and m. */
  lemma ScaledBetween(d: real, t: real, m: real)
    requires 0.0 <= t <= m
    ensures MinReal(0.0, d * m) <= d * t <= MaxReal(0.0, d * m)
  {
    MulNonNeg(if d >= 0.0 then d else -d, t);
    MulNonNeg(if d >= 0.0 then d else -d, m - t);
  }

  /** One axis of SweptCoversPath: an offset between 0 and the full one keeps the interval inside the hull. */
  lemma AxisCovered(c: real, e: real, full: real, part: real)
    requires MinReal(0.0, full) <= part <= MaxReal(0.0, full)
    ensures MinReal(MinReal(c - e, c + full - e), c + full + e) <= c + part - e
    ensures c + part + e <= MaxReal(MaxReal(c + e, c + full - e), c + full + e)
  {
  }

  /**
   * Sweeping covers the path: for every t in [0, maxDistance] the start
   * box moved by direction * t lies inside the swept box.
   */
  lemma SweptCoversPath(start: Bounds, direction: Vector3, maxDistance: real, t: real)
    requires 0.0 <= t <= maxDistance
    ensures Swept(start, direction, maxDistance).Contains(Moved(start, direction.Times(t)))
  {
    var full, part := direction.Times(maxDistance), direction.Times(t);
    ScaledBetween(direction.x, t, maxDistance);
    ScaledBetween(direction.y, t, maxDistance);
    ScaledBetween(direction.z, t, maxDistance);
    AxisCovered(start.center.x, start.extents.x, full.x, part.x);
    AxisCovered(start.center.y, start.extents.y, full.y, part.y);
    AxisCovered(start.center.z, start.extents.z, full.z, part.z);
    var end := Moved(start, full);
    var e1 := start.EncapsulatePoint(end.center.Minus(end.extents));
    var e2 := e1.EncapsulatePoint(end.center.Plus(end.extents));
    assert e2.Min() == Min3(Min3(start.Min(), end.Min()), end.Max());
    assert e2.Max() == Max3(Max3(start.Max(), end.Min()), end.Max());
  }

  /** Every sphere of a sphere cast's path lies inside the box it rewinds with. */
  lemma SphereCastCoversPath(origin: Vector3, radius: real, direction: Vector3, maxDistance: real, t: real)
    requires 0.0 <= t <= maxDistance
    ensures SphereCastBounds(origin, radius, direction, maxDistance)
              .Contains(OverlapSphereBounds(origin.Plus(direction.Times(t)), radius))
  {
    SweptCoversPath(OverlapSphereBounds(origin, radius), direction, maxDistance, t);
  }

  /** Every box of a box cast's path (by its half extents) lies inside the box it rewinds with. */
  lemma BoxCastCoversPath(center: Vector3, halfExtents: Vector3, direction: Vector3, maxDistance: real, t: real)
    requires 0.0 <= t <= maxDistance
    ensures BoxCastBounds(center, halfExtents, direction, maxDistance)
              .Contains(OverlapBoxBounds(center.Plus(direction.Times(t)), halfExtents))
  {
    SweptCoversPath(OverlapBoxBounds(center, halfExtents), direction, maxDistance, t);
  }

  /** Every capsule of a capsule cast's path lies inside the box it rewinds with. */
  lemma CapsuleCastCoversPath(point1: Vector3, point2: Vector3, radius: real, direction: Vector3,
                              maxDistance: real, t: real)
    requires 0.0 <= t <= maxDistance
    ensures CapsuleCastBounds(point1, point2, radius, direction, maxDistance)
              .Contains(CapsuleBounds(point1.Plus(direction.Times(t)), point2.Plus(direction.Times(t)), radius))
  {
    var start := CapsuleBounds(point1, point2, radius);
    SweptCoversPath(start, direction, maxDistance, t);
    var moved := CapsuleBounds(point1.Plus(direction.Times(t)), point2.Plus(direction.Times(t)), radius);
    assert moved.center == start.center.Plus(direction.Times(t));
    assert moved.extents == start.extents;
  }

  /** A capsule's box contains the spheres at both of its end points. */
  lemma CapsuleBoundsCoverEnds(point1: Vector3, point2: Vector3, radius: real)
    ensures CapsuleBounds(point1, point2, radius).Contains(OverlapSphereBounds(point1, radius))
    ensures CapsuleBounds(point1, point2, radius).Contains(OverlapSphereBounds(point2, radius))
  {
  }

  /**
   * The box OverlapCapsuleNonAlloc builds misses an end sphere of every
   * capsule whose end points lie apart along x: with point1.x < point2.x its
   * low x face is (point2.x - point1.x) / 2 inside the sphere's at point1
   * (for (0,0,0), (10,0,0) and radius 1 the box spans x from 4 to 6, the
   * sphere from -1 to 1), while the capsule's box contains that sphere.
   */
  lemma OverlapCapsuleAsWrittenMissesEnd(point1: Vector3, point2: Vector3, radius: real)
    requires point1.x < point2.x
    ensures !OverlapCapsuleBoundsAsWritten(point1, point2, radius).Contains(OverlapSphereBounds(point1, radius))
    ensures CapsuleBounds(point1, point2, radius).Contains(OverlapSphereBounds(point1, radius))
  {
    var b := OverlapCapsuleBoundsAsWritten(point1, point2, radius);
    var sphere := OverlapSphereBounds(point1, radius);
    assert b.Min().x == point1.x + (point2.x - point1.x) * 0.5 - radius;
    assert sphere.Min().x == point1.x - radius;
  }

  /**
   * A capsule's box is the sphere at its first end point swept to its second
   * end point, for every non-negative radius.
   */
  lemma CapsuleIsSweptSphere(point1: Vector3, point2: Vector3, radius: real)
    requires radius >= 0.0
    ensures CapsuleBounds(point1, point2, radius) == Swept(OverlapSphereBounds(point1, radius), point2.Minus(point1), 1.0)
  {
    var start := OverlapSphereBounds(point1, radius);
    var end := Moved(start, point2.Minus(point1).Times(1.0));
    var r3 := Vector3(radius, radius, radius);
    SweptHull(start, point2.Minus(point1), 1.0);
    assert start.Min() == point1.Minus(r3) && start.Max() == point1.Plus(r3);
    assert end.Min() == point2.Minus(r3) && end.Max() == point2.Plus(r3);
    CapsuleHull(point1, point2, radius);
  }

  /** The corners of the two end spheres span the capsule's box. */
  lemma CapsuleHull(point1: Vector3, point2: Vector3, radius: real)
    requires radius >= 0.0
    ensures var r3 := Vector3(radius, radius, radius);
            FromMinMax(Min3(Min3(point1.Minus(r3), point2.Minus(r3)), point2.Plus(r3)),
                       Max3(Max3(point1.Plus(r3), point2.Minus(r3)), point2.Plus(r3))) ==
            CapsuleBounds(point1, point2, radius)
  {
    var r3 := Vector3(radius, radius, radius);
    AxisSwept(point1.x, point2.x, radius);
    AxisSwept(point1.y, point2.y, radius);
    AxisSwept(point1.z, point2.z, radius);
    HullFromAxes(Min3(Min3(point1.Minus(r3), point2.Minus(r3)), point2.Plus(r3)),
                 Max3(Max3(point1.Plus(r3), point2.Minus(r3)), point2.Plus(r3)),
                 CapsuleBounds(point1, point2, radius));
  }

  /** A box given by its corners is the box whose centre and half-extents they determine, axis by axis. */
  lemma HullFromAxes(lo: Vector3, hi: Vector3, b: Bounds)
    requires (lo.x + hi.x) * 0.5 == b.center.x && (hi.x - lo.x) * 0.5 == b.extents.x
    requires (lo.y + hi.y) * 0.5 == b.center.y && (hi.y - lo.y) * 0.5 == b.extents.y
    requires (lo.z + hi.z) * 0.5 == b.center.z && (hi.z - lo.z) * 0.5 == b.extents.z
    ensures FromMinMax(lo, hi) == b
  {
  }

  /** A swept box is the box spanned by the lowest and the highest corner of its two ends. */
  lemma SweptHull(start: Bounds, direction: Vector3, maxDistance: real)
    ensures var end := Moved(start, direction.Times(maxDistance));
            Swept(start, direction, maxDistance) ==
            FromMinMax(Min3(Min3(start.Min(), end.Min()), end.Max()), Max3(Max3(start.Max(), end.Min()), end.Max()))
  {
    var end := Moved(start, direction.Times(maxDistance));
    var e1 := start.EncapsulatePoint(end.Min());
    assert e1.Min() == Min3(start.Min(), end.Min()) && e1.Max() == Max3(start.Max(), end.Min());
  }

  /** One axis of CapsuleIsSweptSphere: the hull of [a - r, a + r] and [b - r, b + r], as centre and half-width. */
  lemma AxisSwept(a: real, b: real, r: real)
    requires r >= 0.0
    ensures var lo := MinReal(MinReal(a - r, b - r), b + r);
            var hi := MaxReal(MaxReal(a + r, b - r), b + r);
            (lo + hi) * 0.5 == (a + b) * 0.5 && (hi - lo) * 0.5 == AbsReal(b - a) * 0.5 + r
  {
  }

  /** A sphere's box is the box of a capsule whose end points coincide. */
  lemma SphereIsPointCapsule(position: Vector3, radius: real)
    ensures OverlapSphereBounds(position, radius) == CapsuleBounds(position, position, radius)
  {
  }

  /** The two boxes agree when the end points differ only along y. */
  lemma OverlapCapsuleAsWrittenAlongY(point1: Vector3, point2: Vector3, radius: real)
    requires point1.x == point2.x && point1.z == point2.z
    ensures OverlapCapsuleBoundsAsWritten(point1, point2, radius) == CapsuleBounds(point1, point2, radius)
  {
  }
}
