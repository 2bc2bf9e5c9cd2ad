/**
 * The engine value types the rewinders compute with, over exact reals:
 * Vector3, Quaternion, Matrix4x4, Bounds, Ray and a transform's world Pose.
 * Only the parts of the engine's semantics that the rewinders rely on are
 * given (component-wise arithmetic, the clamped Vector3.Lerp, the
 * centre/extents representation of Bounds with its min/max setters and
 * Encapsulate/Intersects). The two quaternion operations the rewinders
 * call are supplied as a RotationMath record. Only WorldMatrix reads a
 * quaternion's components, with the rotation-matrix formula, which is a
 * rotation only for a unit quaternion.
 */
module UnityTypes {

  datatype Vector3 = Vector3(x: real, y: real, z: real) {

    /** The indexer v[i] for i in 0..2. */
    function Get(i: int): real
      requires 0 <= i < 3
    {
      if i == 0 then x else if i == 1 then y else z
    }

    /** v[i] = value, on a copy. */
    function Set(i: int, value: real): (r: Vector3)
      requires 0 <= i < 3
      ensures r.Get(i) == value
      ensures forall k :: 0 <= k < 3 && k != i ==> r.Get(k) == Get(k)
    {
      if i == 0 then this.(x := value) else if i == 1 then this.(y := value) else this.(z := value)
    }

    function Plus(o: Vector3): Vector3 { Vector3(x + o.x, y + o.y, z + o.z) }
    function Minus(o: Vector3): Vector3 { Vector3(x - o.x, y - o.y, z - o.z) }
    function Times(s: real): Vector3 { Vector3(x * s, y * s, z * s) }

    /** Component-wise <= on every axis. */
    predicate LessEq(o: Vector3) { x <= o.x && y <= o.y && z <= o.z }
  }

  const Zero := Vector3(0.0, 0.0, 0.0)
  const One := Vector3(1.0, 1.0, 1.0)

  function MinReal(a: real, b: real): real { if a <= b then a else b }
  function MaxReal(a: real, b: real): real { if a >= b then a else b }
  function AbsReal(a: real): real { if a < 0.0 then -a else a }

  /** Vector3.Min and Vector3.Max: component-wise. */
  function Min3(a: Vector3, b: Vector3): Vector3
  {
    Vector3(MinReal(a.x, b.x), MinReal(a.y, b.y), MinReal(a.z, b.z))
  }

  function Max3(a: Vector3, b: Vector3): Vector3
  {
    Vector3(MaxReal(a.x, b.x), MaxReal(a.y, b.y), MaxReal(a.z, b.z))
  }

  /** Mathf.Clamp01. */
  function Clamp01(t: real): (r: real)
    ensures 0.0 <= r <= 1.0
  {
    if t < 0.0 then 0.0 else if t > 1.0 then 1.0 else t
  }

  /** Vector3.Lerp: the fraction is clamped to [0, 1] before blending. */
  function Lerp(a: Vector3, b: Vector3, t: real): Vector3
  {
    var u := Clamp01(t);
    Vector3(a.x + (b.x - a.x) * u, a.y + (b.y - a.y) * u, a.z + (b.z - a.z) * u)
  }

  /** A quaternion is carried as its four components; no operation on it is interpreted. */
  datatype Quaternion = Quaternion(x: real, y: real, z: real, w: real)

  /**
   * The quaternion operations the engine performs and the rewinders call:
   * MatrixUtils.ExtractRotationFromMatrix (a Quaternion.LookRotation of two
   * matrix columns) and Quaternion.Lerp. They are floating-point engine code,
   * so they are parameters of the model rather than definitions in it.
   */
  datatype RotationMath = RotationMath(
    fromMatrix: Matrix4x4 -> Quaternion,
    lerp: (Quaternion, Quaternion, real) -> Quaternion)

  /** A 4x4 matrix, row-major fields named as the engine names them. */
  datatype Matrix4x4 = Matrix4x4(
    m00: real, m01: real, m02: real, m03: real,
    m10: real, m11: real, m12: real, m13: real,
    m20: real, m21: real, m22: real, m23: real,
    m30: real, m31: real, m32: real, m33: real)
  {
    /** The indexer m[row, column]. */
    function At(row: int, column: int): real
      requires 0 <= row < 4 && 0 <= column < 4
    {
      if row == 0 then (if column == 0 then m00 else if column == 1 then m01 else if column == 2 then m02 else m03)
      else if row == 1 then (if column == 0 then m10 else if column == 1 then m11 else if column == 2 then m12 else m13)
      else if row == 2 then (if column == 0 then m20 else if column == 1 then m21 else if column == 2 then m22 else m23)
      else (if column == 0 then m30 else if column == 1 then m31 else if column == 2 then m32 else m33)
    }

    /** The upper-left 3x3 block is the identity. */
    predicate LinearIsIdentity()
    {
      m00 == 1.0 && m01 == 0.0 && m02 == 0.0 &&
      m10 == 0.0 && m11 == 1.0 && m12 == 0.0 &&
      m20 == 0.0 && m21 == 0.0 && m22 == 1.0
    }
  }

  const ZeroMatrix := Matrix4x4(0.0, 0.0, 0.0, 0.0, 0.0, 0.0, 0.0, 0.0,
                                0.0, 0.0, 0.0, 0.0, 0.0, 0.0, 0.0, 0.0)
  const Identity := Matrix4x4(1.0, 0.0, 0.0, 0.0, 0.0, 1.0, 0.0, 0.0,
                              0.0, 0.0, 1.0, 0.0, 0.0, 0.0, 0.0, 1.0)

  /**
   * An axis-aligned box in the engine's own representation: a centre and
   * half-extents; min and max are derived.
   */
  datatype Bounds = Bounds(center: Vector3, extents: Vector3) {
    function Min(): Vector3 { center.Minus(extents) }
    function Max(): Vector3 { center.Plus(extents) }
    function Size(): Vector3 { extents.Times(2.0) }

    /** Bounds.Intersects: the closed boxes overlap on every axis. */
    predicate Intersects(b: Bounds)
    {
      Min().x <= b.Max().x && Max().x >= b.Min().x &&
      Min().y <= b.Max().y && Max().y >= b.Min().y &&
      Min().z <= b.Max().z && Max().z >= b.Min().z
    }

    /** Bounds.Encapsulate(Vector3): grow to include a point. */
    function EncapsulatePoint(p: Vector3): Bounds
    {
      FromMinMax(Min3(Min(), p), Max3(Max(), p))
    }

    /** Bounds.Encapsulate(Bounds): grow to include both corners of another box. */
    function Encapsulate(b: Bounds): Bounds
    {
      EncapsulatePoint(b.center.Minus(b.extents)).EncapsulatePoint(b.center.Plus(b.extents))
    }

    /** The box contains another box's two corners. */
    predicate Contains(b: Bounds)
    {
      Min().LessEq(b.Min()) && b.Max().LessEq(Max())
    }
  }

  /** new Bounds(center, size). */
  function FromCenterSize(center: Vector3, size: Vector3): Bounds
  {
    Bounds(center, size.Times(0.5))
  }

  /** Bounds.SetMinMax, which the min and max property setters use. */
  function FromMinMax(min: Vector3, max: Vector3): (b: Bounds)
    ensures b.Min() == min && b.Max() == max
  {
    Bounds(min.Plus(max).Times(0.5), max.Minus(min).Times(0.5))
  }

  /** new Bounds(): centre and extents zero. */
  const DefaultBounds := Bounds(Zero, Zero)

  datatype Ray = Ray(origin: Vector3, direction: Vector3)

  /** The outcome of Bounds.IntersectRay: a hit reports its distance along the ray. */
  datatype RayHit = Miss | Hit(distance: real)

  /** A transform's world position and rotation (Transform.position, Transform.rotation). */
  datatype Pose = Pose(position: Vector3, rotation: Quaternion)

  /**
   * Transform.localToWorldMatrix of a transform with unit scale: the rotation
   * matrix of the quaternion (for a unit quaternion) in the upper-left
   * block, the position in the last column, and the row (0, 0, 0, 1) at the
   * bottom.
   */
  function WorldMatrix(p: Pose): (m: Matrix4x4)
    ensures m.m03 == p.position.x && m.m13 == p.position.y && m.m23 == p.position.z
  {
    var q := p.rotation;
    var x, y, z := q.x * 2.0, q.y * 2.0, q.z * 2.0;
    var xx, yy, zz := q.x * x, q.y * y, q.z * z;
    var xy, xz, yz := q.x * y, q.x * z, q.y * z;
    var wx, wy, wz := q.w * x, q.w * y, q.w * z;
    Matrix4x4(
      1.0 - (yy + zz), xy - wz, xz + wy, p.position.x,
      xy + wz, 1.0 - (xx + zz), yz - wx, p.position.y,
      xz - wy, yz + wx, 1.0 - (xx + yy), p.position.z,
      0.0, 0.0, 0.0, 1.0)
  }

  /** A box that meets a query box also meets every box that contains the query. */
  lemma IntersectsWider(b: Bounds, query: Bounds, wider: Bounds)
    requires wider.Contains(query) && b.Intersects(query)
    ensures b.Intersects(wider)
  {
  }
}
