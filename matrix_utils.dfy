/**
 * MatrixUtils: the box-through-matrix transform used for the broad-phase
 * proximity bounds, translation extraction and construction, the bounds
 * lerp, and the translation half of LerpMatrixTR.
 */
module MatrixUtils {
  import opened UnityTypes

  /** ExtractTranslationFromMatrix: the last column of the matrix. */
  function ExtractTranslationFromMatrix(m: Matrix4x4): (t: Vector3)
    ensures forall i :: 0 <= i < 3 ==> t.Get(i) == m.At(i, 3)
  {
    Vector3(m.m03, m.m13, m.m23)
  }

  /** TranslationMatrix: the identity with the offset written into the last column. */
  function TranslationMatrix(offset: Vector3): (m: Matrix4x4)
    ensures m.LinearIsIdentity()
    ensures m.m30 == 0.0 && m.m31 == 0.0 && m.m32 == 0.0 && m.m33 == 1.0
  {
    Identity.(m03 := offset.x, m13 := offset.y, m23 := offset.z)
  }

  /** Building a translation matrix and extracting its translation gives the offset back. */
  lemma TranslationRoundTrip(offset: Vector3)
    ensures ExtractTranslationFromMatrix(TranslationMatrix(offset)) == offset
  {
  }

  /** The translation stored in a transform's world matrix is the transform's position. */
  lemma WorldMatrixTranslation(p: Pose)
    ensures ExtractTranslationFromMatrix(WorldMatrix(p)) == p.position
  {
  }

  // ---------------------------------------------------------------------
  // LocalToWorld: transforming an axis-aligned box by an affine matrix.

  /** The product of m[i, j] with the box's min and max on axis j, the smaller one first. */
  function Spread(box: Bounds, m: Matrix4x4, i: int, j: int): (r: (real, real))
    requires 0 <= i < 3 && 0 <= j < 3
    ensures r.0 <= r.1
  {
    var av := m.At(i, j) * box.Min().Get(j);
    var bv := m.At(i, j) * box.Max().Get(j);
    if av < bv then (av, bv) else (bv, av)
  }

  /** Translation on axis i plus the smaller products of the first k columns. */
  function AxisLow(box: Bounds, m: Matrix4x4, i: int, k: int): real
    requires 0 <= i < 3 && 0 <= k <= 3
  {
    if k == 0 then m.At(i, 3) else AxisLow(box, m, i, k - 1) + Spread(box, m, i, k - 1).0
  }

  /** Translation on axis i plus the larger products of the first k columns. */
  function AxisHigh(box: Bounds, m: Matrix4x4, i: int, k: int): real
    requires 0 <= i < 3 && 0 <= k <= 3
  {
    if k == 0 then m.At(i, 3) else AxisHigh(box, m, i, k - 1) + Spread(box, m, i, k - 1).1
  }

  /** The box LocalToWorld returns, in closed form. */
  function TransformBounds(box: Bounds, m: Matrix4x4): (r: Bounds)
    ensures forall i :: 0 <= i < 3 ==> r.Min().Get(i) == AxisLow(box, m, i, 3)
    ensures forall i :: 0 <= i < 3 ==> r.Max().Get(i) == AxisHigh(box, m, i, 3)
  {
    FromMinMax(
      Vector3(AxisLow(box, m, 0, 3), AxisLow(box, m, 1, 3), AxisLow(box, m, 2, 3)),
      Vector3(AxisHigh(box, m, 0, 3), AxisHigh(box, m, 1, 3), AxisHigh(box, m, 2, 3)))
  }

  /** How many columns of row a are already summed once the loops reach row i, column j. */
  function Done(a: int, i: int, j: int): int
  {
    if a < i then 3 else if a == i then j else 0
  }

  /** The loop state of LocalToWorld: every row has the products of its finished columns. */
  ghost predicate Accumulated(b: Bounds, box: Bounds, m: Matrix4x4, i: int, j: int)
    requires 0 <= j <= 3
  {
    forall a :: 0 <= a < 3 ==>
      b.Min().Get(a) == AxisLow(box, m, a, Done(a, i, j)) &&
      b.Max().Get(a) == AxisHigh(box, m, a, Done(a, i, j))
  }

  /**
   * LocalToWorld: starts from the translation and, row by row and column by
   * column, adds the smaller product to min and the larger to max.
   */
  method LocalToWorld(box: Bounds, m: Matrix4x4) returns (newBox: Bounds)
    ensures newBox == TransformBounds(box, m)
  {
    newBox := Bounds(Zero, Zero);
    newBox := FromMinMax(Vector3(m.m03, m.m13, m.m23), newBox.Max());
    newBox := FromMinMax(newBox.Min(), Vector3(m.m03, m.m13, m.m23));
    assert Accumulated(newBox, box, m, 0, 0) by {
      forall a | 0 <= a < 3 ensures newBox.Min().Get(a) == m.At(a, 3) == newBox.Max().Get(a) { }
    }
    for i := 0 to 3
      invariant Accumulated(newBox, box, m, i, 0)
    {
      for j := 0 to 3
        invariant Accumulated(newBox, box, m, i, j)
      {
        ghost var before := newBox;
        newBox := AddColumn(newBox, box, m, i, j);
        AccumulateStep(before, newBox, box, m, i, j);
      }
      assert Accumulated(newBox, box, m, i + 1, 0) by {
        assert forall a :: Done(a, i, 3) == Done(a, i + 1, 0);
      }
    }
    assert newBox.Min() == TransformBounds(box, m).Min() by {
      assert forall a :: 0 <= a < 3 ==> Done(a, 3, 0) == 3;
      Vector3ByAxes(newBox.Min(), TransformBounds(box, m).Min());
    }
    assert newBox.Max() == TransformBounds(box, m).Max() by {
      Vector3ByAxes(newBox.Max(), TransformBounds(box, m).Max());
    }
    BoundsByMinMax(newBox, TransformBounds(box, m));
  }

  /**
   * The body of LocalToWorld's inner loop: the two products of m[i, j] with
   * the box's min and max on axis j; the smaller is added to newBox.min[i],
   * the larger to newBox.max[i], each through its property setter.
   */
  method AddColumn(newBox: Bounds, box: Bounds, m: Matrix4x4, i: int, j: int) returns (r: Bounds)
    requires 0 <= i < 3 && 0 <= j < 3
    ensures r.Min().Get(i) == newBox.Min().Get(i) + Spread(box, m, i, j).0
    ensures r.Max().Get(i) == newBox.Max().Get(i) + Spread(box, m, i, j).1
    ensures forall a :: 0 <= a < 3 && a != i ==> r.Min().Get(a) == newBox.Min().Get(a) && r.Max().Get(a) == newBox.Max().Get(a)
  {
    var av := m.At(i, j) * box.Min().Get(j);
    var bv := m.At(i, j) * box.Max().Get(j);
    var min := newBox.Min();
    var max := newBox.Max();
    assert Spread(box, m, i, j).0 == if av < bv then av else bv;
    assert Spread(box, m, i, j).1 == if av < bv then bv else av;
    if av < bv {
      min := min.Set(i, min.Get(i) + av);
      max := max.Set(i, max.Get(i) + bv);
    } else {
      min := min.Set(i, min.Get(i) + bv);
      max := max.Set(i, max.Get(i) + av);
    }
    r := FromMinMax(min, newBox.Max());
    r := FromMinMax(r.Min(), max);
  }

  /** One column step of LocalToWorld adds Spread on row i and keeps every other row. */
  lemma AccumulateStep(before: Bounds, after: Bounds, box: Bounds, m: Matrix4x4, i: int, j: int)
    requires 0 <= i < 3 && 0 <= j < 3
    requires Accumulated(before, box, m, i, j)
    requires after.Min().Get(i) == before.Min().Get(i) + Spread(box, m, i, j).0
    requires after.Max().Get(i) == before.Max().Get(i) + Spread(box, m, i, j).1
    requires forall a :: 0 <= a < 3 && a != i ==> after.Min().Get(a) == before.Min().Get(a) && after.Max().Get(a) == before.Max().Get(a)
    ensures Accumulated(after, box, m, i, j + 1)
  {
  }

  /** Two vectors that agree on every axis are equal. */
  lemma Vector3ByAxes(u: Vector3, v: Vector3)
    requires forall a :: 0 <= a < 3 ==> u.Get(a) == v.Get(a)
    ensures u == v
  {
    assert u.Get(0) == v.Get(0) && u.Get(1) == v.Get(1) && u.Get(2) == v.Get(2);
  }

  /** Two boxes with the same min and max are the same box. */
  lemma BoundsByMinMax(a: Bounds, b: Bounds)
    requires a.Min() == b.Min() && a.Max() == b.Max()
    ensures a == b
  {
    assert a.center.x == (a.Min().x + a.Max().x) / 2.0;
    assert a.center.y == (a.Min().y + a.Max().y) / 2.0;
    assert a.center.z == (a.Min().z + a.Max().z) / 2.0;
  }

  lemma {:induction false} AxisOrdered(box: Bounds, m: Matrix4x4, i: int, k: int)
    requires 0 <= i < 3 && 0 <= k <= 3
    ensures AxisLow(box, m, i, k) <= AxisHigh(box, m, i, k)
  {
    if k > 0 {
      AxisOrdered(box, m, i, k - 1);
    }
  }

  /** For every box and every matrix, the transformed box has min <= max on every axis. */
  lemma TransformBoundsOrdered(box: Bounds, m: Matrix4x4)
    ensures TransformBounds(box, m).Min().LessEq(TransformBounds(box, m).Max())
  {
    AxisOrdered(box, m, 0, 3);
    AxisOrdered(box, m, 1, 3);
    AxisOrdered(box, m, 2, 3);
  }

  /**
   * Through a matrix whose 3x3 block is the identity, a box with
   * non-negative extents is only moved by the matrix's translation.
   */
  lemma TransformBoundsPureTranslation(box: Bounds, m: Matrix4x4)
    requires m.LinearIsIdentity()
    requires Zero.LessEq(box.extents)
    ensures TransformBounds(box, m) == Bounds(box.center.Plus(ExtractTranslationFromMatrix(m)), box.extents)
  {
    var r := TransformBounds(box, m);
    var moved := Bounds(box.center.Plus(ExtractTranslationFromMatrix(m)), box.extents);
    forall i | 0 <= i < 3
      ensures r.Min().Get(i) == moved.Min().Get(i) && r.Max().Get(i) == moved.Max().Get(i)
    {
      AxisOfIdentityRow(box, m, i);
    }
    assert r.Min() == moved.Min() by {
      assert r.Min().Get(0) == moved.Min().Get(0);
      assert r.Min().Get(1) == moved.Min().Get(1);
      assert r.Min().Get(2) == moved.Min().Get(2);
    }
    assert r.Max() == moved.Max() by {
      assert r.Max().Get(0) == moved.Max().Get(0);
      assert r.Max().Get(1) == moved.Max().Get(1);
      assert r.Max().Get(2) == moved.Max().Get(2);
    }
    BoundsByMinMax(r, moved);
  }

  lemma AxisOfIdentityRow(box: Bounds, m: Matrix4x4, i: int)
    requires 0 <= i < 3
    requires m.LinearIsIdentity()
    requires Zero.LessEq(box.extents)
    ensures AxisLow(box, m, i, 3) == m.At(i, 3) + box.Min().Get(i)
    ensures AxisHigh(box, m, i, 3) == m.At(i, 3) + box.Max().Get(i)
  {
    assert box.Min().Get(i) <= box.Max().Get(i);
    forall j | 0 <= j < 3
      ensures Spread(box, m, i, j) == if j == i then (box.Min().Get(i), box.Max().Get(i)) else (0.0, 0.0)
    {
      assert m.At(i, j) == if j == i then 1.0 else 0.0;
    }
    assert AxisLow(box, m, i, 1) == m.At(i, 3) + Spread(box, m, i, 0).0;
    assert AxisLow(box, m, i, 2) == AxisLow(box, m, i, 1) + Spread(box, m, i, 1).0;
    assert AxisLow(box, m, i, 3) == AxisLow(box, m, i, 2) + Spread(box, m, i, 2).0;
    assert AxisHigh(box, m, i, 1) == m.At(i, 3) + Spread(box, m, i, 0).1;
    assert AxisHigh(box, m, i, 2) == AxisHigh(box, m, i, 1) + Spread(box, m, i, 1).1;
    assert AxisHigh(box, m, i, 3) == AxisHigh(box, m, i, 2) + Spread(box, m, i, 2).1;
  }

  // ---------------------------------------------------------------------
  // Interpolation.

  /** LerpBounds: the centres and the sizes are lerped independently. */
  function LerpBounds(bounds1: Bounds, bounds2: Bounds, lerpVal: real): (r: Bounds)
    ensures r.center == Lerp(bounds1.center, bounds2.center, lerpVal)
    ensures r.Size() == Lerp(bounds1.Size(), bounds2.Size(), lerpVal)
  {
    FromCenterSize(Lerp(bounds1.center, bounds2.center, lerpVal),
                   Lerp(bounds1.Size(), bounds2.Size(), lerpVal))
  }

  /**
   * At fraction 0 (or below, since the lerp clamps) LerpBounds gives the
   * first box; at fraction 1 (or above) the second.
   */
  lemma LerpBoundsEndpoints(bounds1: Bounds, bounds2: Bounds, lerpVal: real)
    ensures lerpVal <= 0.0 ==> LerpBounds(bounds1, bounds2, lerpVal) == bounds1
    ensures lerpVal >= 1.0 ==> LerpBounds(bounds1, bounds2, lerpVal) == bounds2
  {
  }

  /**
   * The position and rotation that LerpMatrixTR writes to its out
   * parameters: the lerp of the two translations and the quaternion lerp
   * of the two extracted rotations.
   */
  function LerpMatrixTR(matrix1: Matrix4x4, matrix2: Matrix4x4, lerpVal: real, rm: RotationMath): (p: Pose)
    ensures p.position == Lerp(ExtractTranslationFromMatrix(matrix1), ExtractTranslationFromMatrix(matrix2), lerpVal)
  {
    Pose(Lerp(ExtractTranslationFromMatrix(matrix1), ExtractTranslationFromMatrix(matrix2), lerpVal),
         rm.lerp(rm.fromMatrix(matrix1), rm.fromMatrix(matrix2), lerpVal))
  }

  /**
   * The interpolated position is the first matrix's translation at fraction
   * 0, the second's at fraction 1, and on every axis lies between the two.
   */
  lemma LerpMatrixTRPosition(matrix1: Matrix4x4, matrix2: Matrix4x4, lerpVal: real, rm: RotationMath)
    ensures lerpVal <= 0.0 ==> LerpMatrixTR(matrix1, matrix2, lerpVal, rm).position == ExtractTranslationFromMatrix(matrix1)
    ensures lerpVal >= 1.0 ==> LerpMatrixTR(matrix1, matrix2, lerpVal, rm).position == ExtractTranslationFromMatrix(matrix2)
    ensures var p := LerpMatrixTR(matrix1, matrix2, lerpVal, rm).position;
            forall i :: 0 <= i < 3 ==>
              MinReal(matrix1.At(i, 3), matrix2.At(i, 3)) <= p.Get(i) <= MaxReal(matrix1.At(i, 3), matrix2.At(i, 3))
  {
    var p := LerpMatrixTR(matrix1, matrix2, lerpVal, rm).position;
    var u := Clamp01(lerpVal);
    forall i | 0 <= i < 3
      ensures MinReal(matrix1.At(i, 3), matrix2.At(i, 3)) <= p.Get(i) <= MaxReal(matrix1.At(i, 3), matrix2.At(i, 3))
    {
      var a, b := matrix1.At(i, 3), matrix2.At(i, 3);
      assert p.Get(i) == a + (b - a) * u;
      LerpBetween(a, b, u);
    }
  }

  lemma LerpBetween(a: real, b: real, u: real)
    requires 0.0 <= u <= 1.0
    ensures MinReal(a, b) <= a + (b - a) * u <= MaxReal(a, b)
  {
    assert (b - a) * (1.0 - u) == (b - a) - (b - a) * u;
    if a <= b {
      MulNonNeg(b - a, u);
      MulNonNeg(b - a, 1.0 - u);
    } else {
      MulNonNeg(a - b, u);
      MulNonNeg(a - b, 1.0 - u);
      assert (a - b) * u == -((b - a) * u);
      assert (a - b) * (1.0 - u) == -((b - a) * (1.0 - u));
    }
  }

  lemma MulNonNeg(x: real, y: real)
    requires 0.0 <= x && 0.0 <= y
    ensures 0.0 <= x * y
  {
  }
}
