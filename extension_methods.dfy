/**
 * ExtensionMethods: the two Vector3 helpers that take optional components.
 * A C# nullable float (float?) is an Option of a real here; an omitted
 * argument is None.
 */
module ExtensionMethods {
  import opened UnityTypes

  datatype Option<T> = None | Some(value: T)

  /** The C# ?? operator on a nullable float. */
  function OrElse(o: Option<real>, fallback: real): real
  {
    if o.Some? then o.value else fallback
  }

  /** The offset a nullable float contributes to a sum: its value, or nothing. */
  function Offset(o: Option<real>): real
  {
    if o.Some? then o.value else 0.0
  }

  /** With: a copy of v whose supplied components are replaced. */
  function With(v: Vector3, x: Option<real>, y: Option<real>, z: Option<real>): (r: Vector3)
    ensures x.None? ==> r.x == v.x
    ensures y.None? ==> r.y == v.y
    ensures z.None? ==> r.z == v.z
    ensures x.Some? ==> r.x == x.value
    ensures y.Some? ==> r.y == y.value
    ensures z.Some? ==> r.z == z.value
  {
    Vector3(OrElse(x, v.x), OrElse(y, v.y), OrElse(z, v.z))
  }

  /** Add: a copy of v with the supplied components added to it. */
  function Add(v: Vector3, x: Option<real>, y: Option<real>, z: Option<real>): (r: Vector3)
    ensures r == v.Plus(Vector3(Offset(x), Offset(y), Offset(z)))
  {
    Vector3(if x.Some? then v.x + x.value else v.x,
            if y.Some? then v.y + y.value else v.y,
            if z.Some? then v.z + z.value else v.z)
  }

  /** Negates every supplied component. */
  function Negated(o: Option<real>): Option<real>
  {
    if o.Some? then Some(-o.value) else None
  }

  /** With no component supplied, both helpers return v unchanged. */
  lemma NothingSupplied(v: Vector3)
    ensures With(v, None, None, None) == v
    ensures Add(v, None, None, None) == v
  {
  }

  /** Applying With twice with the same components is the same as applying it once. */
  lemma WithIdempotent(v: Vector3, x: Option<real>, y: Option<real>, z: Option<real>)
    ensures With(With(v, x, y, z), x, y, z) == With(v, x, y, z)
  {
  }

  /** A later With overrides an earlier one on the components it supplies. */
  lemma WithOverrides(v: Vector3, x: Option<real>, y: Option<real>, z: Option<real>, x2: real, y2: real, z2: real)
    ensures With(With(v, x, y, z), Some(x2), Some(y2), Some(z2)) == Vector3(x2, y2, z2)
  {
  }

  /** Adding the negated components undoes Add. */
  lemma AddInverse(v: Vector3, x: Option<real>, y: Option<real>, z: Option<real>)
    ensures Add(Add(v, x, y, z), Negated(x), Negated(y), Negated(z)) == v
  {
  }

  /** Add on supplied components is With of the summed components. */
  lemma AddIsWithOfSum(v: Vector3, x: Option<real>, y: Option<real>, z: Option<real>)
    ensures Add(v, x, y, z) ==
            With(v, if x.Some? then Some(v.x + x.value) else None,
                    if y.Some? then Some(v.y + y.value) else None,
                    if z.Some? then Some(v.z + z.value) else None)
  {
  }

  /** Two Adds commute. */
  lemma AddCommutes(v: Vector3, a: Option<real>, b: Option<real>, c: Option<real>,
                    d: Option<real>, e: Option<real>, f: Option<real>)
    ensures Add(Add(v, a, b, c), d, e, f) == Add(Add(v, d, e, f), a, b, c)
  {
  }
}
