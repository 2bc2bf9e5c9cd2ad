/**
 * The C# and engine integer conversions the rewinders rely on, over exact
 * reals: the truncating remainder of C#'s %, the (int) cast, and
 * Mathf.FloorToInt, Mathf.CeilToInt and Mathf.Round.
 */
module Numerics {

  /**
   * C#'s a % b for b > 0: the remainder takes the sign of the dividend, so it
   * agrees with the Euclidean remainder on non-negative a and is mirrored on
   * negative a.
   */
  function CsRem(a: int, b: int): (r: int)
    requires b > 0
    ensures a >= 0 ==> r == a % b
    ensures a <= 0 ==> r == -((-a) % b)
    ensures a < 0 ==> -b < r <= 0
  {
    if a >= 0 then a % b else -((-a) % b)
  }

  /** Mathf.FloorToInt: the greatest integer not above x. */
  function FloorToInt(x: real): (r: int)
    ensures r as real <= x < r as real + 1.0
  {
    x.Floor
  }

  /** Mathf.CeilToInt: the least integer not below x. */
  function CeilToInt(x: real): (r: int)
    ensures x <= r as real < x + 1.0
  {
    -((-x).Floor)
  }

  /** The C# cast (int)x of a non-integral value: truncation toward zero. */
  function TruncToInt(x: real): (r: int)
    ensures x >= 0.0 ==> r as real <= x < r as real + 1.0
    ensures x < 0.0 ==> r as real - 1.0 < x <= r as real
  {
    if x >= 0.0 then x.Floor else -((-x).Floor)
  }

  /** Mathf.Round: the nearest integer, a tie going to the even one. */
  function RoundToEven(x: real): (r: int)
    ensures x - 0.5 <= r as real <= x + 0.5
    ensures (r as real == x - 0.5 || r as real == x + 0.5) ==> r % 2 == 0
  {
    var f := x.Floor;
    var d := x - f as real;
    if d < 0.5 then f else if d > 0.5 then f + 1 else if f % 2 == 0 then f else f + 1
  }

  /** Floor and ceiling are one apart unless x is a whole number, where they agree. */
  lemma FloorCeil(x: real)
    ensures CeilToInt(x) == FloorToInt(x) || CeilToInt(x) == FloorToInt(x) + 1
    ensures CeilToInt(x) == FloorToInt(x) <==> x == FloorToInt(x) as real
  {
    var f, c := FloorToInt(x), CeilToInt(x);
    if x == f as real {
      assert (-x).Floor == -f;
    } else {
      assert f as real < x < (f + 1) as real;
      assert (-x).Floor == -f - 1;
    }
  }

  /** A whole number is its own floor, ceiling and rounding. */
  lemma WholeNumber(k: int)
    ensures FloorToInt(k as real) == k && CeilToInt(k as real) == k && RoundToEven(k as real) == k
  {
    assert (-(k as real)).Floor == -k;
  }

  // ---------------------------------------------------------------------
  // Division facts the slot arithmetic of the rewinders needs.

  lemma MulAtLeast(k: int, d: int)
    requires k >= 1 && d >= 1
    ensures k * d >= d
  {
    assert (k - 1) * d >= 0;
  }

  lemma SignOfProduct(k: int, d: int)
    requires d >= 1
    ensures k <= 0 ==> k * d <= 0
    ensures k >= 1 ==> k * d >= d
  {
    if k <= 0 {
      assert (-k) * d >= 0;
    } else {
      MulAtLeast(k, d);
    }
  }

  /** Quotient and remainder are the only pair with x == q * d + r and 0 <= r < d. */
  lemma DivModUnique(x: int, d: int, q: int, r: int)
    requires d >= 1 && x == q * d + r && 0 <= r < d
    ensures x / d == q && x % d == r
  {
    var q0, r0 := x / d, x % d;
    assert (q - q0) * d == r0 - r;
    SignOfProduct(q - q0, d);
    SignOfProduct(q0 - q, d);
    assert (q0 - q) * d == r - r0;
  }

  /**
   * With d a divisor of n, the multiple of d at or below x < n is itself a
   * multiple of d, and the next multiple is still at most n.
   */
  lemma GridStep(x: int, d: int, n: int)
    requires 0 <= x < n && d >= 1 && n % d == 0
    ensures x - x % d + d <= n
    ensures (x - x % d) % d == 0 && (x - x % d + d) % d == 0
  {
    var q, p := x / d, n / d;
    DivModUnique(q * d, d, q, 0);
    assert x == q * d + x % d;
    assert n == p * d;
    assert (p - q) * d == n - q * d;
    SignOfProduct(p - q, d);
    MulAtLeast(p - q, d);
    DivModUnique(q * d + d, d, q + 1, 0);
  }

  /** The real quotient x / d splits into the integer quotient and the fraction (x % d) / d. */
  lemma RealQuotient(x: int, d: int)
    requires 0 <= x && 1 <= d
    ensures FloorToInt(x as real / d as real) == x / d
    ensures x as real / d as real - (x / d) as real == (x % d) as real / d as real
    ensures 0.0 <= (x % d) as real / d as real < 1.0
  {
    var q, r := x / d, x % d;
    assert x == q * d + r;
    var fr := r as real / d as real;
    assert fr * d as real == r as real;
    assert 0.0 <= fr < 1.0;
    assert (x as real) == q as real * d as real + r as real;
    assert x as real / d as real == q as real + fr;
  }

  /** The ceiling of x / d is the quotient, or one more when d does not divide x. */
  lemma CeilOfQuotient(x: int, d: int)
    requires 0 <= x && 1 <= d
    ensures CeilToInt(x as real / d as real) == if x % d == 0 then x / d else x / d + 1
  {
    var frameVal := x as real / d as real;
    RealQuotient(x, d);
    FloorCeil(frameVal);
    if x % d == 0 {
      assert frameVal == (x / d) as real;
    } else {
      assert (x % d) as real / d as real > 0.0;
    }
  }
}
