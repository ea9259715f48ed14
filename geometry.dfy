/** Plane and space vectors over `real`, with the magnitude tests the limb code
    performs. The host engine's square root is not definable here, so every
    operation that needs a true length takes it as a parameter `sqrt` that must
    return the non-negative root. */
module Geometry {

  datatype Vec2 = Vec2(x: real, y: real)

  datatype Vec3 = Vec3(x: real, y: real, z: real)

  const Zero2: Vec2 := Vec2(0.0, 0.0)
  const Zero3: Vec3 := Vec3(0.0, 0.0, 0.0)

  /** Smallest length the engine's normalisation divides by (Vector2.Normalize). */
  const NormalizeEpsilon: real := 0.00001

  /** Mathf.Max */
  function MaxReal(a: real, b: real): (r: real)
    ensures r >= a && r >= b && (r == a || r == b)
  {
    if a >= b then a else b
  }

  function Sub(a: Vec2, b: Vec2): Vec2 {
    Vec2(a.x - b.x, a.y - b.y)
  }

  function Scale(v: Vec2, k: real): Vec2 {
    Vec2(v.x * k, v.y * k)
  }

  function SqMagnitude(v: Vec2): (m: real)
    ensures m >= 0.0
  {
    v.x * v.x + v.y * v.y
  }

  /** `sqrt` returns the non-negative square root of every non-negative real. */
  ghost predicate IsSquareRoot(sqrt: real -> real) {
    forall r: real :: 0.0 <= r ==> 0.0 <= sqrt(r) && sqrt(r) * sqrt(r) == r
  }

  /** Vector2.magnitude */
  function Magnitude(v: Vec2, sqrt: real -> real): (m: real)
    requires IsSquareRoot(sqrt)
    ensures 0.0 <= m && m * m == SqMagnitude(v)
  {
    sqrt(SqMagnitude(v))
  }

  /** A non-negative length compares with a non-negative bound as its square does. */
  lemma MagnitudeBelow(v: Vec2, sqrt: real -> real, bound: real)
    requires IsSquareRoot(sqrt) && 0.0 <= bound
    ensures Magnitude(v, sqrt) <= bound <==> SqMagnitude(v) <= bound * bound
    ensures Magnitude(v, sqrt) < bound <==> SqMagnitude(v) < bound * bound
  {
    var m := Magnitude(v, sqrt);
    if m >= bound {
      SquareGrows(bound, m);
    } else {
      SquareGrows(m, bound);
    }
  }

  lemma SquareGrows(a: real, b: real)
    requires 0.0 <= a <= b
    ensures a * a <= b * b
    ensures a < b ==> a * a < b * b
  {
    assert b * b - a * a == (b - a) * (b + a);
    if a < b {
      PositiveProduct(b - a, b + a);
    }
  }

  lemma PositiveProduct(a: real, b: real)
    requires a > 0.0 && b > 0.0
    ensures a * b > 0.0
  {
  }

  /** Vector2.Normalize: divide by the length, or become zero when the length
      is too small to divide by. */
  function Normalized(v: Vec2, sqrt: real -> real): (r: Vec2)
    requires IsSquareRoot(sqrt)
    ensures Magnitude(v, sqrt) > NormalizeEpsilon ==>
              SqMagnitude(r) == 1.0 && r == Scale(v, 1.0 / Magnitude(v, sqrt))
    ensures Magnitude(v, sqrt) <= NormalizeEpsilon ==> r == Zero2
  {
    var m := Magnitude(v, sqrt);
    if m > NormalizeEpsilon then
      UnitAfterDivision(v, m);
      Scale(v, 1.0 / m)
    else
      Zero2
  }

  lemma UnitAfterDivision(v: Vec2, m: real)
    requires m > 0.0 && m * m == SqMagnitude(v)
    ensures SqMagnitude(Scale(v, 1.0 / m)) == 1.0
  {
    var a, b := v.x * (1.0 / m), v.y * (1.0 / m);
    assert a * m == v.x;
    assert b * m == v.y;
    assert (a * a + b * b) * (m * m) == v.x * v.x + v.y * v.y by {
      assert (a * a) * (m * m) == (a * m) * (a * m);
      assert (b * b) * (m * m) == (b * m) * (b * m);
    }
  }
}
