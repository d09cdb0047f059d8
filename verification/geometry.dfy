/** Exact-arithmetic vocabulary shared by every stage of the Airocean pipeline.

    The source computes with IEEE doubles; this model computes with Dafny's
    unbounded `real`.  The constants the source derives from square roots
    and arc sines are written as the double values it computes, so that
    arithmetic with them stays exact and linear.
 */
module Geometry {

  /** A value that may be absent: `None` marks a call that raises in the source. */
  datatype Option<+T> = None | Some(value: T)

  /** What a projection call produces. `OutOfBounds` is the source's
      (nan, nan) result; like NaN it passes unchanged through every later
      scaling, negation or swap. `ZeroDivision` is a call that raises
      ZeroDivisionError, which likewise propagates to the caller. */
  datatype Coords = Pair(a: real, b: real) | OutOfBounds | ZeroDivision

  /** A planar point in projection units. */
  datatype Pt = Pt(x: real, y: real)

  /** A point of 3-space (a unit vector when it lies on the sphere). */
  datatype Vec3 = Vec3(x: real, y: real, z: real)

  /** A 3x3 matrix stored row by row, the nine consecutive entries the source
      keeps per face in ROTATION_MATRIX and INVERSE_ROTATION_MATRIX. */
  datatype Mat3 = Mat3(a0: real, a1: real, a2: real,
                       a3: real, a4: real, a5: real,
                       a6: real, a7: real, a8: real)

  /** Matrix-vector product, one dot product per row. */
  function Apply(m: Mat3, v: Vec3): Vec3
  {
    Vec3(v.x * m.a0 + v.y * m.a1 + v.z * m.a2,
         v.x * m.a3 + v.y * m.a4 + v.z * m.a5,
         v.x * m.a6 + v.y * m.a7 + v.z * m.a8)
  }

  /** ROOT3 = math.sqrt(3), written as the shortest decimal of the double
      the source computes. */
  const ROOT3: real := 1.7320508075688772

  /** ARC = 2*asin(sqrt(5 - sqrt 5)/sqrt 10), the arc of one icosahedron
      edge in radians, as the double the source computes. */
  const ARC: real := 1.1071487177940904

  /** math.pi as a double. */
  const PI: real := 3.141592653589793

  /** A rotation of the plane by an angle whose cosine and sine are given.
      The source uses the rotation by THETA = -150 degrees; its double
      cosine and sine are not exactly on the unit circle, so the model keeps
      them abstract and assumes only the identity cos^2 + sin^2 = 1. */
  datatype Turn = Turn(cos: real, sin: real)
  {
    predicate Valid()
    {
      cos * cos + sin * sin == 1.0
    }
  }

  /** Python's `int()` on a float: truncation toward zero (not the floor). */
  function Trunc(r: real): (t: int)
    ensures r >= 0.0 ==> 0 <= t && t as real <= r < t as real + 1.0
    ensures r < 0.0 ==> t <= 0 && t as real - 1.0 < r <= t as real
  {
    if r >= 0.0 then r.Floor else -((-r).Floor)
  }

  /** Python's `max(lo, min(t, hi))` on integers. */
  function Clamp(t: int, lo: int, hi: int): (c: int)
    requires lo <= hi
    ensures lo <= c <= hi
    ensures lo <= t <= hi ==> c == t
    ensures t < lo ==> c == lo
    ensures hi < t ==> c == hi
  {
    if t < lo then lo else if hi < t then hi else t
  }
}
