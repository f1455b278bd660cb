/** Exact three-component vectors over the reals: the double-precision `Vector3d` of the
    orbit code, with the exactly computable operations (sums, scaling, dot and cross
    products). Norms, normalisation and angles involve square roots and live in `Numerics`. */
module Vectors {

  datatype Vector3d = Vector3d(x: real, y: real, z: real)

  /** The vector `new Vector3d()`. */
  const Zero := Vector3d(0.0, 0.0, 0.0)

  /** The ecliptic frame of Gravity/Kepler/Calculators/EclipticConstants.cs. */
  const EclipticRight := Vector3d(1.0, 0.0, 0.0)
  const EclipticUp := Vector3d(0.0, 1.0, 0.0)
  const EclipticNormal := Vector3d(0.0, 0.0, 1.0)

  /** A point that may sit at infinity: the apoapsis of an open orbit is stored as
      (+inf, +inf, +inf). */
  datatype Point = At(v: Vector3d) | AtInfinity

  function Add(a: Vector3d, b: Vector3d): Vector3d {
    Vector3d(a.x + b.x, a.y + b.y, a.z + b.z)
  }

  function Sub(a: Vector3d, b: Vector3d): Vector3d {
    Vector3d(a.x - b.x, a.y - b.y, a.z - b.z)
  }

  function Neg(a: Vector3d): Vector3d {
    Vector3d(-a.x, -a.y, -a.z)
  }

  function Scale(k: real, a: Vector3d): Vector3d {
    Vector3d(k * a.x, k * a.y, k * a.z)
  }

  function Dot(a: Vector3d, b: Vector3d): real {
    a.x * b.x + a.y * b.y + a.z * b.z
  }

  function Cross(a: Vector3d, b: Vector3d): Vector3d {
    Vector3d(a.y * b.z - a.z * b.y, a.z * b.x - a.x * b.z, a.x * b.y - a.y * b.x)
  }

  function SqrMagnitude(a: Vector3d): real {
    Dot(a, a)
  }

  /** A cross product is perpendicular to both of its factors. */
  lemma CrossIsPerpendicular(a: Vector3d, b: Vector3d)
    ensures Dot(Cross(a, b), a) == 0.0 && Dot(Cross(a, b), b) == 0.0
  {
  }

  /** The scalar triple product may be rotated: a . (b x c) == (a x b) . c */
  lemma TripleProductRotates(a: Vector3d, b: Vector3d, c: Vector3d)
    ensures Dot(a, Cross(b, c)) == Dot(Cross(a, b), c)
  {
  }

  lemma DotSub(a: Vector3d, b: Vector3d, c: Vector3d)
    ensures Dot(Sub(a, b), c) == Dot(a, c) - Dot(b, c)
  {
  }

  lemma SqrMagnitudeNonNegative(a: Vector3d)
    ensures SqrMagnitude(a) >= 0.0
  {
    assert a.x * a.x >= 0.0 && a.y * a.y >= 0.0 && a.z * a.z >= 0.0;
  }

  /** Two points at distance `k u` on either side of `c` have `c` as their midpoint
      and differ by `2 k u`. */
  lemma AroundCentre(c: Vector3d, k: real, u: Vector3d)
    ensures Add(Add(c, Scale(k, u)), Sub(c, Scale(k, u))) == Scale(2.0, c)
    ensures Sub(Add(c, Scale(k, u)), Sub(c, Scale(k, u))) == Scale(2.0 * k, u)
  {
    assert 2.0 * k * u.x == k * u.x + k * u.x;
    assert 2.0 * k * u.y == k * u.y + k * u.y;
    assert 2.0 * k * u.z == k * u.z + k * u.z;
  }
}
