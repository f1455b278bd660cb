/** The older orbit record of Kepler/OrbitData.cs: a plain field record whose
    `Compute*` members derive the classical orbit quantities from the relative position
    and velocity and the gravitational parameter MG. None of them writes a field, so
    each is a function of the record. */
module LegacyOrbit {
  import opened Vectors
  import opened Numerics

  datatype OrbitData = OrbitData(
    MG: real,
    SemiMinorAxis: real,
    SemiMajorAxis: real,
    FocalParameter: real,
    Eccentricity: real,
    Period: real,
    TrueAnomaly: real,
    MeanAnomaly: real,
    EccentricAnomaly: real,
    MeanMotion: real,
    Periapsis: Vector3d,
    PeriapsisDistance: real,
    Apoapsis: Vector3d,
    ApoapsisDistance: real,
    CenterPoint: Vector3d,
    OrbitCompressionRatio: real,
    OrbitNormal: Vector3d,
    SemiMinorAxisBasis: Vector3d,
    SemiMajorAxisBasis: Vector3d,
    positionRelativeToAttractor: Vector3d,
    velocityRelativeToAttractor: Vector3d)

  /** Specific angular momentum h = r x v: perpendicular to both position and velocity. */
  function ComputeSpecificAngularMomentum(d: OrbitData): (h: Vector3d)
    ensures Dot(h, d.positionRelativeToAttractor) == 0.0
    ensures Dot(h, d.velocityRelativeToAttractor) == 0.0
  {
    CrossIsPerpendicular(d.positionRelativeToAttractor, d.velocityRelativeToAttractor);
    Cross(d.positionRelativeToAttractor, d.velocityRelativeToAttractor)
  }

  /** Line of nodes n = (0, 0, 1) x h: it lies in the reference plane and is
      perpendicular to the angular momentum. */
  function ComputeNodeVector(d: OrbitData): (n: Vector3d)
    ensures n.z == 0.0
    ensures Dot(n, ComputeSpecificAngularMomentum(d)) == 0.0
  {
    var h := ComputeSpecificAngularMomentum(d);
    CrossIsPerpendicular(Vector3d(0.0, 0.0, 1.0), h);
    Cross(Vector3d(0.0, 0.0, 1.0), h)
  }

  /** Eccentricity vector (v x h) / MG - r / |r|: it lies in the orbital plane,
      perpendicular to the angular momentum. */
  function ComputeEccentricityVector(m: Math, d: OrbitData): (e: Vector3d)
    ensures m.NormalizedParallel() ==> Dot(e, ComputeSpecificAngularMomentum(d)) == 0.0
  {
    var h := ComputeSpecificAngularMomentum(d);
    var term := VDiv(Cross(d.velocityRelativeToAttractor, h), d.MG);
    var rNorm := m.normalized(d.positionRelativeToAttractor);
    EccentricityVectorInPlane(m, d, term, rNorm);
    Sub(term, rNorm)
  }

  lemma EccentricityVectorInPlane(m: Math, d: OrbitData, term: Vector3d, rNorm: Vector3d)
    requires term == VDiv(Cross(d.velocityRelativeToAttractor, ComputeSpecificAngularMomentum(d)), d.MG)
    requires rNorm == m.normalized(d.positionRelativeToAttractor)
    ensures m.NormalizedParallel() ==> Dot(Sub(term, rNorm), ComputeSpecificAngularMomentum(d)) == 0.0
  {
    var r, v := d.positionRelativeToAttractor, d.velocityRelativeToAttractor;
    var h := ComputeSpecificAngularMomentum(d);
    CrossIsPerpendicular(v, h);
    DotQuotient(Cross(v, h), h, d.MG);
    DotSub(term, rNorm, h);
    if m.NormalizedParallel() {
      TripleProductRotates(rNorm, r, v);
      assert Cross(rNorm, r) == Zero;
    }
  }

  /** Specific orbital energy |v|^2 / 2 - MG / |r|: never below the potential term
      -MG / |r|, and equal to it at rest, so a body at rest at a positive distance from
      an attractor with positive MG is bound. */
  function ComputeSpecificEnergy(m: Math, d: OrbitData): (energy: real)
    ensures energy >= -Div(d.MG, m.magnitude(d.positionRelativeToAttractor))
    ensures d.velocityRelativeToAttractor == Zero ==> energy == -Div(d.MG, m.magnitude(d.positionRelativeToAttractor))
    ensures d.velocityRelativeToAttractor == Zero && d.MG > 0.0 && m.magnitude(d.positionRelativeToAttractor) > 0.0 ==>
      energy < 0.0
  {
    var v2 := SqrMagnitude(d.velocityRelativeToAttractor);
    var r := m.magnitude(d.positionRelativeToAttractor);
    SquareNonNegative(d.velocityRelativeToAttractor);
    QuotientSigns(d.MG, r);
    v2 / 2.0 - Div(d.MG, r)
  }

  lemma SquareNonNegative(v: Vector3d)
    ensures SqrMagnitude(v) >= 0.0
  {
    assert v.x * v.x >= 0.0 && v.y * v.y >= 0.0 && v.z * v.z >= 0.0;
  }

  /** Orbit normal normalize(r x v): parallel to the angular momentum. */
  function ComputeOrbitNormal(m: Math, d: OrbitData): (n: Vector3d)
    ensures m.NormalizedParallel() ==> Cross(n, ComputeSpecificAngularMomentum(d)) == Zero
  {
    m.normalized(Cross(d.positionRelativeToAttractor, d.velocityRelativeToAttractor))
  }

  /** Semi-major axis -MG / (2 energy): positive on a bound orbit (negative energy),
      negative on an unbound one. */
  function ComputeSemiMajorAxis(m: Math, d: OrbitData): (a: real)
    ensures d.MG > 0.0 && ComputeSpecificEnergy(m, d) < 0.0 ==> a > 0.0
    ensures d.MG > 0.0 && ComputeSpecificEnergy(m, d) > 0.0 ==> a < 0.0
  {
    var energy := ComputeSpecificEnergy(m, d);
    QuotientSigns(-d.MG, 2.0 * energy);
    Div(-d.MG, 2.0 * energy)
  }

  /** Eccentricity |e|: never negative. */
  function ComputeEccentricity(m: Math, d: OrbitData): (e: real)
    ensures m.Ranges() ==> e >= 0.0
  {
    m.magnitude(ComputeEccentricityVector(m, d))
  }

  /** Semi-minor axis a sqrt(1 - e^2): the semi-major axis on a circle, 0 on a
      parabola. */
  function ComputeSemiMinorAxis(m: Math, d: OrbitData): (b: real)
    ensures m.AtZero() && ComputeEccentricity(m, d) == 0.0 ==> b == ComputeSemiMajorAxis(m, d)
    ensures m.AtZero() && ComputeEccentricity(m, d) == 1.0 ==> b == 0.0
  {
    var a := ComputeSemiMajorAxis(m, d);
    var e := ComputeEccentricity(m, d);
    UnitCircleFactor(m, e);
    a * m.sqrt(1.0 - e * e)
  }

  /** sqrt(1 - e^2) is 1 for e = 0 and 0 for e = 1. */
  lemma UnitCircleFactor(m: Math, e: real)
    ensures m.AtZero() && e == 0.0 ==> m.sqrt(1.0 - e * e) == 1.0
    ensures m.AtZero() && e == 1.0 ==> m.sqrt(1.0 - e * e) == 0.0
  {
    if e == 0.0 {
      Congruence(m.sqrt, 1.0 - e * e, 1.0);
    } else if e == 1.0 {
      Congruence(m.sqrt, 1.0 - e * e, 0.0);
    }
  }

  /** Focal parameter a (1 - e^2): the semi-major axis on a circle, and between 0 and
      the semi-major axis on any ellipse with a >= 0. */
  function ComputeFocalParameter(m: Math, d: OrbitData): (p: real)
    ensures ComputeEccentricity(m, d) == 0.0 ==> p == ComputeSemiMajorAxis(m, d)
    ensures 0.0 <= ComputeEccentricity(m, d) <= 1.0 && ComputeSemiMajorAxis(m, d) >= 0.0 ==>
      0.0 <= p <= ComputeSemiMajorAxis(m, d)
  {
    var a := ComputeSemiMajorAxis(m, d);
    var e := ComputeEccentricity(m, d);
    FractionOf(a, e);
    a * (1.0 - e * e)
  }

  /** a (1 - e^2) lies between 0 and a for a >= 0 and 0 <= e <= 1. */
  lemma FractionOf(a: real, e: real)
    ensures a >= 0.0 && 0.0 <= e <= 1.0 ==> 0.0 <= a * (1.0 - e * e) <= a
  {
    if a >= 0.0 && 0.0 <= e <= 1.0 {
      ProductNonNegative(e, e);
      ProductNonNegative(e, 1.0 - e);
      ProductNonNegative(a, 1.0 - e * e);
      ProductNonNegative(a, e * e);
    }
  }

  /** Period 2 pi sqrt(a^3 / MG): positive on a bound orbit. */
  function ComputePeriod(m: Math, d: OrbitData): (period: real)
    ensures m.Ranges() && d.MG > 0.0 && ComputeSemiMajorAxis(m, d) > 0.0 ==> period > 0.0
  {
    var a := ComputeSemiMajorAxis(m, d);
    BoundRatios(a, d.MG);
    2.0 * MathPI * m.sqrt(Div(Cube(a), d.MG))
  }

  /** Mean motion sqrt(MG / a^3): positive on a bound orbit. */
  function ComputeMeanMotion(m: Math, d: OrbitData): (n: real)
    ensures m.Ranges() && d.MG > 0.0 && ComputeSemiMajorAxis(m, d) > 0.0 ==> n > 0.0
  {
    var a := ComputeSemiMajorAxis(m, d);
    BoundRatios(a, d.MG);
    m.sqrt(Div(d.MG, Cube(a)))
  }

  /** For a > 0 and MG > 0 both a^3 / MG and its inverse are positive. */
  lemma BoundRatios(a: real, mg: real)
    ensures a > 0.0 && mg > 0.0 ==> Div(Cube(a), mg) > 0.0 && Div(mg, Cube(a)) > 0.0
  {
    if a > 0.0 && mg > 0.0 {
      assert Cube(a) > 0.0;
      QuotientSigns(Cube(a), mg);
      QuotientSigns(mg, Cube(a));
    }
  }

  /** On an ellipse (e <= 1) the semi-minor axis, semi-major axis and focal parameter
      satisfy b^2 = a p. */
  lemma SemiMinorAxisSquared(m: Math, d: OrbitData)
    requires m.SqrtSquares()
    requires ComputeEccentricity(m, d) * ComputeEccentricity(m, d) <= 1.0
    ensures ComputeSemiMinorAxis(m, d) * ComputeSemiMinorAxis(m, d)
         == ComputeSemiMajorAxis(m, d) * ComputeFocalParameter(m, d)
  {
    var a := ComputeSemiMajorAxis(m, d);
    var e := ComputeEccentricity(m, d);
    var s := m.sqrt(1.0 - e * e);
    assert s * s == 1.0 - e * e;
    calc {
      (a * s) * (a * s);
      == (a * a) * (s * s);
      == (a * a) * (1.0 - e * e);
      == a * (a * (1.0 - e * e));
    }
  }

  /** On a bound orbit with a positive gravitational parameter, one period at the mean
      motion sweeps exactly one full turn: Period * MeanMotion == 2 pi. */
  lemma PeriodTimesMeanMotion(m: Math, d: OrbitData)
    requires m.Ranges() && m.SqrtSquares()
    requires d.MG > 0.0 && ComputeSemiMajorAxis(m, d) > 0.0
    ensures ComputePeriod(m, d) * ComputeMeanMotion(m, d) == 2.0 * MathPI
  {
    var a := ComputeSemiMajorAxis(m, d);
    assert Cube(a) > 0.0 by {
      ProductPositive(a, a);
      ProductPositive(a * a, a);
    }
    SqrtReciprocal(m, Cube(a), d.MG);
    Associate(2.0 * MathPI, m.sqrt(Div(Cube(a), d.MG)), m.sqrt(Div(d.MG, Cube(a))));
  }

  /** sqrt(p / q) * sqrt(q / p) == 1 for positive p and q. */
  lemma SqrtReciprocal(m: Math, p: real, q: real)
    requires m.Ranges() && m.SqrtSquares()
    requires p > 0.0 && q > 0.0
    ensures m.sqrt(Div(p, q)) * m.sqrt(Div(q, p)) == 1.0
  {
    var x, y := p / q, q / p;
    assert x > 0.0 && y > 0.0 by {
      QuotientPositive(p, q);
      QuotientPositive(q, p);
    }
    assert x * y == 1.0 by {
      QuotientTimesInverse(p, q);
    }
    var s, t := m.sqrt(x), m.sqrt(y);
    assert s > 0.0 && t > 0.0;
    assert s * s == x && t * t == y;
    var u := s * t;
    assert u * u == x * y by {
      assert u * u == (s * s) * (t * t);
    }
    ProductPositive(s, t);
    UnitSquare(u);
  }

  lemma Associate(k: real, s: real, t: real)
    ensures (k * s) * t == k * (s * t)
  {
  }

  lemma ProductPositive(a: real, b: real)
    requires a > 0.0 && b > 0.0
    ensures a * b > 0.0
  {
  }

  lemma QuotientPositive(p: real, q: real)
    requires p > 0.0 && q > 0.0
    ensures p / q > 0.0
  {
  }

  lemma QuotientTimesInverse(p: real, q: real)
    requires p > 0.0 && q > 0.0
    ensures (p / q) * (q / p) == 1.0
  {
  }

  /** The only positive square root of 1 is 1. */
  lemma UnitSquare(u: real)
    requires u > 0.0 && u * u == 1.0
    ensures u == 1.0
  {
    assert (u - 1.0) * (u + 1.0) == 0.0;
  }
}
