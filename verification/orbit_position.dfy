/** Positions on the orbit, Gravity/Kepler/Calculators/OrbitPositionCalculator.cs:
    the position relative to the orbit's centre and to its focus for a given
    eccentric or true anomaly, and the sampled point arrays that the orbit renderer
    draws. Sampling reads the orbit and never writes it. */
module OrbitPosition {
  import opened Vectors
  import opened Numerics
  import opened KeplerUtils
  import opened OrbitState

  /** The combination `-minor * x - major * y` (ellipse, hyperbola) or
      `-minor * x + major * y` (parabola) of the two in-plane axes. */
  function InPlane(minor: Vector3d, major: Vector3d, x: real, y: real): Vector3d {
    Add(Scale(-x, minor), Scale(-y, major))
  }

  /** Every such combination is perpendicular to `minor x major`. */
  lemma InPlaneIsPerpendicular(minor: Vector3d, major: Vector3d, x: real, y: real)
    ensures Dot(InPlane(minor, major, x, y), Cross(minor, major)) == 0.0
  {
    CrossIsPerpendicular(minor, major);
    assert Dot(InPlane(minor, major, x, y), Cross(minor, major))
        == -x * Dot(minor, Cross(minor, major)) - y * Dot(major, Cross(minor, major));
  }

  /** The local coordinates `r` of the central position: `(sin E b, -cos E a)` on an
      ellipse, `(sinh E b, cosh E a)` on a hyperbola, and
      `(q sin E / (1 + cos E), q cos E / (1 + cos E))` on a parabola. */
  function CentralCoordinates(m: Math, e: real, a: real, b: real, q: real, E: real): Vector3d {
    if e < 1.0 then
      Vector3d(m.sin(E) * b, -(m.cos(E) * a), 0.0)
    else if e > 1.0 then
      Vector3d(m.sinh(E) * b, m.cosh(E) * a, 0.0)
    else
      Vector3d(Div(q * m.sin(E), 1.0 + m.cos(E)), Div(q * m.cos(E), 1.0 + m.cos(E)), 0.0)
  }

  /** The coordinates of the state's own conic. */
  function CoordinatesOf(m: Math, f: OrbitFields, E: real): Vector3d {
    CentralCoordinates(m, f.Eccentricity, f.SemiMajorAxis, f.SemiMinorAxis, f.PeriapsisDistance, E)
  }

  /** `GetCentralPositionAtEccentricAnomaly`: the position relative to the centre of
      the conic, `-minor r.x - major r.y`, with `+ major r.y` on a parabola. Eccentric
      anomaly 0 is the periapsis: one semi-major axis along the major axis on an
      ellipse, one against it on a hyperbola, and half the stored periapsis distance
      along it on a parabola. */
  function GetCentralPositionAtEccentricAnomaly(m: Math, f: OrbitFields, E: real): (r: Vector3d)
    ensures m.AtZero() && E == 0.0 && f.Eccentricity < 1.0 ==> r == Scale(f.SemiMajorAxis, f.SemiMajorAxisBasis)
    ensures m.AtZero() && E == 0.0 && f.Eccentricity > 1.0 ==> r == Scale(-f.SemiMajorAxis, f.SemiMajorAxisBasis)
    ensures m.AtZero() && E == 0.0 && f.Eccentricity == 1.0 ==> r == Scale(f.PeriapsisDistance / 2.0, f.SemiMajorAxisBasis)
  {
    var r := CoordinatesOf(m, f, E);
    if f.Eccentricity == 1.0 then InPlane(f.SemiMinorAxisBasis, f.SemiMajorAxisBasis, r.x, -r.y)
    else InPlane(f.SemiMinorAxisBasis, f.SemiMajorAxisBasis, r.x, r.y)
  }

  /** `GetFocalPositionAtEccentricAnomaly`: the central position shifted by the
      centre point, i.e. relative to the attractor at the focus. */
  function GetFocalPositionAtEccentricAnomaly(m: Math, f: OrbitFields, E: real): (r: Vector3d)
    ensures Sub(r, f.CenterPoint) == GetCentralPositionAtEccentricAnomaly(m, f, E)
  {
    Add(GetCentralPositionAtEccentricAnomaly(m, f, E), f.CenterPoint)
  }

  /** `GetCentralPositionAtTrueAnomaly`: converts the true anomaly first. On a
      parabola the two anomalies coincide below a full turn. */
  function GetCentralPositionAtTrueAnomaly(m: Math, f: OrbitFields, T: real): (r: Vector3d)
    ensures f.Eccentricity == 1.0 && -PI_2 < T < PI_2 ==> r == GetCentralPositionAtEccentricAnomaly(m, f, T)
  {
    GetCentralPositionAtEccentricAnomaly(m, f, ConvertTrueToEccentricAnomaly(m, T, f.Eccentricity))
  }

  /** `GetFocalPositionAtTrueAnomaly`: the central position at the true anomaly,
      shifted by the centre point. */
  function GetFocalPositionAtTrueAnomaly(m: Math, f: OrbitFields, T: real): (r: Vector3d)
    ensures Sub(r, f.CenterPoint) == GetCentralPositionAtTrueAnomaly(m, f, T)
  {
    Add(GetCentralPositionAtTrueAnomaly(m, f, T), f.CenterPoint)
  }

  /** Every position lies in the orbital plane through the centre point, spanned by
      the two axes: measured from the centre it is perpendicular to their normal. */
  lemma CentralPositionInPlane(m: Math, f: OrbitFields, E: real)
    ensures Dot(GetCentralPositionAtEccentricAnomaly(m, f, E), Cross(f.SemiMinorAxisBasis, f.SemiMajorAxisBasis)) == 0.0
  {
    var r := CoordinatesOf(m, f, E);
    if f.Eccentricity == 1.0 {
      InPlaneIsPerpendicular(f.SemiMinorAxisBasis, f.SemiMajorAxisBasis, r.x, -r.y);
    } else {
      InPlaneIsPerpendicular(f.SemiMinorAxisBasis, f.SemiMajorAxisBasis, r.x, r.y);
    }
  }

  /** The focal position is the central one moved by the centre point, and so it too
      lies in the orbital plane through that point, for either kind of anomaly. */
  lemma FocalPositionInPlane(m: Math, f: OrbitFields, E: real, T: real)
    ensures Sub(GetFocalPositionAtEccentricAnomaly(m, f, E), f.CenterPoint) == GetCentralPositionAtEccentricAnomaly(m, f, E)
    ensures Dot(Sub(GetFocalPositionAtTrueAnomaly(m, f, T), f.CenterPoint), Cross(f.SemiMinorAxisBasis, f.SemiMajorAxisBasis)) == 0.0
  {
    CentralPositionInPlane(m, f, ConvertTrueToEccentricAnomaly(m, T, f.Eccentricity));
    assert Sub(GetFocalPositionAtTrueAnomaly(m, f, T), f.CenterPoint)
        == GetCentralPositionAtEccentricAnomaly(m, f, ConvertTrueToEccentricAnomaly(m, T, f.Eccentricity));
  }

  /** On a parabola the true and the eccentric anomaly coincide below a full turn,
      so both position functions agree there. */
  lemma ParabolicAnomaliesAgree(m: Math, f: OrbitFields, T: real)
    requires f.Eccentricity == 1.0 && -PI_2 < T < PI_2
    ensures GetFocalPositionAtTrueAnomaly(m, f, T) == GetFocalPositionAtEccentricAnomaly(m, f, T)
  {
  }

  /** Two orbit states that describe the same conic in space. */
  predicate SameConic(f: OrbitFields, g: OrbitFields) {
    && f.Eccentricity == g.Eccentricity
    && f.SemiMinorAxis == g.SemiMinorAxis && f.SemiMajorAxis == g.SemiMajorAxis
    && f.PeriapsisDistance == g.PeriapsisDistance
    && f.SemiMinorAxisBasis == g.SemiMinorAxisBasis && f.SemiMajorAxisBasis == g.SemiMajorAxisBasis
    && f.CenterPoint == g.CenterPoint
  }

  /** Positions read only the conic: the anomalies, the mass, the position and the
      velocity stored in the state do not affect them. */
  lemma PositionsDependOnConic(m: Math, f: OrbitFields, g: OrbitFields, E: real)
    requires SameConic(f, g)
    ensures GetCentralPositionAtEccentricAnomaly(m, f, E) == GetCentralPositionAtEccentricAnomaly(m, g, E)
    ensures GetFocalPositionAtEccentricAnomaly(m, f, E) == GetFocalPositionAtEccentricAnomaly(m, g, E)
  {
  }

  /** On an ellipse, eccentric anomaly 0 is the periapsis: the centre point moved
      one semi-major axis along the major axis. */
  lemma EllipticPeriapsisAtZero(m: Math, f: OrbitFields)
    requires m.AtZero() && f.Eccentricity < 1.0
    ensures GetFocalPositionAtEccentricAnomaly(m, f, 0.0)
         == Add(f.CenterPoint, Scale(f.SemiMajorAxis, f.SemiMajorAxisBasis))
  {
  }

  // ---------------------------------------------------------------------------
  // Sampling.

  /** Elliptic sample `i` of `count`: eccentric anomaly `i * 2 pi / (count - 1)`. */
  function EllipticSampleAnomaly(i: int, count: int): real
    requires count >= 2
  {
    (i as real) * PI_2 / ((count - 1) as real)
  }

  /** Hyperbolic sample `i` of `count`: true anomaly `-max + i * 2 max / (count - 1)`. */
  function HyperbolicSampleAnomaly(maxAngle: real, i: int, count: int): real
    requires count >= 2
  {
    -maxAngle + (i as real) * 2.0 * maxAngle / ((count - 1) as real)
  }

  /** The samples start at periapsis (0) and end one full turn later (2 pi), the
      hyperbolic ones run from -maxAngle to +maxAngle, and both are evenly spaced. */
  lemma SampleAnomalies(maxAngle: real, i: int, count: int)
    requires count >= 2
    ensures EllipticSampleAnomaly(0, count) == 0.0
    ensures EllipticSampleAnomaly(count - 1, count) == PI_2
    ensures EllipticSampleAnomaly(i + 1, count) - EllipticSampleAnomaly(i, count) == PI_2 / ((count - 1) as real)
    ensures HyperbolicSampleAnomaly(maxAngle, 0, count) == -maxAngle
    ensures HyperbolicSampleAnomaly(maxAngle, count - 1, count) == maxAngle
    ensures HyperbolicSampleAnomaly(maxAngle, i + 1, count) - HyperbolicSampleAnomaly(maxAngle, i, count)
         == 2.0 * maxAngle / ((count - 1) as real)
  {
    var n := (count - 1) as real;
    assert ((count - 1) as real) * PI_2 / n == PI_2;
    assert ((count - 1) as real) * 2.0 * maxAngle / n == 2.0 * maxAngle;
    assert ((i + 1) as real) * PI_2 / n - (i as real) * PI_2 / n == PI_2 / n;
    assert ((i + 1) as real) * 2.0 * maxAngle / n - (i as real) * 2.0 * maxAngle / n == 2.0 * maxAngle / n;
  }

  /** The elliptic point array: `count` focal positions shifted by the origin. */
  function EllipticPoints(m: Math, f: OrbitFields, count: int, origin: Vector3d): (s: seq<Vector3d>)
    requires count >= 2
    ensures |s| == count
    ensures forall i :: 0 <= i < count ==>
      s[i] == Add(GetFocalPositionAtEccentricAnomaly(m, f, EllipticSampleAnomaly(i, count)), origin)
  {
    seq(count, i requires 0 <= i < count =>
      Add(GetFocalPositionAtEccentricAnomaly(m, f, EllipticSampleAnomaly(i, count)), origin))
  }

  /** The largest true anomaly drawn on an open orbit: where it reaches `maxDistance`. */
  function MaxSampleAngle(m: Math, f: OrbitFields, maxDistance: real): real {
    CalcTrueAnomalyForDistance(m, maxDistance, f.Eccentricity, f.SemiMajorAxis, f.PeriapsisDistance)
  }

  /** The open-orbit point array: `count` focal positions at evenly spaced true
      anomalies, shifted by the origin. */
  function HyperbolicPoints(m: Math, f: OrbitFields, count: int, origin: Vector3d, maxDistance: real): (s: seq<Vector3d>)
    requires count >= 2
    ensures |s| == count
    ensures forall i :: 0 <= i < count ==>
      s[i] == Add(GetFocalPositionAtTrueAnomaly(m, f, HyperbolicSampleAnomaly(MaxSampleAngle(m, f, maxDistance), i, count)), origin)
  {
    var maxAngle := MaxSampleAngle(m, f, maxDistance);
    seq(count, i requires 0 <= i < count =>
      Add(GetFocalPositionAtTrueAnomaly(m, f, HyperbolicSampleAnomaly(maxAngle, i, count)), origin))
  }

  /** What `GetOrbitPoints` leaves in the array: nothing for fewer than two points or
      for an open orbit whose periapsis is beyond `maxDistance`, and otherwise the
      elliptic or open-orbit samples. */
  function OrbitPoints(m: Math, f: OrbitFields, count: int, origin: Vector3d, maxDistance: real): (s: seq<Vector3d>)
    ensures count < 2 ==> s == []
    ensures count >= 2 && f.Eccentricity >= 1.0 && maxDistance < f.PeriapsisDistance ==> s == []
    ensures count >= 2 && (f.Eccentricity < 1.0 || maxDistance >= f.PeriapsisDistance) ==> |s| == count
  {
    if count < 2 then []
    else if f.Eccentricity < 1.0 then EllipticPoints(m, f, count, origin)
    else if maxDistance < f.PeriapsisDistance then []
    else HyperbolicPoints(m, f, count, origin, maxDistance)
  }

  /** `GenerateEllipticOrbitPoints`: reuses the caller's array when its length
      already matches. */
  method GenerateEllipticOrbitPoints(m: Math, d: OrbitData, orbitPoints: array?<Vector3d>, count: int, origin: Vector3d)
    returns (points: array<Vector3d>)
    requires count >= 2
    modifies orbitPoints
    ensures orbitPoints != null && orbitPoints.Length == count ==> points == orbitPoints
    ensures !(orbitPoints != null && orbitPoints.Length == count) ==> fresh(points)
    ensures orbitPoints != null && points != orbitPoints ==> unchanged(orbitPoints)
    ensures points[..] == EllipticPoints(m, d.Fields(), count, origin)
  {
    if orbitPoints == null || orbitPoints.Length != count {
      points := new Vector3d[count];
    } else {
      points := orbitPoints;
    }
    var f := d.Fields();
    for i := 0 to count
      invariant points.Length == count
      invariant d.Fields() == f
      invariant orbitPoints != null && points != orbitPoints ==> unchanged(orbitPoints)
      invariant forall j :: 0 <= j < i ==>
        points[j] == Add(GetFocalPositionAtEccentricAnomaly(m, f, EllipticSampleAnomaly(j, count)), origin)
    {
      var eccentricAnomaly := EllipticSampleAnomaly(i, count);
      points[i] := Add(GetFocalPositionAtEccentricAnomaly(m, f, eccentricAnomaly), origin);
    }
  }

  /** `GenerateHyperbolicOrbitPoints`: always a new array. */
  method GenerateHyperbolicOrbitPoints(m: Math, d: OrbitData, count: int, origin: Vector3d, maxDistance: real)
    returns (points: array<Vector3d>)
    requires count >= 2
    ensures fresh(points)
    ensures maxDistance < d.PeriapsisDistance ==> points[..] == []
    ensures maxDistance >= d.PeriapsisDistance ==> points[..] == HyperbolicPoints(m, d.Fields(), count, origin, maxDistance)
  {
    if maxDistance < d.PeriapsisDistance {
      points := new Vector3d[0];
      return;
    }
    var f := d.Fields();
    var maxAngle := MaxSampleAngle(m, f, maxDistance);
    ghost var s := HyperbolicPoints(m, f, count, origin, maxDistance);
    points := new Vector3d[count];
    for i := 0 to count
      invariant points[..i] == s[..i]
    {
      var trueAnomaly := HyperbolicSampleAnomaly(maxAngle, i, count);
      points[i] := Add(GetFocalPositionAtTrueAnomaly(m, f, trueAnomaly), origin);
      assert points[..i + 1] == points[..i] + [s[i]];
    }
    assert points[..] == points[..count];
  }

  /** `GetOrbitPoints`: the array the caller's reference designates afterwards. The
      orbit itself is only read. */
  method GetOrbitPoints(m: Math, d: OrbitData, orbitPoints: array?<Vector3d>, count: int, origin: Vector3d, maxDistance: real)
    returns (points: array<Vector3d>)
    modifies orbitPoints
    ensures points[..] == OrbitPoints(m, d.Fields(), count, origin, maxDistance)
    ensures count >= 2 && d.Eccentricity < 1.0 && orbitPoints != null && orbitPoints.Length == count ==>
      points == orbitPoints
    ensures points != orbitPoints ==> fresh(points)
    ensures orbitPoints != null && points != orbitPoints ==> unchanged(orbitPoints)
    ensures d.Fields() == old(d.Fields())
  {
    if count < 2 {
      points := new Vector3d[0];
      return;
    }
    if d.Eccentricity < 1.0 {
      points := GenerateEllipticOrbitPoints(m, d, orbitPoints, count, origin);
    } else {
      points := GenerateHyperbolicOrbitPoints(m, d, count, origin, maxDistance);
    }
  }
}
