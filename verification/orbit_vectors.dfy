/** The orbit from the state vectors, Gravity/Kepler/Calculators/OrbitVectorsCalculator.cs:
    from the position and velocity relative to the attractor it derives the plane, the
    conic, its extremes and the three anomalies, writing the fields of the orbit object
    one after another. Each step of the source is a method here, and each method is
    specified by a function that performs the same sequence of field updates on a
    snapshot; the lemmas below state what the resulting state satisfies. */
module OrbitVectors {
  import opened Vectors
  import opened Numerics
  import opened KeplerUtils
  import opened OrbitState

  /** Specific angular momentum `h = r x v`. */
  function AngularMomentum(f: OrbitFields): Vector3d {
    Cross(f.positionRelativeToAttractor, f.velocityRelativeToAttractor)
  }

  /** The normalised angular momentum is not a unit vector (its square length is
      below 0.99): the motion is radial or zero, and there is no orbital plane. */
  predicate Degenerate(m: Math, f: OrbitFields) {
    SqrMagnitude(m.normalized(AngularMomentum(f))) < 0.99
  }

  /** The first lines of `CalculateOrbitStateFromOrbitalVectors`: MG, the distance to
      the attractor, and the orbit normal, which falls back to `r x EclipticUp` when
      the angular momentum gives no direction. */
  function Prepared(m: Math, f: OrbitFields): OrbitFields {
    var f1 := f.(MG := f.AttractorMass * f.GravConst,
                 AttractorDistance := m.magnitude(f.positionRelativeToAttractor),
                 OrbitNormal := m.normalized(AngularMomentum(f)));
    if SqrMagnitude(f1.OrbitNormal) < 0.99 then
      f1.(OrbitNormal := m.normalized(Cross(f1.positionRelativeToAttractor, EclipticUp)))
    else
      f1
  }

  /** The eccentricity vector `(v x h) / MG - r / |r|` of a prepared state, or the
      zero vector when the motion is degenerate. */
  function EccentricityVector(m: Math, g: OrbitFields): Vector3d {
    if Degenerate(m, g) then Zero
    else Sub(VDiv(Cross(g.velocityRelativeToAttractor, AngularMomentum(g)), g.MG),
             VDiv(g.positionRelativeToAttractor, g.AttractorDistance))
  }

  /** The first lines of `ComputeBasisVectorsAndFocalParameter`: the cached
      normal/ecliptic dot product, the focal parameter `p = |h|^2 / MG` and the
      eccentricity `e = |ecc|`. */
  function WithShape(m: Math, g: OrbitFields, h: Vector3d, ecc: Vector3d): OrbitFields {
    g.(OrbitNormalDotEclipticNormal := Dot(g.OrbitNormal, EclipticNormal),
       FocalParameter := Div(SqrMagnitude(h), g.MG),
       Eccentricity := m.magnitude(ecc))
  }

  /** The in-plane axes: the minor axis along `h x -ecc`, falling back to
      `normal x r` when that gives no direction, and the major axis `normal x minor`. */
  function WithAxes(m: Math, g: OrbitFields, h: Vector3d, ecc: Vector3d): OrbitFields {
    var minor := m.normalized(Cross(h, Neg(ecc)));
    var minor' := if SqrMagnitude(minor) < 0.99 then
        m.normalized(Cross(g.OrbitNormal, g.positionRelativeToAttractor))
      else minor;
    g.(SemiMinorAxisBasis := minor', SemiMajorAxisBasis := m.normalized(Cross(g.OrbitNormal, minor')))
  }

  /** `ComputeBasisVectorsAndFocalParameter` */
  function WithBasis(m: Math, g: OrbitFields, h: Vector3d, ecc: Vector3d): OrbitFields {
    WithAxes(m, WithShape(m, g, h, ecc), h, ecc)
  }

  /** The angle, in radians, between the position and `axis`. */
  function AngleTo(m: Math, g: OrbitFields, axis: Vector3d): real {
    m.angle(g.positionRelativeToAttractor, axis) * Deg2Rad
  }

  /** The position lies on the far side of the major axis (the test every branch
      uses to extend the unsigned angle). */
  predicate BeyondMajorAxis(g: OrbitFields) {
    Dot(Cross(g.positionRelativeToAttractor, Neg(g.SemiMajorAxisBasis)), g.OrbitNormal) < 0.0
  }

  /** The elliptic true anomaly: the angle from the periapsis direction, taken as the
      far half-turn `2 pi - angle` past the major axis. */
  function EllipticTrueAnomaly(m: Math, g: OrbitFields): real {
    var angle := AngleTo(m, g, g.SemiMajorAxisBasis);
    if BeyondMajorAxis(g) then PI_2 - angle else angle
  }

  /** The true anomaly of an open orbit: the angle from the eccentricity vector,
      negated past the major axis. */
  function OpenTrueAnomaly(m: Math, g: OrbitFields, ecc: Vector3d): real {
    var angle := AngleTo(m, g, ecc);
    if BeyondMajorAxis(g) then -angle else angle
  }

  /** The conic lines of `ComputeEllipticOrbit`: the compression ratio `1 - e^2`,
      `a = p / ratio`, `b = a sqrt(ratio)`, and the centre `-a ecc`. */
  function EllipticConic(m: Math, g: OrbitFields, ecc: Vector3d): OrbitFields {
    var ratio := 1.0 - Square(g.Eccentricity);
    var a := Div(g.FocalParameter, ratio);
    g.(OrbitCompressionRatio := ratio, SemiMajorAxis := a, SemiMinorAxis := SemiMinorOf(m, a, ratio),
       CenterPoint := Scale(-a, ecc))
  }

  /** The period lines of `ComputeEllipticOrbit`: `2 pi sqrt(a^3 / MG)` and the mean
      motion `1 / sqrt(a^3 / MG)`. */
  function EllipticPeriod(m: Math, g: OrbitFields): OrbitFields {
    var root := PeriodRoot(m, g.SemiMajorAxis, g.MG);
    g.(Period := Finite(PI_2 * root), MeanMotion := Div(1.0, root))
  }

  /** The apsis lines of `ComputeEllipticOrbit`: the apoapsis and the periapsis at
      `a` behind and ahead of the centre along the major axis, and their lengths. */
  function EllipticApsides(m: Math, g: OrbitFields): OrbitFields {
    var apoapsis := Sub(g.CenterPoint, Scale(g.SemiMajorAxis, g.SemiMajorAxisBasis));
    var periapsis := Add(g.CenterPoint, Scale(g.SemiMajorAxis, g.SemiMajorAxisBasis));
    g.(Apoapsis := At(apoapsis), Periapsis := periapsis,
       PeriapsisDistance := m.magnitude(periapsis), ApoapsisDistance := Finite(m.magnitude(apoapsis)))
  }

  /** The anomaly lines of `ComputeEllipticOrbit`: the three anomalies, the mean one
      by Kepler's equation `E - e sin E`. */
  function EllipticAnomalies(m: Math, g: OrbitFields): OrbitFields {
    var T := EllipticTrueAnomaly(m, g);
    var E := ConvertTrueToEccentricAnomaly(m, T, g.Eccentricity);
    g.(TrueAnomaly := T, EccentricAnomaly := E, MeanAnomaly := EllipticKepler(m, E, g.Eccentricity))
  }

  /** `ComputeEllipticOrbit`: each group of lines reads the fields the previous ones
      wrote. */
  function EllipticOrbit(m: Math, g: OrbitFields, ecc: Vector3d): OrbitFields {
    EllipticAnomalies(m, EllipticApsides(m, EllipticPeriod(m, EllipticConic(m, g, ecc))))
  }

  /** `sqrt(MG / a^3)`: the mean motion of an open orbit with scale `a`. */
  function OpenMeanMotion(m: Math, mg: real, a: real): real {
    m.sqrt(Div(mg, m.pow(a, 3.0)))
  }

  /** `a sqrt(ratio)`: the semi-minor axis from the semi-major axis and the
      compression ratio `|1 - e^2|`. */
  function SemiMinorOf(m: Math, a: real, ratio: real): real {
    a * m.sqrt(ratio)
  }

  /** `sqrt(a^3 / MG)`: the period divided by 2 pi. */
  function PeriodRoot(m: Math, a: real, mg: real): real {
    m.sqrt(Div(m.pow(a, 3.0), mg))
  }

  /** The conic lines of `ComputeHyperbolicOrbit`: the compression ratio `e^2 - 1`,
      `a = p / ratio`, `b = a sqrt(ratio)`, and the centre `a ecc`. */
  function HyperbolicConic(m: Math, g: OrbitFields, ecc: Vector3d): OrbitFields {
    var ratio := Square(g.Eccentricity) - 1.0;
    var a := Div(g.FocalParameter, ratio);
    g.(OrbitCompressionRatio := ratio, SemiMajorAxis := a, SemiMinorAxis := SemiMinorOf(m, a, ratio),
       CenterPoint := Scale(a, ecc))
  }

  /** The period lines of an open orbit: an infinite period and the mean motion
      `sqrt(MG / scale^3)`. */
  function OpenPeriod(m: Math, g: OrbitFields, scale: real): OrbitFields {
    g.(Period := Infinity, MeanMotion := OpenMeanMotion(m, g.MG, scale))
  }

  /** The periapsis lines of `ComputeHyperbolicOrbit`: `a` behind the centre along
      the major axis, and its length. */
  function HyperbolicPeriapsis(m: Math, g: OrbitFields): OrbitFields {
    var periapsis := Sub(g.CenterPoint, Scale(g.SemiMajorAxis, g.SemiMajorAxisBasis));
    g.(Periapsis := periapsis, PeriapsisDistance := m.magnitude(periapsis))
  }

  /** An open orbit has its apoapsis and the apoapsis distance at +infinity. */
  function NoApoapsis(g: OrbitFields): OrbitFields {
    g.(Apoapsis := AtInfinity, ApoapsisDistance := Infinity)
  }

  /** The anomaly lines shared by `ComputeHyperbolicOrbit` and
      `ComputeParabolicOrbit`: the mean anomaly by the hyperbolic form `sinh(E) e - E`. */
  function OpenAnomalies(m: Math, g: OrbitFields, ecc: Vector3d): OrbitFields {
    var T := OpenTrueAnomaly(m, g, ecc);
    var E := ConvertTrueToEccentricAnomaly(m, T, g.Eccentricity);
    g.(TrueAnomaly := T, EccentricAnomaly := E, MeanAnomaly := HyperbolicKepler(m, E, g.Eccentricity))
  }

  /** `ComputeHyperbolicOrbit` */
  function HyperbolicOrbit(m: Math, g: OrbitFields, ecc: Vector3d): OrbitFields {
    var g1 := HyperbolicConic(m, g, ecc);
    OpenAnomalies(m, NoApoapsis(HyperbolicPeriapsis(m, OpenPeriod(m, g1, g1.SemiMajorAxis))), ecc)
  }

  /** The first lines of `ComputeParabolicOrbit`: no axes, the periapsis distance
      `|h|^2 / MG`, the centre at the origin and the periapsis along the minus
      minor axis. */
  function ParabolicConic(g: OrbitFields, h: Vector3d): OrbitFields {
    var q := Div(SqrMagnitude(h), g.MG);
    g.(OrbitCompressionRatio := 0.0, SemiMajorAxis := 0.0, SemiMinorAxis := 0.0,
       PeriapsisDistance := q, CenterPoint := Zero, Periapsis := Scale(-q, g.SemiMinorAxisBasis))
  }

  /** `ComputeParabolicOrbit`: the mean motion takes the periapsis distance as its scale. */
  function ParabolicOrbit(m: Math, g: OrbitFields, ecc: Vector3d, h: Vector3d): OrbitFields {
    var g1 := ParabolicConic(g, h);
    OpenAnomalies(m, NoApoapsis(OpenPeriod(m, g1, g1.PeriapsisDistance)), ecc)
  }

  /** `ComputeAnomaliesAndExtremes`: exactly one branch, chosen by the eccentricity. */
  function AnomaliesAndExtremes(m: Math, g: OrbitFields, ecc: Vector3d, h: Vector3d): OrbitFields {
    if g.Eccentricity < 1.0 then EllipticOrbit(m, g, ecc)
    else if g.Eccentricity > 1.0 then HyperbolicOrbit(m, g, ecc)
    else ParabolicOrbit(m, g, ecc, h)
  }

  /** The state after `CalculateOrbitStateFromOrbitalVectors`. */
  function FromVectors(m: Math, f: OrbitFields): OrbitFields {
    var g := Prepared(m, f);
    var ecc := EccentricityVector(m, g);
    AnomaliesAndExtremes(m, WithBasis(m, g, AngularMomentum(f), ecc), ecc, AngularMomentum(f))
  }

  // ---------------------------------------------------------------------------
  // What each branch leaves behind.

  /** The angle to an axis, converted to radians, lies in [0, 180 degrees]. */
  lemma AngleToRange(m: Math, g: OrbitFields, axis: Vector3d)
    requires m.Ranges()
    ensures 0.0 <= AngleTo(m, g, axis) <= 180.0 * Deg2Rad
  {
    var angle := m.angle(g.positionRelativeToAttractor, axis);
    assert 0.0 <= angle <= 180.0;
    assert angle * Deg2Rad <= 180.0 * Deg2Rad;
  }

  /** `2 pi p` times `1 / p` is `2 pi`. */
  lemma PeriodTimesMotion(root: real)
    requires root != 0.0
    ensures (PI_2 * root) * Div(1.0, root) == PI_2
  {
    Rescale(PI_2, root, Div(1.0, root));
  }

  lemma Rescale(k: real, x: real, y: real)
    requires x * y == 1.0
    ensures (k * x) * y == k
  {
    assert (k * x) * y == k * (x * y);
  }

  /** `a ratio = p` and `b^2 = a p`: the semi-major axis `a`, the semi-minor axis `b`,
      the focal parameter `p` and the compression ratio of one conic. */
  ghost predicate AxesAgree(m: Math, p: real, ratio: real, a: real, b: real) {
    && a * ratio == p
    && (m.SqrtSquares() ==> Square(b) == a * p)
  }

  /** With `a = p / ratio` and `b = a sqrt(ratio)`, the axes agree. */
  lemma ConicAxes(m: Math, p: real, ratio: real, a: real, b: real)
    requires ratio > 0.0 && a == Div(p, ratio) && b == SemiMinorOf(m, a, ratio)
    ensures AxesAgree(m, p, ratio, a, b)
  {
    var s := m.sqrt(ratio);
    if m.SqrtSquares() {
      assert s * s == ratio;
      calc {
        Square(a * s);
        (a * a) * (s * s);
        a * (a * ratio);
      }
    }
  }

  /** A compression ratio `1 - e^2` with `0 <= e < 1` lies in (0, 1]. */
  lemma EllipticRatio(e: real)
    requires 0.0 <= e < 1.0
    ensures 0.0 < 1.0 - Square(e) <= 1.0
  {
    assert e * e <= e * 1.0;
  }

  /** A compression ratio `e^2 - 1` with `e > 1` is positive. */
  lemma HyperbolicRatio(e: real)
    requires e > 1.0
    ensures Square(e) - 1.0 > 0.0
  {
    assert e * e > e * 1.0;
  }

  /** The fields that none of the three branches writes: the plane, the shape
      computed before the branch, and the inputs. */
  predicate BranchKeeps(r: OrbitFields, g: OrbitFields) {
    && r.MG == g.MG && r.GravConst == g.GravConst && r.AttractorMass == g.AttractorMass
    && r.FocalParameter == g.FocalParameter && r.Eccentricity == g.Eccentricity
    && r.OrbitNormal == g.OrbitNormal && r.OrbitNormalDotEclipticNormal == g.OrbitNormalDotEclipticNormal
    && r.SemiMinorAxisBasis == g.SemiMinorAxisBasis && r.SemiMajorAxisBasis == g.SemiMajorAxisBasis
    && r.positionRelativeToAttractor == g.positionRelativeToAttractor
    && r.velocityRelativeToAttractor == g.velocityRelativeToAttractor
    && r.AttractorDistance == g.AttractorDistance && r.SphereOfInfluenceRadius == g.SphereOfInfluenceRadius
  }

  /** `ComputeEllipticOrbit` keeps the plane and the shape, and leaves a finite
      period and apoapsis. */
  lemma EllipticOrbitKeeps(m: Math, g: OrbitFields, ecc: Vector3d)
    ensures BranchKeeps(EllipticOrbit(m, g, ecc), g)
    ensures EllipticOrbit(m, g, ecc).Period.Finite? && EllipticOrbit(m, g, ecc).Apoapsis.At?
    ensures EllipticOrbit(m, g, ecc).ApoapsisDistance.Finite?
  {
  }

  /** On an ellipse `Period * MeanMotion == 2 pi` whenever the period is not 0. */
  lemma EllipticPeriodTimesMotion(m: Math, g: OrbitFields, ecc: Vector3d)
    ensures var r := EllipticOrbit(m, g, ecc);
      r.Period.Finite? && (r.Period.value != 0.0 ==> r.Period.value * r.MeanMotion == PI_2)
  {
    var g2 := EllipticPeriod(m, EllipticConic(m, g, ecc));
    var root := PeriodRoot(m, g2.SemiMajorAxis, g2.MG);
    assert EllipticOrbit(m, g, ecc).Period == g2.Period && EllipticOrbit(m, g, ecc).MeanMotion == g2.MeanMotion;
    if root != 0.0 {
      PeriodTimesMotion(root);
    }
  }

  /** On an ellipse the periapsis and the apoapsis lie `a` on either side of the
      centre `-a ecc`, along the major axis. */
  lemma EllipticApsidesAroundCentre(m: Math, g: OrbitFields, ecc: Vector3d)
    ensures var r := EllipticOrbit(m, g, ecc);
      && r.Apoapsis.At?
      && r.CenterPoint == Scale(-r.SemiMajorAxis, ecc)
      && Add(r.Periapsis, r.Apoapsis.v) == Scale(2.0, r.CenterPoint)
      && Sub(r.Periapsis, r.Apoapsis.v) == Scale(2.0 * r.SemiMajorAxis, r.SemiMajorAxisBasis)
  {
    var g2 := EllipticPeriod(m, EllipticConic(m, g, ecc));
    var g3 := EllipticApsides(m, g2);
    AroundCentre(g2.CenterPoint, g2.SemiMajorAxis, g2.SemiMajorAxisBasis);
    assert EllipticOrbit(m, g, ecc) == EllipticAnomalies(m, g3);
  }

  /** On an ellipse the true anomaly lies in [0, 2 pi], and the mean anomaly is the
      one Kepler's equation gives for the eccentric anomaly. */
  lemma EllipticAnomaliesAgree(m: Math, g: OrbitFields, ecc: Vector3d)
    requires g.Eccentricity < 1.0
    ensures m.Ranges() ==> 0.0 <= EllipticOrbit(m, g, ecc).TrueAnomaly <= PI_2
    ensures var r := EllipticOrbit(m, g, ecc);
      r.MeanAnomaly == ConvertEccentricToMeanAnomaly(m, r.EccentricAnomaly, r.Eccentricity)
  {
    var g3 := EllipticApsides(m, EllipticPeriod(m, EllipticConic(m, g, ecc)));
    assert EllipticOrbit(m, g, ecc) == EllipticAnomalies(m, g3);
    if m.Ranges() {
      AngleToRange(m, g3, g3.SemiMajorAxisBasis);
    }
  }

  /** On an ellipse with `0 <= e < 1`, `p = a (1 - e^2)` and `b^2 = a p`. */
  lemma EllipticAxes(m: Math, g: OrbitFields, ecc: Vector3d)
    requires 0.0 <= g.Eccentricity < 1.0
    ensures EllipticOrbit(m, g, ecc).OrbitCompressionRatio == 1.0 - Square(g.Eccentricity)
    ensures var r := EllipticOrbit(m, g, ecc);
      AxesAgree(m, g.FocalParameter, r.OrbitCompressionRatio, r.SemiMajorAxis, r.SemiMinorAxis)
  {
    var r := EllipticOrbit(m, g, ecc);
    var g1 := EllipticConic(m, g, ecc);
    assert r.SemiMajorAxis == g1.SemiMajorAxis && r.SemiMinorAxis == g1.SemiMinorAxis;
    assert r.OrbitCompressionRatio == g1.OrbitCompressionRatio;
    EllipticRatio(g.Eccentricity);
    ConicAxes(m, g.FocalParameter, r.OrbitCompressionRatio, r.SemiMajorAxis, r.SemiMinorAxis);
  }

  /** `ComputeHyperbolicOrbit` keeps the plane and the shape, puts the period and
      the apoapsis at +infinity, and places the periapsis `a` behind the centre
      `a ecc` along the major axis; the mean motion has `a` as its scale. */
  lemma HyperbolicOrbitKeeps(m: Math, g: OrbitFields, ecc: Vector3d)
    ensures BranchKeeps(HyperbolicOrbit(m, g, ecc), g)
    ensures var r := HyperbolicOrbit(m, g, ecc);
      r.Period == Infinity && r.Apoapsis == AtInfinity && r.ApoapsisDistance == Infinity
    ensures var r := HyperbolicOrbit(m, g, ecc);
      && r.CenterPoint == Scale(r.SemiMajorAxis, ecc)
      && r.Periapsis == Sub(r.CenterPoint, Scale(r.SemiMajorAxis, r.SemiMajorAxisBasis))
      && r.MeanMotion == OpenMeanMotion(m, r.MG, r.SemiMajorAxis)
  {
  }

  /** On a hyperbola the true anomaly lies in [-pi, pi], and the mean anomaly is the
      one the hyperbolic Kepler equation gives for the eccentric anomaly. */
  lemma HyperbolicAnomaliesAgree(m: Math, g: OrbitFields, ecc: Vector3d)
    requires g.Eccentricity > 1.0
    ensures m.Ranges() ==> -(180.0 * Deg2Rad) <= HyperbolicOrbit(m, g, ecc).TrueAnomaly <= 180.0 * Deg2Rad
    ensures var r := HyperbolicOrbit(m, g, ecc);
      r.MeanAnomaly == ConvertEccentricToMeanAnomaly(m, r.EccentricAnomaly, r.Eccentricity)
  {
    var g1 := HyperbolicConic(m, g, ecc);
    var g4 := NoApoapsis(HyperbolicPeriapsis(m, OpenPeriod(m, g1, g1.SemiMajorAxis)));
    assert HyperbolicOrbit(m, g, ecc) == OpenAnomalies(m, g4, ecc);
    if m.Ranges() {
      AngleToRange(m, g4, ecc);
    }
  }

  /** On a hyperbola `p = a (e^2 - 1)` and `b^2 = a p`. */
  lemma HyperbolicAxes(m: Math, g: OrbitFields, ecc: Vector3d)
    requires g.Eccentricity > 1.0
    ensures HyperbolicOrbit(m, g, ecc).OrbitCompressionRatio == Square(g.Eccentricity) - 1.0
    ensures var r := HyperbolicOrbit(m, g, ecc);
      AxesAgree(m, g.FocalParameter, r.OrbitCompressionRatio, r.SemiMajorAxis, r.SemiMinorAxis)
  {
    var r := HyperbolicOrbit(m, g, ecc);
    var g1 := HyperbolicConic(m, g, ecc);
    assert r.SemiMajorAxis == g1.SemiMajorAxis && r.SemiMinorAxis == g1.SemiMinorAxis;
    assert r.OrbitCompressionRatio == g1.OrbitCompressionRatio;
    HyperbolicRatio(g.Eccentricity);
    ConicAxes(m, g.FocalParameter, r.OrbitCompressionRatio, r.SemiMajorAxis, r.SemiMinorAxis);
  }

  /** `ComputeParabolicOrbit` keeps the plane and the shape, sets both axes to 0 and
      the centre at the origin, the periapsis distance `|h|^2 / MG`, which also sets
      the scale of the mean motion, and puts the period and the apoapsis at
      +infinity. */
  lemma ParabolicOrbitKeeps(m: Math, g: OrbitFields, ecc: Vector3d, h: Vector3d)
    ensures BranchKeeps(ParabolicOrbit(m, g, ecc, h), g)
    ensures var r := ParabolicOrbit(m, g, ecc, h);
      r.Period == Infinity && r.Apoapsis == AtInfinity && r.ApoapsisDistance == Infinity
    ensures var r := ParabolicOrbit(m, g, ecc, h);
      && r.SemiMajorAxis == 0.0 && r.SemiMinorAxis == 0.0 && r.OrbitCompressionRatio == 0.0
      && r.CenterPoint == Zero
      && r.PeriapsisDistance == Div(SqrMagnitude(h), r.MG)
      && r.Periapsis == Scale(-r.PeriapsisDistance, r.SemiMinorAxisBasis)
      && r.MeanMotion == OpenMeanMotion(m, r.MG, r.PeriapsisDistance)
  {
  }

  /** On a parabola the true anomaly lies in [-pi, pi], and the mean anomaly takes
      the hyperbolic form `sinh(E) - E`, not the parabolic one of
      `ConvertEccentricToMeanAnomaly`. */
  lemma ParabolicAnomalies(m: Math, g: OrbitFields, ecc: Vector3d, h: Vector3d)
    requires g.Eccentricity == 1.0
    ensures m.Ranges() ==> -(180.0 * Deg2Rad) <= ParabolicOrbit(m, g, ecc, h).TrueAnomaly <= 180.0 * Deg2Rad
    ensures var r := ParabolicOrbit(m, g, ecc, h);
      r.MeanAnomaly == HyperbolicKepler(m, r.EccentricAnomaly, 1.0)
  {
    var g1 := ParabolicConic(g, h);
    var g3 := NoApoapsis(OpenPeriod(m, g1, g1.PeriapsisDistance));
    assert ParabolicOrbit(m, g, ecc, h) == OpenAnomalies(m, g3, ecc);
    if m.Ranges() {
      AngleToRange(m, g3, ecc);
    }
  }

  /** The state `ComputeBasisVectorsAndFocalParameter` leaves, from the state vectors. */
  function Based(m: Math, f: OrbitFields): OrbitFields {
    var g := Prepared(m, f);
    WithBasis(m, g, AngularMomentum(f), EccentricityVector(m, g))
  }

  /** What `CalculateOrbitStateFromOrbitalVectors` sets first: `MG = M G` and the
      distance `|r|`; the position, the velocity and the masses are kept. */
  lemma BasisInputs(m: Math, f: OrbitFields)
    ensures var g := Based(m, f);
      && g.MG == f.AttractorMass * f.GravConst
      && g.AttractorDistance == m.magnitude(f.positionRelativeToAttractor)
      && g.positionRelativeToAttractor == f.positionRelativeToAttractor
      && g.velocityRelativeToAttractor == f.velocityRelativeToAttractor
      && g.AttractorMass == f.AttractorMass && g.GravConst == f.GravConst
      && g.SphereOfInfluenceRadius == f.SphereOfInfluenceRadius
  {
    var g0 := Prepared(m, f);
    var g1 := WithShape(m, g0, AngularMomentum(f), EccentricityVector(m, g0));
    assert Based(m, f) == WithAxes(m, g1, AngularMomentum(f), EccentricityVector(m, g0));
  }

  /** `ComputeBasisVectorsAndFocalParameter` sets the focal parameter `|h|^2 / MG`,
      a non-negative eccentricity `|ecc|`, and the normal's dot product with the
      ecliptic normal. */
  lemma BasisShape(m: Math, f: OrbitFields)
    ensures var g := Based(m, f);
      && g.FocalParameter == Div(SqrMagnitude(AngularMomentum(f)), g.MG)
      && g.OrbitNormalDotEclipticNormal == Dot(g.OrbitNormal, EclipticNormal)
      && g.Eccentricity == m.magnitude(EccentricityVector(m, Prepared(m, f)))
      && (m.Ranges() ==> g.Eccentricity >= 0.0)
  {
    var g0 := Prepared(m, f);
    var g1 := WithShape(m, g0, AngularMomentum(f), EccentricityVector(m, g0));
    assert Based(m, f) == WithAxes(m, g1, AngularMomentum(f), EccentricityVector(m, g0));
  }

  /** The orbit normal is `h` normalised, or, when that is not a unit vector,
      `r x EclipticUp` normalised; in that case the eccentricity vector is zero and
      so is the eccentricity. */
  lemma BasisNormal(m: Math, f: OrbitFields)
    ensures !Degenerate(m, f) ==> Based(m, f).OrbitNormal == m.normalized(AngularMomentum(f))
    ensures Degenerate(m, f) ==>
      Based(m, f).OrbitNormal == m.normalized(Cross(f.positionRelativeToAttractor, EclipticUp))
    ensures Degenerate(m, f) && m.AtZero() ==> Based(m, f).Eccentricity == 0.0
  {
    var g0 := Prepared(m, f);
    assert AngularMomentum(g0) == AngularMomentum(f);
    var g1 := WithShape(m, g0, AngularMomentum(f), EccentricityVector(m, g0));
    assert Based(m, f) == WithAxes(m, g1, AngularMomentum(f), EccentricityVector(m, g0));
  }

  /** `ComputeAnomaliesAndExtremes` runs exactly one branch, chosen by the
      eccentricity: the period and the apoapsis are finite for e < 1 and at
      +infinity for e >= 1, and a parabola's periapsis distance is its focal
      parameter. */
  lemma BranchRegimes(m: Math, b: OrbitFields, ecc: Vector3d, h: Vector3d)
    requires b.FocalParameter == Div(SqrMagnitude(h), b.MG)
    ensures var g := AnomaliesAndExtremes(m, b, ecc, h);
      && g.Eccentricity == b.Eccentricity
      && (g.Eccentricity < 1.0 <==> g.Period.Finite?)
      && (g.Eccentricity < 1.0 <==> g.Apoapsis.At?)
      && (g.Eccentricity == 1.0 ==> g.PeriapsisDistance == g.FocalParameter)
  {
    if b.Eccentricity < 1.0 {
      EllipticOrbitKeeps(m, b, ecc);
    } else if b.Eccentricity > 1.0 {
      HyperbolicOrbitKeeps(m, b, ecc);
    } else {
      ParabolicOrbitKeeps(m, b, ecc, h);
    }
  }

  /** `CalculateOrbitStateFromOrbitalVectors` as a whole: the branch follows the
      eccentricity it computed, and when the angular momentum gives no direction
      the eccentricity is 0, so the elliptic branch runs and the period is finite. */
  lemma FromVectorsRegimes(m: Math, f: OrbitFields)
    ensures var g := FromVectors(m, f);
      && (g.Eccentricity < 1.0 <==> g.Period.Finite?)
      && (g.Eccentricity < 1.0 <==> g.Apoapsis.At?)
      && (g.Eccentricity == 1.0 ==> g.PeriapsisDistance == g.FocalParameter)
    ensures Degenerate(m, f) && m.AtZero() ==>
      FromVectors(m, f).Eccentricity == 0.0 && FromVectors(m, f).Period.Finite?
  {
    var g0 := Prepared(m, f);
    var h := AngularMomentum(f);
    var ecc := EccentricityVector(m, g0);
    BasisShape(m, f);
    BasisNormal(m, f);
    assert FromVectors(m, f) == AnomaliesAndExtremes(m, Based(m, f), ecc, h);
    BranchRegimes(m, Based(m, f), ecc, h);
  }

  // ---------------------------------------------------------------------------
  // The calculator's methods.

  /** `CalculateOrbitStateFromOrbitalVectors` */
  method CalculateOrbitStateFromOrbitalVectors(m: Math, d: OrbitData)
    modifies d
    ensures d.Fields() == FromVectors(m, old(d.Fields()))
  {
    var h, ecc := PrepareVectors(m, d);
    ComputeBasisVectorsAndFocalParameter(m, d, h, ecc);
    ComputeAnomaliesAndExtremes(m, d, ecc, h);
  }

  /** The first lines of `CalculateOrbitStateFromOrbitalVectors`, up to the
      eccentricity vector. The three fields are computed into locals and stored
      together; the eccentricity vector reads MG and the distance as just computed. */
  method PrepareVectors(m: Math, d: OrbitData) returns (h: Vector3d, ecc: Vector3d)
    modifies d
    ensures d.Fields() == Prepared(m, old(d.Fields()))
    ensures h == AngularMomentum(old(d.Fields()))
    ensures ecc == EccentricityVector(m, d.Fields())
  {
    ghost var g := Prepared(m, d.Fields());
    var mg := d.AttractorMass * d.GravConst;
    var distance := m.magnitude(d.positionRelativeToAttractor);
    h := Cross(d.positionRelativeToAttractor, d.velocityRelativeToAttractor);
    var normal := m.normalized(h);
    if SqrMagnitude(normal) < 0.99 {
      normal := m.normalized(Cross(d.positionRelativeToAttractor, EclipticUp));
      ecc := Zero;
    } else {
      ecc := Sub(VDiv(Cross(d.velocityRelativeToAttractor, h), mg),
                 VDiv(d.positionRelativeToAttractor, distance));
    }
    assert g == d.Fields().(MG := mg, AttractorDistance := distance, OrbitNormal := normal);
    d.MG, d.AttractorDistance, d.OrbitNormal := mg, distance, normal;
    assert d.Fields() == g;
  }

  /** `ComputeBasisVectorsAndFocalParameter` */
  method ComputeBasisVectorsAndFocalParameter(m: Math, d: OrbitData, h: Vector3d, ecc: Vector3d)
    modifies d
    ensures d.Fields() == WithBasis(m, old(d.Fields()), h, ecc)
  {
    d.OrbitNormalDotEclipticNormal := Dot(d.OrbitNormal, EclipticNormal);
    d.FocalParameter := Div(SqrMagnitude(h), d.MG);
    d.Eccentricity := m.magnitude(ecc);
    StoreAxes(m, d, h, ecc);
  }

  method StoreAxes(m: Math, d: OrbitData, h: Vector3d, ecc: Vector3d)
    modifies d
    ensures d.Fields() == WithAxes(m, old(d.Fields()), h, ecc)
  {
    var minor := m.normalized(Cross(h, Neg(ecc)));
    if SqrMagnitude(minor) < 0.99 {
      minor := m.normalized(Cross(d.OrbitNormal, d.positionRelativeToAttractor));
    }
    d.SemiMinorAxisBasis, d.SemiMajorAxisBasis := minor, m.normalized(Cross(d.OrbitNormal, minor));
  }

  /** `ComputeAnomaliesAndExtremes` */
  method ComputeAnomaliesAndExtremes(m: Math, d: OrbitData, ecc: Vector3d, h: Vector3d)
    modifies d
    ensures d.Fields() == AnomaliesAndExtremes(m, old(d.Fields()), ecc, h)
  {
    if d.Eccentricity < 1.0 {
      ComputeEllipticOrbit(m, d, ecc);
    } else if d.Eccentricity > 1.0 {
      ComputeHyperbolicOrbit(m, d, ecc);
    } else {
      ComputeParabolicOrbit(m, d, ecc, h);
    }
  }

  /** `ComputeEllipticOrbit` */
  method ComputeEllipticOrbit(m: Math, d: OrbitData, ecc: Vector3d)
    modifies d
    ensures d.Fields() == EllipticOrbit(m, old(d.Fields()), ecc)
  {
    StoreEllipticConic(m, d, ecc);
    StoreEllipticPeriod(m, d);
    StoreEllipticApsides(m, d);
    StoreEllipticAnomalies(m, d);
  }

  method StoreEllipticConic(m: Math, d: OrbitData, ecc: Vector3d)
    modifies d
    ensures d.Fields() == EllipticConic(m, old(d.Fields()), ecc)
  {
    var ratio := 1.0 - Square(d.Eccentricity);
    var a := Div(d.FocalParameter, ratio);
    d.OrbitCompressionRatio, d.SemiMajorAxis := ratio, a;
    d.SemiMinorAxis, d.CenterPoint := SemiMinorOf(m, a, ratio), Scale(-a, ecc);
  }

  method StoreEllipticPeriod(m: Math, d: OrbitData)
    modifies d
    ensures d.Fields() == EllipticPeriod(m, old(d.Fields()))
  {
    var root := PeriodRoot(m, d.SemiMajorAxis, d.MG);
    d.Period, d.MeanMotion := Finite(PI_2 * root), Div(1.0, root);
  }

  method StoreEllipticApsides(m: Math, d: OrbitData)
    modifies d
    ensures d.Fields() == EllipticApsides(m, old(d.Fields()))
  {
    var apoapsis := Sub(d.CenterPoint, Scale(d.SemiMajorAxis, d.SemiMajorAxisBasis));
    var periapsis := Add(d.CenterPoint, Scale(d.SemiMajorAxis, d.SemiMajorAxisBasis));
    d.Apoapsis, d.Periapsis := At(apoapsis), periapsis;
    d.PeriapsisDistance, d.ApoapsisDistance := m.magnitude(periapsis), Finite(m.magnitude(apoapsis));
  }

  method StoreEllipticAnomalies(m: Math, d: OrbitData)
    modifies d
    ensures d.Fields() == EllipticAnomalies(m, old(d.Fields()))
  {
    var trueAnomaly := EllipticTrueAnomaly(m, d.Fields());
    var eccentricAnomaly := ConvertTrueToEccentricAnomaly(m, trueAnomaly, d.Eccentricity);
    d.TrueAnomaly, d.EccentricAnomaly := trueAnomaly, eccentricAnomaly;
    d.MeanAnomaly := EllipticKepler(m, eccentricAnomaly, d.Eccentricity);
  }

  /** `ComputeHyperbolicOrbit` */
  method ComputeHyperbolicOrbit(m: Math, d: OrbitData, ecc: Vector3d)
    modifies d
    ensures d.Fields() == HyperbolicOrbit(m, old(d.Fields()), ecc)
  {
    StoreHyperbolicConic(m, d, ecc);
    StoreOpenPeriod(m, d, d.SemiMajorAxis);
    StoreHyperbolicPeriapsis(m, d);
    StoreNoApoapsis(d);
    StoreOpenAnomalies(m, d, ecc);
  }

  method StoreHyperbolicConic(m: Math, d: OrbitData, ecc: Vector3d)
    modifies d
    ensures d.Fields() == HyperbolicConic(m, old(d.Fields()), ecc)
  {
    var ratio := Square(d.Eccentricity) - 1.0;
    var a := Div(d.FocalParameter, ratio);
    d.OrbitCompressionRatio, d.SemiMajorAxis := ratio, a;
    d.SemiMinorAxis, d.CenterPoint := SemiMinorOf(m, a, ratio), Scale(a, ecc);
  }

  method StoreOpenPeriod(m: Math, d: OrbitData, scale: real)
    modifies d
    ensures d.Fields() == OpenPeriod(m, old(d.Fields()), scale)
  {
    d.Period, d.MeanMotion := Infinity, OpenMeanMotion(m, d.MG, scale);
  }

  method StoreHyperbolicPeriapsis(m: Math, d: OrbitData)
    modifies d
    ensures d.Fields() == HyperbolicPeriapsis(m, old(d.Fields()))
  {
    var periapsis := Sub(d.CenterPoint, Scale(d.SemiMajorAxis, d.SemiMajorAxisBasis));
    d.Periapsis, d.PeriapsisDistance := periapsis, m.magnitude(periapsis);
  }

  method StoreNoApoapsis(d: OrbitData)
    modifies d
    ensures d.Fields() == NoApoapsis(old(d.Fields()))
  {
    d.Apoapsis, d.ApoapsisDistance := AtInfinity, Infinity;
  }

  /** `ComputeParabolicOrbit` */
  method ComputeParabolicOrbit(m: Math, d: OrbitData, ecc: Vector3d, h: Vector3d)
    modifies d
    ensures d.Fields() == ParabolicOrbit(m, old(d.Fields()), ecc, h)
  {
    StoreParabolicConic(d, h);
    StoreOpenPeriod(m, d, d.PeriapsisDistance);
    StoreNoApoapsis(d);
    StoreOpenAnomalies(m, d, ecc);
  }

  method StoreParabolicConic(d: OrbitData, h: Vector3d)
    modifies d
    ensures d.Fields() == ParabolicConic(old(d.Fields()), h)
  {
    var q := Div(SqrMagnitude(h), d.MG);
    d.OrbitCompressionRatio, d.SemiMajorAxis, d.SemiMinorAxis := 0.0, 0.0, 0.0;
    d.PeriapsisDistance, d.CenterPoint, d.Periapsis := q, Zero, Scale(-q, d.SemiMinorAxisBasis);
  }

  method StoreOpenAnomalies(m: Math, d: OrbitData, ecc: Vector3d)
    modifies d
    ensures d.Fields() == OpenAnomalies(m, old(d.Fields()), ecc)
  {
    var trueAnomaly := OpenTrueAnomaly(m, d.Fields(), ecc);
    var eccentricAnomaly := ConvertTrueToEccentricAnomaly(m, trueAnomaly, d.Eccentricity);
    d.TrueAnomaly, d.EccentricAnomaly := trueAnomaly, eccentricAnomaly;
    d.MeanAnomaly := HyperbolicKepler(m, eccentricAnomaly, d.Eccentricity);
  }
}
