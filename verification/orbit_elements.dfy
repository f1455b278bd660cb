/** The orbit from its classical elements, Gravity/Kepler/Calculators/OrbitElementsCalculator.cs:
    from the eccentricity, the semi-major axis and the two in-plane axes already in
    the state it derives the normal, the centre, the period, the extremes, and then
    the position and velocity at the stored anomalies. As for the state vectors,
    each step is a method specified by a function on the snapshot. */
module OrbitElements {
  import opened Vectors
  import opened Numerics
  import opened OrbitState
  import opened OrbitPosition
  import opened OrbitAnomaly
  import opened OrbitVectors

  /** The first lines of `CalculateOrbitStateFromOrbitalElements`: `MG`, the normal
      `-(major x minor)` normalised, and its dot product with the ecliptic normal. */
  function ElementsPlane(m: Math, f: OrbitFields): OrbitFields {
    var normal := Neg(m.normalized(Cross(f.SemiMajorAxisBasis, f.SemiMinorAxisBasis)));
    f.(MG := f.AttractorMass * f.GravConst, OrbitNormal := normal,
       OrbitNormalDotEclipticNormal := Dot(normal, EclipticNormal))
  }

  /** The centre `-major * a * e`, evaluated left to right as the source writes it. */
  function ElementsCentre(g: OrbitFields): Vector3d {
    Scale(g.Eccentricity, Scale(g.SemiMajorAxis, Neg(g.SemiMajorAxisBasis)))
  }

  /** The first lines of `CalculateEllipticElements`: the compression ratio
      `1 - e^2`, the centre, the period `2 pi sqrt(a^3 / MG)` and the mean motion
      `2 pi / Period`. */
  function EllipticElementsShape(m: Math, g: OrbitFields): OrbitFields {
    var period := PI_2 * PeriodRoot(m, g.SemiMajorAxis, g.MG);
    g.(OrbitCompressionRatio := 1.0 - Square(g.Eccentricity), CenterPoint := ElementsCentre(g),
       Period := Finite(period), MeanMotion := Div(PI_2, period))
  }

  /** `CalculateEllipticElements`: the apsides are placed as by the state-vector
      calculator, `a` on either side of the centre along the major axis. */
  function EllipticElements(m: Math, g: OrbitFields): OrbitFields {
    EllipticApsides(m, EllipticElementsShape(m, g))
  }

  /** The first lines of `CalculateHyperbolicElements`: the centre `major * a * e`,
      an infinite period and the mean motion `sqrt(MG / a^3)`. */
  function HyperbolicElementsShape(m: Math, g: OrbitFields): OrbitFields {
    g.(CenterPoint := Scale(g.Eccentricity, Scale(g.SemiMajorAxis, g.SemiMajorAxisBasis)),
       Period := Infinity, MeanMotion := OpenMeanMotion(m, g.MG, g.SemiMajorAxis))
  }

  /** `CalculateHyperbolicElements` */
  function HyperbolicElements(m: Math, g: OrbitFields): OrbitFields {
    NoApoapsis(HyperbolicPeriapsis(m, HyperbolicElementsShape(m, g)))
  }

  /** The first lines of `CalculateParabolicElements`: the centre at the origin, an
      infinite period and apoapsis, and the mean motion `sqrt(MG / 2 / q^3)` from the
      periapsis distance the state has so far. */
  function ParabolicElementsShape(m: Math, g: OrbitFields): OrbitFields {
    g.(CenterPoint := Zero, Period := Infinity,
       MeanMotion := ParabolicMeanMotion(m, g.MG, g.PeriapsisDistance), Apoapsis := AtInfinity)
  }

  /** `sqrt(MG * 0.5 / q^3)`: the mean motion of a parabola with periapsis distance `q`. */
  function ParabolicMeanMotion(m: Math, mg: real, q: real): real {
    OpenMeanMotion(m, mg * 0.5, q)
  }

  /** The last lines of `CalculateParabolicElements`: the periapsis distance takes the
      incoming semi-major axis, which is then set to 0, and the periapsis lies that
      far along the minus major axis. */
  function ParabolicElementsPeriapsis(g: OrbitFields): OrbitFields {
    var q := g.SemiMajorAxis;
    g.(PeriapsisDistance := q, SemiMajorAxis := 0.0,
       Periapsis := Scale(-q, g.SemiMajorAxisBasis), ApoapsisDistance := Infinity)
  }

  /** `CalculateParabolicElements` */
  function ParabolicElements(m: Math, g: OrbitFields): OrbitFields {
    ParabolicElementsPeriapsis(ParabolicElementsShape(m, g))
  }

  /** The branch of `CalculateOrbitStateFromOrbitalElements`, chosen by the
      eccentricity. */
  function ElementsBranch(m: Math, g: OrbitFields): OrbitFields {
    if g.Eccentricity < 1.0 then EllipticElements(m, g)
    else if g.Eccentricity > 1.0 then HyperbolicElements(m, g)
    else ParabolicElements(m, g)
  }

  /** `|1 - e^2|` as the source computes it: `1 - e^2` below 1, `e^2 - 1` otherwise. */
  function CompressionOf(e: real): real {
    if e < 1.0 then 1.0 - Square(e) else Square(e) - 1.0
  }

  /** The focal parameter `a |1 - e^2|` of `FinalizeOrbitalElementCalculation`. */
  function FocalOf(a: real, e: real): real {
    a * CompressionOf(e)
  }

  /** The focal parameter and the velocity lines of `FinalizeOrbitalElementCalculation`.
      The velocity is computed by `GetVelocityAtTrueAnomaly` from the stored true
      anomaly, which that function takes as an eccentric anomaly. */
  function WithElementsVelocity(m: Math, g: OrbitFields): OrbitFields {
    var g1 := g.(FocalParameter := FocalOf(g.SemiMajorAxis, g.Eccentricity));
    g1.(velocityRelativeToAttractor := GetVelocityAtTrueAnomaly(m, g1, g1.TrueAnomaly))
  }

  /** `FinalizeOrbitalElementCalculation`: the position at the stored eccentric
      anomaly, the focal parameter, the velocity, and last the distance. */
  function Finalized(m: Math, g: OrbitFields): OrbitFields {
    var g2 := WithElementsVelocity(m, WithPosition(m, g));
    g2.(AttractorDistance := m.magnitude(g2.positionRelativeToAttractor))
  }

  /** The state after `CalculateOrbitStateFromOrbitalElements`. */
  function FromElements(m: Math, f: OrbitFields): OrbitFields {
    Finalized(m, ElementsBranch(m, ElementsPlane(m, f)))
  }

  // ---------------------------------------------------------------------------
  // What the calculator leaves behind.

  /** The fields the calculator reads and never writes: the eccentricity, the two
      in-plane axes, the semi-minor axis, the three anomalies and the masses. */
  predicate ElementsKept(r: OrbitFields, f: OrbitFields) {
    && r.Eccentricity == f.Eccentricity && r.SemiMinorAxis == f.SemiMinorAxis
    && r.SemiMinorAxisBasis == f.SemiMinorAxisBasis && r.SemiMajorAxisBasis == f.SemiMajorAxisBasis
    && r.TrueAnomaly == f.TrueAnomaly && r.EccentricAnomaly == f.EccentricAnomaly
    && r.MeanAnomaly == f.MeanAnomaly
    && r.AttractorMass == f.AttractorMass && r.GravConst == f.GravConst
    && r.SphereOfInfluenceRadius == f.SphereOfInfluenceRadius
  }

  /** Each branch keeps the plane and the kept fields, and leaves the semi-major
      axis alone except on a parabola. */
  lemma BranchKeepsElements(m: Math, g: OrbitFields)
    ensures ElementsKept(ElementsBranch(m, g), g)
    ensures ElementsBranch(m, g).MG == g.MG && ElementsBranch(m, g).OrbitNormal == g.OrbitNormal
    ensures ElementsBranch(m, g).OrbitNormalDotEclipticNormal == g.OrbitNormalDotEclipticNormal
    ensures g.Eccentricity != 1.0 ==> ElementsBranch(m, g).SemiMajorAxis == g.SemiMajorAxis
  {
  }

  /** The final lines keep the conic, so the position is that of the final state. */
  lemma FinalizedKeeps(m: Math, g: OrbitFields)
    ensures ElementsKept(Finalized(m, g), g)
    ensures var r := Finalized(m, g);
      && r.(positionRelativeToAttractor := g.positionRelativeToAttractor,
            FocalParameter := g.FocalParameter,
            velocityRelativeToAttractor := g.velocityRelativeToAttractor,
            AttractorDistance := g.AttractorDistance) == g
  {
  }

  /** `CalculateOrbitStateFromOrbitalElements` never writes the eccentricity, the
      in-plane axes, the semi-minor axis or any anomaly. It sets `MG = M G`, the
      normal `-(major x minor)` normalised and its dot product with the ecliptic
      normal. */
  lemma ElementsKeepInputs(m: Math, f: OrbitFields)
    ensures ElementsKept(FromElements(m, f), f)
    ensures var r := FromElements(m, f);
      && r.MG == f.AttractorMass * f.GravConst
      && r.OrbitNormal == Neg(m.normalized(Cross(f.SemiMajorAxisBasis, f.SemiMinorAxisBasis)))
      && r.OrbitNormalDotEclipticNormal == Dot(r.OrbitNormal, EclipticNormal)
  {
    var g := ElementsBranch(m, ElementsPlane(m, f));
    BranchKeepsElements(m, ElementsPlane(m, f));
    FinalizedKeeps(m, g);
  }

  /** The position is the focal position at the stored eccentric anomaly on the
      final conic, the distance is its length, and the focal parameter is
      `a (1 - e^2)` below e = 1 and `a (e^2 - 1)` otherwise, with the final `a`. */
  lemma ElementsPosition(m: Math, f: OrbitFields)
    ensures var r := FromElements(m, f);
      && r.positionRelativeToAttractor == GetFocalPositionAtEccentricAnomaly(m, r, r.EccentricAnomaly)
      && r.AttractorDistance == m.magnitude(r.positionRelativeToAttractor)
      && r.FocalParameter == FocalOf(r.SemiMajorAxis, r.Eccentricity)
  {
    var g := ElementsBranch(m, ElementsPlane(m, f));
    var r := FromElements(m, f);
    FinalizedKeeps(m, g);
    assert SameConic(g, r);
    PositionsDependOnConic(m, g, r, g.EccentricAnomaly);
  }

  /** The velocity is `GetVelocityAtTrueAnomaly` of the final state at its stored
      true anomaly. */
  lemma ElementsVelocity(m: Math, f: OrbitFields)
    ensures var r := FromElements(m, f);
      r.velocityRelativeToAttractor == GetVelocityAtTrueAnomaly(m, r, r.TrueAnomaly)
  {
    var g := ElementsBranch(m, ElementsPlane(m, f));
    var r := FromElements(m, f);
    var g1 := WithPosition(m, g).(FocalParameter := FocalOf(g.SemiMajorAxis, g.Eccentricity));
    assert r.velocityRelativeToAttractor == GetVelocityAtTrueAnomaly(m, g1, g1.TrueAnomaly);
    VelocityDependsOnConic(m, g1, r, g.TrueAnomaly);
  }

  /** On an ellipse the period is finite and `Period * MeanMotion == 2 pi` whenever
      it is not 0; the centre is `-(a e)` along the major axis, and the apsides lie
      `a` on either side of it. */
  lemma EllipticElementsProperties(m: Math, g: OrbitFields)
    ensures var r := EllipticElements(m, g);
      && r.Period.Finite? && r.Apoapsis.At? && r.ApoapsisDistance.Finite?
      && (r.Period.value != 0.0 ==> r.Period.value * r.MeanMotion == PI_2)
    ensures var r := EllipticElements(m, g);
      && r.Apoapsis.At?
      && r.CenterPoint == Scale(-(g.SemiMajorAxis * g.Eccentricity), g.SemiMajorAxisBasis)
      && Add(r.Periapsis, r.Apoapsis.v) == Scale(2.0, r.CenterPoint)
      && Sub(r.Periapsis, r.Apoapsis.v) == Scale(2.0 * g.SemiMajorAxis, g.SemiMajorAxisBasis)
  {
    var g1 := EllipticElementsShape(m, g);
    var period := PI_2 * PeriodRoot(m, g.SemiMajorAxis, g.MG);
    if period != 0.0 {
      QuotientTimesDivisor(PI_2, period);
    }
    CentreAlongAxis(g.SemiMajorAxis, g.Eccentricity, g.SemiMajorAxisBasis);
    AroundCentre(g1.CenterPoint, g.SemiMajorAxis, g.SemiMajorAxisBasis);
  }

  /** `e (a (-u)) == -(a e) u` */
  lemma CentreAlongAxis(a: real, e: real, u: Vector3d)
    ensures Scale(e, Scale(a, Neg(u))) == Scale(-(a * e), u)
  {
    assert e * (a * -u.x) == -(a * e) * u.x;
    assert e * (a * -u.y) == -(a * e) * u.y;
    assert e * (a * -u.z) == -(a * e) * u.z;
  }

  /** On a hyperbola the period, the apoapsis and its distance are at +infinity; the
      centre is `a e` along the major axis and the periapsis `a` behind it. */
  lemma HyperbolicElementsProperties(m: Math, g: OrbitFields)
    ensures var r := HyperbolicElements(m, g);
      r.Period == Infinity && r.Apoapsis == AtInfinity && r.ApoapsisDistance == Infinity
    ensures var r := HyperbolicElements(m, g);
      && r.CenterPoint == Scale(g.SemiMajorAxis * g.Eccentricity, g.SemiMajorAxisBasis)
      && r.Periapsis == Sub(r.CenterPoint, Scale(g.SemiMajorAxis, g.SemiMajorAxisBasis))
      && r.MeanMotion == OpenMeanMotion(m, g.MG, g.SemiMajorAxis)
  {
    var u := g.SemiMajorAxisBasis;
    var a, e := g.SemiMajorAxis, g.Eccentricity;
    assert e * (a * u.x) == (a * e) * u.x;
    assert e * (a * u.y) == (a * e) * u.y;
    assert e * (a * u.z) == (a * e) * u.z;
  }

  /** On a parabola the period, the apoapsis and its distance are at +infinity and
      the centre is the origin. The mean motion reads the periapsis distance the
      state had before; the periapsis distance then takes the incoming semi-major
      axis, which becomes 0. The focal parameter is therefore 0, and so is the
      velocity. */
  lemma ParabolicElementsProperties(m: Math, f: OrbitFields)
    requires f.Eccentricity == 1.0
    ensures var r := FromElements(m, f);
      && r.Period == Infinity && r.Apoapsis == AtInfinity && r.ApoapsisDistance == Infinity
      && r.CenterPoint == Zero
    ensures var r := FromElements(m, f);
      && r.MG == f.AttractorMass * f.GravConst
      && r.MeanMotion == ParabolicMeanMotion(m, r.MG, f.PeriapsisDistance)
      && r.PeriapsisDistance == f.SemiMajorAxis && r.SemiMajorAxis == 0.0
      && r.Periapsis == Scale(-f.SemiMajorAxis, f.SemiMajorAxisBasis)
    ensures var r := FromElements(m, f);
      r.FocalParameter == 0.0 && r.velocityRelativeToAttractor == Zero
  {
    var g := ParabolicElements(m, ElementsPlane(m, f));
    assert FromElements(m, f) == Finalized(m, g);
    FinalizedKeeps(m, g);
  }

  /** Exactly one branch runs: the period and the apoapsis are finite for e < 1 and at
      +infinity otherwise, and the semi-major axis is kept except on a parabola. */
  lemma ElementsRegimes(m: Math, f: OrbitFields)
    ensures var r := FromElements(m, f);
      && (f.Eccentricity < 1.0 <==> r.Period.Finite?)
      && (f.Eccentricity < 1.0 <==> r.Apoapsis.At?)
      && (f.Eccentricity != 1.0 ==> r.SemiMajorAxis == f.SemiMajorAxis)
    ensures var r := FromElements(m, f);
      f.Eccentricity < 1.0 && r.Period.value != 0.0 ==> r.Period.value * r.MeanMotion == PI_2
  {
    var g0 := ElementsPlane(m, f);
    var g := ElementsBranch(m, g0);
    FinalizedKeeps(m, g);
    BranchKeepsElements(m, g0);
    if f.Eccentricity < 1.0 {
      EllipticElementsProperties(m, g0);
    } else if f.Eccentricity > 1.0 {
      HyperbolicElementsProperties(m, g0);
    }
  }

  // ---------------------------------------------------------------------------
  // The calculator's methods.

  /** `CalculateOrbitStateFromOrbitalElements` */
  method CalculateOrbitStateFromOrbitalElements(m: Math, d: OrbitData)
    modifies d
    ensures d.Fields() == FromElements(m, old(d.Fields()))
  {
    StoreElementsPlane(m, d);
    if d.Eccentricity < 1.0 {
      CalculateEllipticElements(m, d);
    } else if d.Eccentricity > 1.0 {
      CalculateHyperbolicElements(m, d);
    } else {
      CalculateParabolicElements(m, d);
    }
    FinalizeOrbitalElementCalculation(m, d);
  }

  method StoreElementsPlane(m: Math, d: OrbitData)
    modifies d
    ensures d.Fields() == ElementsPlane(m, old(d.Fields()))
  {
    d.MG := d.AttractorMass * d.GravConst;
    d.OrbitNormal := Neg(m.normalized(Cross(d.SemiMajorAxisBasis, d.SemiMinorAxisBasis)));
    d.OrbitNormalDotEclipticNormal := Dot(d.OrbitNormal, EclipticNormal);
  }

  /** `CalculateEllipticElements` */
  method CalculateEllipticElements(m: Math, d: OrbitData)
    modifies d
    ensures d.Fields() == EllipticElements(m, old(d.Fields()))
  {
    StoreEllipticElementsShape(m, d);
    StoreEllipticApsides(m, d);
  }

  method StoreEllipticElementsShape(m: Math, d: OrbitData)
    modifies d
    ensures d.Fields() == EllipticElementsShape(m, old(d.Fields()))
  {
    var ratio := 1.0 - Square(d.Eccentricity);
    var centre := ElementsCentre(d.Fields());
    var period := PI_2 * PeriodRoot(m, d.SemiMajorAxis, d.MG);
    d.OrbitCompressionRatio, d.CenterPoint := ratio, centre;
    d.Period, d.MeanMotion := Finite(period), Div(PI_2, period);
  }

  /** `CalculateHyperbolicElements` */
  method CalculateHyperbolicElements(m: Math, d: OrbitData)
    modifies d
    ensures d.Fields() == HyperbolicElements(m, old(d.Fields()))
  {
    StoreHyperbolicElementsShape(m, d);
    StoreHyperbolicPeriapsis(m, d);
    StoreNoApoapsis(d);
  }

  method StoreHyperbolicElementsShape(m: Math, d: OrbitData)
    modifies d
    ensures d.Fields() == HyperbolicElementsShape(m, old(d.Fields()))
  {
    var centre := Scale(d.Eccentricity, Scale(d.SemiMajorAxis, d.SemiMajorAxisBasis));
    var motion := OpenMeanMotion(m, d.MG, d.SemiMajorAxis);
    d.CenterPoint, d.Period, d.MeanMotion := centre, Infinity, motion;
  }

  /** `CalculateParabolicElements`. The mean motion is computed before the
      periapsis distance is overwritten, and the periapsis reads the new one. */
  method CalculateParabolicElements(m: Math, d: OrbitData)
    modifies d
    ensures d.Fields() == ParabolicElements(m, old(d.Fields()))
  {
    StoreParabolicShape(m, d);
    StoreParabolicPeriapsis(d);
  }

  method StoreParabolicShape(m: Math, d: OrbitData)
    modifies d
    ensures d.Fields() == ParabolicElementsShape(m, old(d.Fields()))
  {
    var motion := ParabolicMeanMotion(m, d.MG, d.PeriapsisDistance);
    d.CenterPoint, d.Period, d.MeanMotion, d.Apoapsis := Zero, Infinity, motion, AtInfinity;
  }

  method StoreParabolicPeriapsis(d: OrbitData)
    modifies d
    ensures d.Fields() == ParabolicElementsPeriapsis(old(d.Fields()))
  {
    d.PeriapsisDistance := d.SemiMajorAxis;
    d.SemiMajorAxis := 0.0;
    d.Periapsis, d.ApoapsisDistance := Scale(-d.PeriapsisDistance, d.SemiMajorAxisBasis), Infinity;
  }

  /** `FinalizeOrbitalElementCalculation` */
  method FinalizeOrbitalElementCalculation(m: Math, d: OrbitData)
    modifies d
    ensures d.Fields() == Finalized(m, old(d.Fields()))
  {
    SetPositionByCurrentAnomaly(m, d);
    StoreElementsVelocity(m, d);
    d.AttractorDistance := m.magnitude(d.positionRelativeToAttractor);
  }

  /** The focal parameter and the velocity lines of `FinalizeOrbitalElementCalculation`. */
  method StoreElementsVelocity(m: Math, d: OrbitData)
    modifies d
    ensures d.Fields() == WithElementsVelocity(m, old(d.Fields()))
  {
    d.FocalParameter := FocalOf(d.SemiMajorAxis, d.Eccentricity);
    var velocity := GetVelocityAtTrueAnomaly(m, d.Fields(), d.TrueAnomaly);
    d.velocityRelativeToAttractor := velocity;
  }
}
