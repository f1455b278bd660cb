/** The orbit state of Gravity/Kepler/OrbitData.cs: a mutable record of about
    twenty-five numbers and vectors that the calculators rewrite in place. `OrbitFields`
    is its value (a snapshot, which is also what the reflection-based clone copies);
    `OrbitData` is the object with the same fields. The read-only members of the
    source (`GetCurrentOrbitTime`, `IsValidOrbit` and the three angles) are functions
    of the snapshot. */
module OrbitState {
  import opened Vectors
  import opened Numerics

  datatype OrbitFields = OrbitFields(
    MG: real,
    GravConst: real,
    SemiMinorAxis: real,
    SemiMajorAxis: real,
    FocalParameter: real,
    Eccentricity: real,
    Period: Ext,
    TrueAnomaly: real,
    MeanAnomaly: real,
    EccentricAnomaly: real,
    MeanMotion: real,
    Periapsis: Vector3d,
    PeriapsisDistance: real,
    Apoapsis: Point,
    ApoapsisDistance: Ext,
    CenterPoint: Vector3d,
    OrbitCompressionRatio: real,
    OrbitNormal: Vector3d,
    SemiMinorAxisBasis: Vector3d,
    SemiMajorAxisBasis: Vector3d,
    OrbitNormalDotEclipticNormal: real,
    positionRelativeToAttractor: Vector3d,
    velocityRelativeToAttractor: Vector3d,
    AttractorMass: real,
    AttractorDistance: real,
    /** Declared in a part of the partial class that is not part of this model; an
        input like any other field. */
    SphereOfInfluenceRadius: real)

  /** The state of `new OrbitData()`: every number 0 except `GravConst = 1`. */
  const EmptyOrbit := OrbitFields(
    0.0, 1.0, 0.0, 0.0, 0.0, 0.0, Finite(0.0), 0.0, 0.0, 0.0, 0.0,
    Zero, 0.0, At(Zero), Finite(0.0), Zero, 0.0, Zero, Zero, Zero, 0.0,
    Zero, Zero, 0.0, 0.0, 0.0)

  class OrbitData {
    var MG: real
    var GravConst: real
    var SemiMinorAxis: real
    var SemiMajorAxis: real
    var FocalParameter: real
    var Eccentricity: real
    var Period: Ext
    var TrueAnomaly: real
    var MeanAnomaly: real
    var EccentricAnomaly: real
    var MeanMotion: real
    var Periapsis: Vector3d
    var PeriapsisDistance: real
    var Apoapsis: Point
    var ApoapsisDistance: Ext
    var CenterPoint: Vector3d
    var OrbitCompressionRatio: real
    var OrbitNormal: Vector3d
    var SemiMinorAxisBasis: Vector3d
    var SemiMajorAxisBasis: Vector3d
    var OrbitNormalDotEclipticNormal: real
    var positionRelativeToAttractor: Vector3d
    var velocityRelativeToAttractor: Vector3d
    var AttractorMass: real
    var AttractorDistance: real
    var SphereOfInfluenceRadius: real

    /** The current values of all fields. */
    function Fields(): OrbitFields
      reads this
    {
      OrbitFields(MG, GravConst, SemiMinorAxis, SemiMajorAxis, FocalParameter, Eccentricity,
        Period, TrueAnomaly, MeanAnomaly, EccentricAnomaly, MeanMotion, Periapsis,
        PeriapsisDistance, Apoapsis, ApoapsisDistance, CenterPoint, OrbitCompressionRatio,
        OrbitNormal, SemiMinorAxisBasis, SemiMajorAxisBasis, OrbitNormalDotEclipticNormal,
        positionRelativeToAttractor, velocityRelativeToAttractor, AttractorMass,
        AttractorDistance, SphereOfInfluenceRadius)
    }

    /** `new OrbitData()` */
    constructor ()
      ensures Fields() == EmptyOrbit
    {
      MG, GravConst, SemiMinorAxis, SemiMajorAxis, FocalParameter := 0.0, 1.0, 0.0, 0.0, 0.0;
      Eccentricity, Period, TrueAnomaly, MeanAnomaly, EccentricAnomaly := 0.0, Finite(0.0), 0.0, 0.0, 0.0;
      MeanMotion, Periapsis, PeriapsisDistance, Apoapsis, ApoapsisDistance := 0.0, Zero, 0.0, At(Zero), Finite(0.0);
      CenterPoint, OrbitCompressionRatio, OrbitNormal := Zero, 0.0, Zero;
      SemiMinorAxisBasis, SemiMajorAxisBasis, OrbitNormalDotEclipticNormal := Zero, Zero, 0.0;
      positionRelativeToAttractor, velocityRelativeToAttractor := Zero, Zero;
      AttractorMass, AttractorDistance, SphereOfInfluenceRadius := 0.0, 0.0, 0.0;
    }
  }

  /** `IsValidOrbit`: a non-negative eccentricity, a positive period (+infinity
      included) and a positive attractor mass. On a valid elliptic orbit with a finite
      period the current orbit time lies within one period. */
  function IsValidOrbit(f: OrbitFields): (valid: bool)
    ensures valid ==> f.Period != Finite(0.0) && f.AttractorMass != 0.0
    ensures valid && f.Eccentricity < 1.0 && f.Period.Finite? ==> 0.0 <= GetCurrentOrbitTime(f) < f.Period.value
  {
    f.Eccentricity >= 0.0 && ExtPositive(f.Period) && f.AttractorMass > 0.0
  }

  /** A freshly constructed orbit has period 0 and no attractor mass, so it is not a
      valid orbit; an orbit with +infinity period is valid once its mass is positive. */
  lemma ValidOrbitCases(f: OrbitFields)
    ensures !IsValidOrbit(EmptyOrbit)
    ensures EmptyOrbit.GravConst == 1.0 && EmptyOrbit.Period == Finite(0.0)
    ensures f.Period.Infinity? && f.Eccentricity >= 0.0 && f.AttractorMass > 0.0 ==> IsValidOrbit(f)
    ensures IsValidOrbit(f) ==> f.Eccentricity >= 0.0 && f.AttractorMass > 0.0 && f.Period != Finite(0.0)
  {
  }

  /** `GetCurrentOrbitTime`: the time since periapsis implied by the mean anomaly. */
  function GetCurrentOrbitTime(f: OrbitFields): (t: real)
    ensures f.Eccentricity < 1.0 && ExtPositive(f.Period) && f.Period.Finite? ==>
      0.0 <= t < f.Period.value
    ensures f.Eccentricity < 1.0 && !(ExtPositive(f.Period) && f.Period.Finite?) ==> t == 0.0
    ensures f.Eccentricity >= 1.0 && f.MeanMotion > 0.0 ==> t * f.MeanMotion == f.MeanAnomaly
    ensures f.Eccentricity >= 1.0 && f.MeanMotion <= 0.0 ==> t == 0.0
  {
    if f.Eccentricity < 1.0 then
      if f.Period.Finite? && f.Period.value > 0.0 then
        TimeWithinPeriod(f.MeanAnomaly, f.Period.value)
      else 0.0
    else if f.MeanMotion > 0.0 then
      TimeAtMeanMotion(f.MeanAnomaly, f.MeanMotion)
    else 0.0
  }

  /** The elliptic branch: the wrapped mean anomaly as a fraction of a turn, times the
      period, which places the time within one period. */
  function TimeWithinPeriod(anomaly: real, period: real): (t: real)
    requires period > 0.0
    ensures 0.0 <= t < period
  {
    var a := WrapAngle(anomaly);
    WrapAngleBounds(anomaly);
    BelowQuotient(a, PI_2, 1.0);
    BelowQuotient(a, PI_2, 0.0);
    ScaleBelow(a / PI_2, period);
    a / PI_2 * period
  }

  /** The open branch: the mean anomaly divided by the mean motion, which the mean
      motion multiplies back. */
  function TimeAtMeanMotion(anomaly: real, motion: real): (t: real)
    requires motion > 0.0
    ensures t * motion == anomaly
  {
    QuotientTimesDivisor(anomaly, motion);
    anomaly / motion
  }

  /** `Inclination`: the angle between the orbit normal and the ecliptic normal. */
  function Inclination(m: Math, f: OrbitFields): (i: real)
    ensures m.Ranges() && -1.0 <= Dot(f.OrbitNormal, EclipticNormal) <= 1.0 ==> 0.0 <= i <= MathPI
  {
    var dot := Dot(f.OrbitNormal, EclipticNormal);
    m.acos(dot)
  }

  /** `AscendingNodeLongitude`: measured from the ecliptic x axis and mirrored to the
      far half-turn, so it lies in [0, 2 pi]. */
  function AscendingNodeLongitude(m: Math, f: OrbitFields): (angle: real)
    ensures m.Ranges() ==> 0.0 <= angle <= PI_2
  {
    var ascNodeDir := m.normalized(Cross(EclipticNormal, f.OrbitNormal));
    var dot := Dot(ascNodeDir, EclipticRight);
    var angle := m.acos(dot);
    if Dot(Cross(ascNodeDir, EclipticRight), EclipticNormal) >= 0.0 then PI_2 - angle else angle
  }

  /** `ArgumentOfPerifocus`: measured from the ascending node to the periapsis
      direction, mirrored to the far half-turn, so it lies in [0, 2 pi]. */
  function ArgumentOfPerifocus(m: Math, f: OrbitFields): (angle: real)
    ensures m.Ranges() && m.NormalizedDots() ==> 0.0 <= angle <= PI_2
  {
    var ascNodeDir := m.normalized(Cross(EclipticNormal, f.OrbitNormal));
    var dot := Dot(ascNodeDir, m.normalized(f.SemiMajorAxisBasis));
    var angle := m.acos(dot);
    if Dot(Cross(ascNodeDir, f.SemiMajorAxisBasis), f.OrbitNormal) < 0.0 then PI_2 - angle else angle
  }
}
