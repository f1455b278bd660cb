/** Moving a body along its orbit, Gravity/Kepler/Calculators/OrbitAnomalyCalculator.cs:
    advancing the mean anomaly by a time step, setting it directly, and recomputing the
    eccentric and true anomalies, the position and the velocity from it. Each method
    rewrites the orbit object in place; the function next to it says what the new
    field values are. */
module OrbitAnomaly {
  import opened Vectors
  import opened Numerics
  import opened KeplerUtils
  import opened OrbitState
  import opened OrbitPosition

  // ---------------------------------------------------------------------------
  // Velocity and the derived position/velocity fields.

  /** `GetVelocityAtTrueAnomaly`, whose argument is an eccentric anomaly that it
      converts to a true anomaly first: the vis-viva velocity in the orbit's plane,
      or the zero vector when the focal parameter is not positive. */
  function GetVelocityAtTrueAnomaly(m: Math, f: OrbitFields, eccentricAnomaly: real): (v: Vector3d)
    ensures f.FocalParameter <= 0.0 ==> v == Zero
  {
    if f.FocalParameter <= 0.0 then
      Zero
    else
      var r := VelocityCoordinates(m, f.Eccentricity, f.AttractorMass, f.GravConst, f.FocalParameter, eccentricAnomaly);
      InPlane(f.SemiMinorAxisBasis, f.SemiMajorAxisBasis, r.x, r.y)
  }

  /** The local coordinates of the velocity, `sqrt(MG / p) (e + cos T, sin T)` for the
      true anomaly `T` of the eccentric one. */
  function VelocityCoordinates(m: Math, e: real, mass: real, G: real, p: real, eccentricAnomaly: real): Vector3d {
    var trueAnomaly := ConvertEccentricToTrueAnomaly(m, eccentricAnomaly, e);
    var k := SpeedScale(m, mass, G, p);
    Vector3d(k * (e + m.cos(trueAnomaly)), k * m.sin(trueAnomaly), 0.0)
  }

  /** The velocity lies in the orbital plane. */
  lemma VelocityInPlane(m: Math, f: OrbitFields, E: real)
    ensures Dot(GetVelocityAtTrueAnomaly(m, f, E), Cross(f.SemiMinorAxisBasis, f.SemiMajorAxisBasis)) == 0.0
  {
    if f.FocalParameter > 0.0 {
      var r := VelocityCoordinates(m, f.Eccentricity, f.AttractorMass, f.GravConst, f.FocalParameter, E);
      InPlaneIsPerpendicular(f.SemiMinorAxisBasis, f.SemiMajorAxisBasis, r.x, r.y);
    }
  }

  /** `sqrt(mass * G / p)` */
  function SpeedScale(m: Math, mass: real, G: real, p: real): real {
    m.sqrt(Div(mass * G, p))
  }

  /** The state after `SetPositionByCurrentAnomaly`. */
  function WithPosition(m: Math, f: OrbitFields): (g: OrbitFields)
    ensures g.(positionRelativeToAttractor := f.positionRelativeToAttractor) == f
    ensures g.positionRelativeToAttractor == GetFocalPositionAtEccentricAnomaly(m, f, f.EccentricAnomaly)
  {
    f.(positionRelativeToAttractor := GetFocalPositionAtEccentricAnomaly(m, f, f.EccentricAnomaly))
  }

  /** The state after `SetVelocityByCurrentAnomaly`. */
  function WithVelocity(m: Math, f: OrbitFields): (g: OrbitFields)
    ensures g.(velocityRelativeToAttractor := f.velocityRelativeToAttractor) == f
    ensures g.velocityRelativeToAttractor == GetVelocityAtTrueAnomaly(m, f, f.EccentricAnomaly)
  {
    f.(velocityRelativeToAttractor := GetVelocityAtTrueAnomaly(m, f, f.EccentricAnomaly))
  }

  /** Position and velocity are those of the current eccentric anomaly. */
  predicate MotionMatchesAnomaly(m: Math, f: OrbitFields) {
    && f.positionRelativeToAttractor == GetFocalPositionAtEccentricAnomaly(m, f, f.EccentricAnomaly)
    && f.velocityRelativeToAttractor == GetVelocityAtTrueAnomaly(m, f, f.EccentricAnomaly)
  }

  /** Both setters together bring position and velocity in line with the anomaly,
      whatever they were, and change nothing else. */
  function WithMotion(m: Math, f: OrbitFields): (g: OrbitFields)
    ensures MotionMatchesAnomaly(m, g)
    ensures g.(positionRelativeToAttractor := f.positionRelativeToAttractor,
               velocityRelativeToAttractor := f.velocityRelativeToAttractor) == f
  {
    var g := WithVelocity(m, WithPosition(m, f));
    PositionsDependOnConic(m, f, g, f.EccentricAnomaly);
    VelocityDependsOnConic(m, WithPosition(m, f), g, f.EccentricAnomaly);
    g
  }

  /** The velocity reads only the conic's eccentricity and axes, the focal parameter
      and the attractor's gravitational parameter. */
  lemma VelocityDependsOnConic(m: Math, f: OrbitFields, g: OrbitFields, E: real)
    requires f.Eccentricity == g.Eccentricity && f.FocalParameter == g.FocalParameter
    requires f.AttractorMass == g.AttractorMass && f.GravConst == g.GravConst
    requires f.SemiMinorAxisBasis == g.SemiMinorAxisBasis && f.SemiMajorAxisBasis == g.SemiMajorAxisBasis
    ensures GetVelocityAtTrueAnomaly(m, f, E) == GetVelocityAtTrueAnomaly(m, g, E)
  {
  }

  /** Recomputing position and velocity does not depend on their previous values. */
  lemma MotionIgnoresOldMotion(m: Math, f: OrbitFields, p: Vector3d, v: Vector3d)
    ensures WithMotion(m, f.(positionRelativeToAttractor := p, velocityRelativeToAttractor := v)) == WithMotion(m, f)
  {
    var h := f.(positionRelativeToAttractor := p, velocityRelativeToAttractor := v);
    PositionsDependOnConic(m, f, h, f.EccentricAnomaly);
    VelocityDependsOnConic(m, WithPosition(m, f), WithPosition(m, h), f.EccentricAnomaly);
  }

  /** Position and velocity do not read the stored true anomaly. */
  lemma MotionIgnoresTrueAnomaly(m: Math, f: OrbitFields, t: real)
    ensures WithMotion(m, f.(TrueAnomaly := t)) == WithMotion(m, f).(TrueAnomaly := t)
  {
    var h := f.(TrueAnomaly := t);
    PositionsDependOnConic(m, f, h, f.EccentricAnomaly);
    VelocityDependsOnConic(m, WithPosition(m, f), WithPosition(m, h), f.EccentricAnomaly);
  }

  /** `SetPositionByCurrentAnomaly` */
  method SetPositionByCurrentAnomaly(m: Math, d: OrbitData)
    modifies d
    ensures d.Fields() == WithPosition(m, old(d.Fields()))
  {
    d.positionRelativeToAttractor := GetFocalPositionAtEccentricAnomaly(m, d.Fields(), d.EccentricAnomaly);
  }

  /** `SetVelocityByCurrentAnomaly` */
  method SetVelocityByCurrentAnomaly(m: Math, d: OrbitData)
    modifies d
    ensures d.Fields() == WithVelocity(m, old(d.Fields()))
  {
    d.velocityRelativeToAttractor := GetVelocityAtTrueAnomaly(m, d.Fields(), d.EccentricAnomaly);
  }

  // ---------------------------------------------------------------------------
  // Advancing by time.

  /** The elliptic true anomaly of a time step: the arccosine of the cosine ratio,
      mirrored to the far half-turn when the mean anomaly is past `Math.PI`. */
  function StepTrueAnomaly(m: Math, M: real, E: real, e: real): (T: real)
    ensures m.Ranges() && 0.0 <= e < 1.0 && M <= MathPI ==> 0.0 <= T <= MathPI
    ensures m.Ranges() && 0.0 <= e < 1.0 && M > MathPI ==> PI_2 - MathPI <= T <= PI_2
  {
    var cosE := m.cos(E);
    CosineRatioInRangeMinus(e, cosE);
    var T := m.acos(Div(cosE - e, 1.0 - e * cosE));
    if M > MathPI then PI_2 - T else T
  }

  /** The step's true anomaly is the general conversion whenever the mean and the
      eccentric anomaly lie on the same side of the half-turn. */
  lemma StepTrueAnomalyIsConversion(m: Math, M: real, E: real, e: real)
    requires e < 1.0 && (M > MathPI <==> E > PI)
    ensures StepTrueAnomaly(m, M, E, e) == ConvertEccentricToTrueAnomaly(m, E, e)
  {
  }

  /** The mean anomaly after a time step, from the advanced value
      `MeanAnomaly + MeanMotion * deltaTime`: on an ellipse only, wrapped into [0, 2pi). */
  function SteppedMeanAnomaly(e: real, advanced: real): (r: real)
    ensures e < 1.0 ==> 0.0 <= r < PI_2
    ensures e >= 1.0 ==> r == advanced
  {
    WrapAngleBounds(advanced);
    if e < 1.0 then WrapAngle(advanced) else advanced
  }

  /** The eccentric anomaly a time step solves for. The hyperbolic branch, too,
      calls the elliptic solver. */
  function SteppedEccentricAnomaly(m: Math, e: real, M: real): real {
    if e < 1.0 then KeplerSolution(m, M, e)
    else if e > 1.0 then KeplerSolution(m, M, e)
    else ConvertMeanToEccentricAnomaly(m, M, e)
  }

  /** The true anomaly a time step stores. */
  function SteppedTrueAnomaly(m: Math, e: real, M: real): real {
    if e < 1.0 then StepTrueAnomaly(m, M, SteppedEccentricAnomaly(m, e, M), e)
    else if e > 1.0 then ConvertEccentricToTrueAnomaly(m, SteppedEccentricAnomaly(m, e, M), e)
    else SteppedEccentricAnomaly(m, e, M)
  }

  /** The mean anomaly advanced by a time step, before it is wrapped. */
  function Advanced(f: OrbitFields, deltaTime: real): real {
    f.MeanAnomaly + Swept(f.MeanMotion, deltaTime)
  }

  /** The mean anomaly swept in `deltaTime` at mean motion `n`. */
  function Swept(n: real, deltaTime: real): real {
    n * deltaTime
  }

  /** Sweeping for `a` and then for `b` sweeps as much as sweeping for `a + b`. */
  lemma SweptAdds(n: real, a: real, b: real)
    ensures Swept(n, a) + Swept(n, b) == Swept(n, a + b)
  {
    assert n * a + n * b == n * (a + b);
  }

  /** The anomalies after a time step whose advanced mean anomaly
      `MeanAnomaly + MeanMotion * deltaTime` is `advanced`, before position and
      velocity are recomputed. */
  function SteppedAnomalies(m: Math, f: OrbitFields, advanced: real): (g: OrbitFields)
    ensures g.(MeanAnomaly := f.MeanAnomaly, EccentricAnomaly := f.EccentricAnomaly,
               TrueAnomaly := f.TrueAnomaly) == f
  {
    var M := SteppedMeanAnomaly(f.Eccentricity, advanced);
    f.(MeanAnomaly := M,
       EccentricAnomaly := SteppedEccentricAnomaly(m, f.Eccentricity, M),
       TrueAnomaly := SteppedTrueAnomaly(m, f.Eccentricity, M))
  }

  /** The whole state after `UpdateOrbitAnomaliesByTime`: new anomalies, with
      position and velocity recomputed from them. */
  function UpdatedByTime(m: Math, f: OrbitFields, deltaTime: real): OrbitFields {
    WithMotion(m, SteppedAnomalies(m, f, Advanced(f, deltaTime)))
  }

  /** A time step leaves position and velocity matching the new anomaly and changes
      nothing but the anomalies, position and velocity. The mean anomaly of an
      ellipse ends in [0, 2pi); that of an open orbit moves by exactly
      `MeanMotion * deltaTime`; on a parabola the true anomaly is the eccentric one. */
  lemma TimeStepProperties(m: Math, f: OrbitFields, deltaTime: real)
    ensures MotionMatchesAnomaly(m, UpdatedByTime(m, f, deltaTime))
    ensures UpdatedByTime(m, f, deltaTime).(MeanAnomaly := f.MeanAnomaly, EccentricAnomaly := f.EccentricAnomaly,
               TrueAnomaly := f.TrueAnomaly, positionRelativeToAttractor := f.positionRelativeToAttractor,
               velocityRelativeToAttractor := f.velocityRelativeToAttractor) == f
    ensures f.Eccentricity < 1.0 ==> 0.0 <= UpdatedByTime(m, f, deltaTime).MeanAnomaly < PI_2
    ensures f.Eccentricity >= 1.0 ==> UpdatedByTime(m, f, deltaTime).MeanAnomaly - f.MeanAnomaly == f.MeanMotion * deltaTime
    ensures f.Eccentricity == 1.0 ==> UpdatedByTime(m, f, deltaTime).TrueAnomaly == UpdatedByTime(m, f, deltaTime).EccentricAnomaly
  {
  }

  /** `UpdateOrbitAnomaliesByTime`: advances the mean anomaly by
      `MeanMotion * deltaTime`, then recomputes everything that follows from it. */
  method UpdateOrbitAnomaliesByTime(m: Math, d: OrbitData, deltaTime: real)
    modifies d
    ensures d.Fields() == UpdatedByTime(m, old(d.Fields()), deltaTime)
  {
    ghost var f := d.Fields();
    var advanced := d.MeanAnomaly + d.MeanMotion * deltaTime;
    assert advanced == Advanced(f, deltaTime);
    StepAnomalies(m, d, advanced);
    SetPositionByCurrentAnomaly(m, d);
    SetVelocityByCurrentAnomaly(m, d);
  }

  /** The anomaly part of `UpdateOrbitAnomaliesByTime`, from the advanced mean
      anomaly. The three anomalies are computed first and stored together; nothing
      observes the object in between. */
  method StepAnomalies(m: Math, d: OrbitData, advanced: real)
    modifies d
    ensures d.Fields() == SteppedAnomalies(m, old(d.Fields()), advanced)
  {
    var meanAnomaly, eccentricAnomaly, trueAnomaly := StepValues(m, d.Eccentricity, advanced);
    d.MeanAnomaly, d.EccentricAnomaly, d.TrueAnomaly := meanAnomaly, eccentricAnomaly, trueAnomaly;
  }

  /** The three anomalies of a time step, computed as the source does: the mean
      anomaly wrapped on an ellipse, then the solver loop, then the conversion. */
  method StepValues(m: Math, e: real, advanced: real) returns (meanAnomaly: real, eccentricAnomaly: real, trueAnomaly: real)
    ensures meanAnomaly == SteppedMeanAnomaly(e, advanced)
    ensures eccentricAnomaly == SteppedEccentricAnomaly(m, e, meanAnomaly)
    ensures trueAnomaly == SteppedTrueAnomaly(m, e, meanAnomaly)
  {
    meanAnomaly := advanced;
    if e < 1.0 {
      meanAnomaly := FRem(meanAnomaly, PI_2);
      if meanAnomaly < 0.0 {
        meanAnomaly := meanAnomaly + PI_2;
      }
      eccentricAnomaly := SolveKeplersEquation(m, meanAnomaly, e);
      trueAnomaly := StepTrueAnomaly(m, meanAnomaly, eccentricAnomaly, e);
    } else if e > 1.0 {
      eccentricAnomaly := SolveKeplersEquation(m, meanAnomaly, e);
      trueAnomaly := ConvertEccentricToTrueAnomaly(m, eccentricAnomaly, e);
    } else {
      eccentricAnomaly := ConvertMeanToEccentricAnomaly(m, meanAnomaly, e);
      trueAnomaly := eccentricAnomaly;
    }
  }

  /** A zero step leaves an open orbit's mean anomaly where it is, and a closed
      orbit's too once it lies in [0, 2pi). */
  lemma ZeroStepKeepsMeanAnomaly(m: Math, f: OrbitFields)
    ensures f.Eccentricity >= 1.0 ==> UpdatedByTime(m, f, 0.0).MeanAnomaly == f.MeanAnomaly
    ensures f.Eccentricity < 1.0 && 0.0 <= f.MeanAnomaly < PI_2 ==>
      UpdatedByTime(m, f, 0.0).MeanAnomaly == f.MeanAnomaly
  {
    FRemBounds(f.MeanAnomaly, PI_2);
  }

  /** The stepped anomalies depend on the advanced value only through the mean
      anomaly it wraps to. */
  lemma SteppedAnomaliesOf(m: Math, f: OrbitFields, x: real, y: real)
    requires SteppedMeanAnomaly(f.Eccentricity, x) == SteppedMeanAnomaly(f.Eccentricity, y)
    ensures SteppedAnomalies(m, f, x) == SteppedAnomalies(m, f, y)
  {
  }

  /** Equal advanced values give equal stepped mean anomalies. */
  lemma SteppedMeanAnomalyOf(e: real, x: real, y: real)
    requires x == y
    ensures SteppedMeanAnomaly(e, x) == SteppedMeanAnomaly(e, y)
  {
  }

  /** The stepped anomalies do not read the previous anomalies, position or velocity. */
  lemma SteppedAnomaliesIgnoreMotion(m: Math, f: OrbitFields, g: OrbitFields, x: real)
    requires g.(MeanAnomaly := f.MeanAnomaly, EccentricAnomaly := f.EccentricAnomaly,
                TrueAnomaly := f.TrueAnomaly, positionRelativeToAttractor := f.positionRelativeToAttractor,
                velocityRelativeToAttractor := f.velocityRelativeToAttractor) == f
    ensures SteppedAnomalies(m, g, x) == SteppedAnomalies(m, f, x).(
      positionRelativeToAttractor := g.positionRelativeToAttractor,
      velocityRelativeToAttractor := g.velocityRelativeToAttractor)
  {
  }

  /** Two steps of the mean anomaly add up to one. */
  lemma SteppedMeanAnomalyAdds(e: real, x: real, y: real)
    ensures SteppedMeanAnomaly(e, SteppedMeanAnomaly(e, x) + y) == SteppedMeanAnomaly(e, x + y)
  {
    if e < 1.0 {
      WrapAngleAbsorbs(x, y);
    }
  }

  /** A time step stores the wrapped advanced mean anomaly and leaves every field but
      the anomalies, position and velocity as it was. */
  lemma UpdatedFields(m: Math, f: OrbitFields, deltaTime: real)
    ensures UpdatedByTime(m, f, deltaTime).MeanAnomaly == SteppedMeanAnomaly(f.Eccentricity, Advanced(f, deltaTime))
    ensures UpdatedByTime(m, f, deltaTime).MeanMotion == f.MeanMotion
    ensures UpdatedByTime(m, f, deltaTime).(MeanAnomaly := f.MeanAnomaly, EccentricAnomaly := f.EccentricAnomaly,
               TrueAnomaly := f.TrueAnomaly, positionRelativeToAttractor := f.positionRelativeToAttractor,
               velocityRelativeToAttractor := f.velocityRelativeToAttractor) == f
  {
  }

  /** The mean anomaly reached by a second step of `b` is the one a single step of
      `a + b` reaches. */
  lemma SteppedMeanAfterStep(m: Math, f: OrbitFields, a: real, b: real)
    ensures SteppedMeanAnomaly(f.Eccentricity, Advanced(UpdatedByTime(m, f, a), b))
         == SteppedMeanAnomaly(f.Eccentricity, Advanced(f, a + b))
  {
    var g := UpdatedByTime(m, f, a);
    UpdatedFields(m, f, a);
    SweptAdds(f.MeanMotion, a, b);
    SteppedMeanAnomalyAdds(f.Eccentricity, Advanced(f, a), Swept(f.MeanMotion, b));
    SteppedMeanAnomalyOf(f.Eccentricity, Advanced(g, b),
      SteppedMeanAnomaly(f.Eccentricity, Advanced(f, a)) + Swept(f.MeanMotion, b));
    SteppedMeanAnomalyOf(f.Eccentricity, Advanced(f, a) + Swept(f.MeanMotion, b), Advanced(f, a + b));
  }

  /** Advancing by `a` and then by `b` gives the same orbit state as advancing by
      `a + b` at once, in every regime. */
  lemma TimeStepsCompose(m: Math, f: OrbitFields, a: real, b: real)
    ensures UpdatedByTime(m, UpdatedByTime(m, f, a), b) == UpdatedByTime(m, f, a + b)
  {
    var g := UpdatedByTime(m, f, a);
    UpdatedFields(m, f, a);
    SteppedMeanAfterStep(m, f, a, b);
    SteppedAnomaliesOf(m, f, Advanced(g, b), Advanced(f, a + b));
    SteppedAnomaliesIgnoreMotion(m, f, g, Advanced(g, b));
    MotionIgnoresOldMotion(m, SteppedAnomalies(m, f, Advanced(f, a + b)),
      g.positionRelativeToAttractor, g.velocityRelativeToAttractor);
  }

  // ---------------------------------------------------------------------------
  // Setting the mean anomaly.

  /** The mean anomaly `SetMeanAnomaly(M)` stores: the remainder of `M` by 2pi, made
      non-negative on an ellipse only. */
  function SetMeanAnomalyValue(e: real, M: real): (r: real)
    ensures e < 1.0 ==> 0.0 <= r < PI_2
    ensures e >= 1.0 ==> -PI_2 < r < PI_2
    ensures -PI_2 < M < PI_2 && (e >= 1.0 || M >= 0.0) ==> r == M
  {
    FRemBounds(M, PI_2);
    WrapAngleBounds(M);
    if e < 1.0 then WrapAngle(M) else FRem(M, PI_2)
  }

  /** The eccentric anomaly `SetMeanAnomaly` solves for, with the hyperbolic solver
      when e > 1. */
  function SetEccentricAnomaly(m: Math, e: real, M: real): real {
    if e < 1.0 then KeplerSolution(m, M, e)
    else if e > 1.0 then HyperbolicSolution(m, M, e).root
    else ConvertMeanToEccentricAnomaly(m, M, e)
  }

  /** The true anomaly `SetMeanAnomaly` stores. */
  function SetTrueAnomaly(m: Math, e: real, M: real): real {
    if e < 1.0 then ConvertEccentricToTrueAnomaly(m, SetEccentricAnomaly(m, e, M), e)
    else if e > 1.0 then ConvertEccentricToTrueAnomaly(m, SetEccentricAnomaly(m, e, M), e)
    else SetEccentricAnomaly(m, e, M)
  }

  /** The anomalies after `SetMeanAnomaly(M)`, before position and velocity are
      recomputed. */
  function AnomaliesAt(m: Math, f: OrbitFields, M: real): (g: OrbitFields)
    ensures g.(MeanAnomaly := f.MeanAnomaly, EccentricAnomaly := f.EccentricAnomaly,
               TrueAnomaly := f.TrueAnomaly) == f
  {
    var r := SetMeanAnomalyValue(f.Eccentricity, M);
    f.(MeanAnomaly := r,
       EccentricAnomaly := SetEccentricAnomaly(m, f.Eccentricity, r),
       TrueAnomaly := SetTrueAnomaly(m, f.Eccentricity, r))
  }

  /** The whole state after `SetMeanAnomaly(M)`. */
  function MeanAnomalySet(m: Math, f: OrbitFields, M: real): (g: OrbitFields)
    ensures MotionMatchesAnomaly(m, g)
    ensures g.(MeanAnomaly := f.MeanAnomaly, EccentricAnomaly := f.EccentricAnomaly,
               TrueAnomaly := f.TrueAnomaly, positionRelativeToAttractor := f.positionRelativeToAttractor,
               velocityRelativeToAttractor := f.velocityRelativeToAttractor) == f
    ensures f.Eccentricity < 1.0 ==> 0.0 <= g.MeanAnomaly < PI_2
    ensures f.Eccentricity >= 1.0 ==> -PI_2 < g.MeanAnomaly < PI_2
    ensures f.Eccentricity >= 1.0 && -PI_2 < M < PI_2 ==> g.MeanAnomaly == M
    ensures f.Eccentricity == 1.0 ==> g.TrueAnomaly == g.EccentricAnomaly
  {
    WithMotion(m, AnomaliesAt(m, f, M))
  }

  /** `SetMeanAnomaly`. When e > 1 and the hyperbolic solver has not settled after
      `HyperbolicFuel` steps the source would still be looping; the model stores
      the estimate reached. */
  method SetMeanAnomaly(m: Math, d: OrbitData, M: real)
    modifies d
    ensures d.Fields() == MeanAnomalySet(m, old(d.Fields()), M)
  {
    ghost var a := AnomaliesAt(m, d.Fields(), M);
    var meanAnomaly, eccentricAnomaly, trueAnomaly := SetValues(m, d.Eccentricity, M);
    d.MeanAnomaly, d.EccentricAnomaly, d.TrueAnomaly := meanAnomaly, eccentricAnomaly, trueAnomaly;
    assert d.Fields() == a;
    SetPositionByCurrentAnomaly(m, d);
    SetVelocityByCurrentAnomaly(m, d);
    assert d.Fields() == WithMotion(m, a);
  }

  /** The three anomalies `SetMeanAnomaly` stores, computed as the source does: the
      remainder, made non-negative on an ellipse, then the solver for the regime,
      then the conversion. */
  method SetValues(m: Math, e: real, M: real) returns (meanAnomaly: real, eccentricAnomaly: real, trueAnomaly: real)
    ensures meanAnomaly == SetMeanAnomalyValue(e, M)
    ensures eccentricAnomaly == SetEccentricAnomaly(m, e, meanAnomaly)
    ensures trueAnomaly == SetTrueAnomaly(m, e, meanAnomaly)
  {
    meanAnomaly := FRem(M, PI_2);
    if e < 1.0 {
      if meanAnomaly < 0.0 {
        meanAnomaly := meanAnomaly + PI_2;
      }
      eccentricAnomaly := SolveKeplersEquation(m, meanAnomaly, e);
      trueAnomaly := ConvertEccentricToTrueAnomaly(m, eccentricAnomaly, e);
    } else if e > 1.0 {
      var solution := KeplerSolverHyperbolicCase(m, meanAnomaly, e);
      eccentricAnomaly := solution.root;
      trueAnomaly := ConvertEccentricToTrueAnomaly(m, eccentricAnomaly, e);
    } else {
      eccentricAnomaly := ConvertMeanToEccentricAnomaly(m, meanAnomaly, e);
      trueAnomaly := eccentricAnomaly;
    }
  }

  /** Setting the same mean anomaly twice is the same as setting it once. */
  lemma SetMeanAnomalyIdempotent(m: Math, f: OrbitFields, M: real)
    ensures MeanAnomalySet(m, MeanAnomalySet(m, f, M), M) == MeanAnomalySet(m, f, M)
  {
    var g := MeanAnomalySet(m, f, M);
    assert AnomaliesAt(m, g, M) == AnomaliesAt(m, f, M).(positionRelativeToAttractor := g.positionRelativeToAttractor,
      velocityRelativeToAttractor := g.velocityRelativeToAttractor);
    MotionIgnoresOldMotion(m, AnomaliesAt(m, f, M), g.positionRelativeToAttractor, g.velocityRelativeToAttractor);
  }

  /** On an ellipse, mean anomalies a whole number of turns apart give the same state. */
  lemma SetMeanAnomalyPeriodic(m: Math, f: OrbitFields, M: real, k: int)
    requires f.Eccentricity < 1.0
    ensures MeanAnomalySet(m, f, M + (k as real) * PI_2) == MeanAnomalySet(m, f, M)
  {
    WrapAngleShift(M, k);
    assert SetMeanAnomalyValue(f.Eccentricity, M + (k as real) * PI_2) == SetMeanAnomalyValue(f.Eccentricity, M);
  }

  /** On an ellipse a time step and `SetMeanAnomaly` wrap the advanced mean anomaly
      the same way, and so solve for the same eccentric anomaly. */
  lemma SteppedAnomaliesAreSet(m: Math, f: OrbitFields, x: real)
    requires f.Eccentricity < 1.0
    ensures SteppedAnomalies(m, f, x) == AnomaliesAt(m, f, x).(TrueAnomaly := SteppedAnomalies(m, f, x).TrueAnomaly)
  {
  }

  /** On an ellipse, a time step lands on the same mean anomaly, eccentric anomaly,
      position and velocity as setting the advanced mean anomaly directly; only the
      true anomaly may differ, being mirrored by a different test. */
  lemma UpdateAgreesWithSetMeanAnomaly(m: Math, f: OrbitFields, deltaTime: real)
    requires f.Eccentricity < 1.0
    ensures UpdatedByTime(m, f, deltaTime).(TrueAnomaly := 0.0)
         == MeanAnomalySet(m, f, Advanced(f, deltaTime)).(TrueAnomaly := 0.0)
  {
    var h := AnomaliesAt(m, f, Advanced(f, deltaTime));
    var k := SteppedAnomalies(m, f, Advanced(f, deltaTime));
    assert UpdatedByTime(m, f, deltaTime) == WithMotion(m, k);
    assert MeanAnomalySet(m, f, Advanced(f, deltaTime)) == WithMotion(m, h);
    SteppedAnomaliesAreSet(m, f, Advanced(f, deltaTime));
    MotionIgnoresTrueAnomaly(m, h, k.TrueAnomaly);
  }

  /** The true anomaly kept by either operation on an ellipse lies in [0, 2pi]. */
  lemma EllipticTrueAnomalyRange(m: Math, f: OrbitFields, deltaTime: real, M: real)
    requires m.Ranges() && 0.0 <= f.Eccentricity < 1.0
    ensures 0.0 <= UpdatedByTime(m, f, deltaTime).TrueAnomaly <= PI_2
    ensures 0.0 <= MeanAnomalySet(m, f, M).TrueAnomaly <= PI_2
  {
  }

  // ---------------------------------------------------------------------------
  // Mean anomaly from the position.

  /** The true anomaly of the current position: the angle to the major axis, taken
      as the far half-turn when the position lies on the negative side of it. */
  function PositionTrueAnomaly(m: Math, f: OrbitFields): (t: real)
    ensures m.Ranges() ==> 0.0 <= t <= PI_2
  {
    var r := m.magnitude(f.positionRelativeToAttractor);
    var cosTrue := Clamp(Div(Dot(f.positionRelativeToAttractor, f.SemiMajorAxisBasis), r), -1.0, 1.0);
    var trueAnom := m.acos(cosTrue);
    if Dot(Cross(f.SemiMajorAxisBasis, f.positionRelativeToAttractor), f.OrbitNormal) < 0.0 then
      PI_2 - trueAnom
    else
      trueAnom
  }

  /** `CalculateMeanAnomalyFromPosition`: Kepler's equation at the eccentric anomaly
      of the position's true anomaly. On a parabola it applies the elliptic form
      `E - e sin E` rather than Barker's equation. */
  function CalculateMeanAnomalyFromPosition(m: Math, f: OrbitFields): (M: real)
    ensures f.Eccentricity != 1.0 ==> M == ConvertEccentricToMeanAnomaly(m,
      ConvertTrueToEccentricAnomaly(m, PositionTrueAnomaly(m, f), f.Eccentricity), f.Eccentricity)
  {
    var e := f.Eccentricity;
    var E := ConvertTrueToEccentricAnomaly(m, PositionTrueAnomaly(m, f), e);
    if e < 1.0 then EllipticKepler(m, E, e)
    else if e > 1.0 then HyperbolicKepler(m, E, e)
    else EllipticKepler(m, E, e)
  }

  /** A body on the periapsis side of the major axis has mean anomaly 0, in every
      regime. */
  lemma MeanAnomalyAtPeriapsis(m: Math, f: OrbitFields)
    requires m.AtZero() && f.Eccentricity >= 0.0
    requires m.magnitude(f.positionRelativeToAttractor) > 0.0
    requires Dot(f.positionRelativeToAttractor, f.SemiMajorAxisBasis) == m.magnitude(f.positionRelativeToAttractor)
    ensures CalculateMeanAnomalyFromPosition(m, f) == 0.0
  {
    var r := m.magnitude(f.positionRelativeToAttractor);
    QuotientTimesDivisor(r, r);
    assert Div(Dot(f.positionRelativeToAttractor, f.SemiMajorAxisBasis), r) == 1.0;
    Congruence(m.acos, Clamp(Div(Dot(f.positionRelativeToAttractor, f.SemiMajorAxisBasis), r), -1.0, 1.0), 1.0);
    var t := PositionTrueAnomaly(m, f);
    assert t == 0.0 || t == PI_2;
    TrueToEccentricAtPeriapsis(m, t, f.Eccentricity);
  }

  /** True anomaly 0, or a full turn, is eccentric anomaly 0 in every regime. */
  lemma TrueToEccentricAtPeriapsis(m: Math, t: real, e: real)
    requires m.AtZero() && e >= 0.0 && (t == 0.0 || t == PI_2)
    ensures ConvertTrueToEccentricAnomaly(m, t, e) == 0.0
  {
    FRemBounds(0.0, PI_2);
    assert FRem(t, PI_2) == 0.0 by {
      if t == PI_2 {
        assert t / PI_2 == 1.0;
      }
    }
    Congruence(m.cos, FRem(t, PI_2), 0.0);
    if e < 1.0 {
      var c := m.cos(FRem(t, PI_2));
      QuotientTimesDivisor(e + 1.0, e + 1.0);
      assert Div(e + c, 1.0 + e * c) == 1.0;
      Congruence(m.acos, Div(e + c, 1.0 + e * c), 1.0);
    } else if e > 1.0 {
      assert Sign(FRem(t, PI_2)) == 0;
    }
  }
}
