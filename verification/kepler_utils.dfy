/** The static helpers of Kepler/Utils.cs: the inverse hyperbolic cosine, the two
    Kepler-equation solvers, the four anomaly conversions and the true anomaly at a
    given distance. Each branch follows the regime split of the source: e < 1 is an
    ellipse, e > 1 a hyperbola and anything else (e == 1) a parabola. */
module KeplerUtils {
  import opened Numerics

  /** `Utils.Rad2Deg` */
  const Rad2Deg: real := 57.295779513082

  /** The convergence tolerance of the hyperbolic Newton iteration. */
  const HyperbolicTolerance: real := 0.00000001

  /** The number of Newton steps the model grants the hyperbolic solver, whose loop
      in the source has no bound. */
  const HyperbolicFuel: nat := 1000

  /** Inverse hyperbolic cosine; arguments below 1 give 0 instead of NaN. */
  function Acosh(m: Math, x: real): (r: real)
    ensures x < 1.0 ==> r == 0.0
    ensures m.Ranges() ==> r >= 0.0
  {
    if x < 1.0 then 0.0
    else
      assert x * x >= 1.0;
      m.log(x + m.sqrt(x * x - 1.0))
  }

  // ---------------------------------------------------------------------------
  // Elliptic case: a fixed number of Halley-type steps.

  /** `(int)Math.Ceiling((e + 0.7) * 1.25) << 1` */
  function KeplerIterations(e: real): int {
    2 * Ceil((e + 0.7) * 1.25)
  }

  /** The denominator `n + Math.Sign(n) * Math.Sqrt(Math.Abs(16 n n - 20 deltaE esinE))`
      of a solver step. */
  function StepDenominator(m: Math, n: real, deltaE: real, esinE: real): real {
    n + (Sign(n) as real) * m.sqrt(Abs(16.0 * n * n - 20.0 * deltaE * esinE))
  }

  /** How far the estimate `E` is from solving Kepler's equation: `E - e sin E - M`. */
  function KeplerResidual(m: Math, M: real, e: real, E: real): real {
    E - e * m.sin(E) - M
  }

  /** The denominator of the step from `E`. */
  function StepDenominatorAt(m: Math, M: real, e: real, E: real): real {
    StepDenominator(m, 1.0 - e * m.cos(E), KeplerResidual(m, M, e, E), e * m.sin(E))
  }

  /** One step of the elliptic solver from the estimate `E`. */
  function KeplerStep(m: Math, M: real, e: real, E: real): real {
    E + Div(-5.0 * KeplerResidual(m, M, e, E), StepDenominatorAt(m, M, e, E))
  }

  /** The estimate after `k` steps, starting from the mean anomaly. */
  function KeplerIterate(m: Math, M: real, e: real, k: nat): real {
    if k == 0 then M else KeplerStep(m, M, e, KeplerIterate(m, M, e, k - 1))
  }

  /** What `SolveKeplersEquation` returns: the estimate after `KeplerIterations(e)`
      steps (none when that count is not positive). */
  function KeplerSolution(m: Math, M: real, e: real): real {
    KeplerIterate(m, M, e, if KeplerIterations(e) > 0 then KeplerIterations(e) else 0)
  }

  /** For an elliptic eccentricity the solver runs 2, 4 or 6 steps. */
  lemma EllipticIterationCounts(e: real)
    requires 0.0 <= e < 1.0
    ensures KeplerIterations(e) == 2 || KeplerIterations(e) == 4 || KeplerIterations(e) == 6
  {
    var x := (e + 0.7) * 1.25;
    assert 0.875 <= x < 2.125;
    assert -3 <= (-x).Floor <= -1;
  }

  /** A step leaves an estimate where it is when the estimate solves Kepler's
      equation `E - e sin E = M`. */
  lemma KeplerStepFixesRoots(m: Math, M: real, e: real, E: real)
    ensures EllipticKepler(m, E, e) == M ==> KeplerStep(m, M, e, E) == E
  {
  }

  /** Conversely, a step with a non-zero denominator that leaves the estimate where it
      is has found a root: the fixed points of the step are exactly the roots. */
  lemma KeplerStepFixedOnlyAtRoots(m: Math, M: real, e: real, E: real)
    requires StepDenominatorAt(m, M, e, E) != 0.0
    requires KeplerStep(m, M, e, E) == E
    ensures EllipticKepler(m, E, e) == M
  {
    StepStaysOnlyAtZero(E, KeplerResidual(m, M, e, E), StepDenominatorAt(m, M, e, E));
  }

  /** A step `E + (-5 x) / d` with a non-zero denominator stays put only for `x = 0`. */
  lemma StepStaysOnlyAtZero(E: real, x: real, d: real)
    ensures d != 0.0 && E + Div(-5.0 * x, d) == E ==> x == 0.0
  {
    if d != 0.0 && E + Div(-5.0 * x, d) == E {
      assert (-5.0 * x) / d == 0.0;
      assert -5.0 * x == ((-5.0 * x) / d) * d;
    }
  }

  /** The solver starts from the mean anomaly itself, so when that is already a root
      (`e sin M = 0`: a circle, or an apsis) every step leaves it where it is. */
  lemma {:induction false} KeplerRootIsFixed(m: Math, M: real, e: real, k: nat)
    ensures EllipticKepler(m, M, e) == M ==> KeplerIterate(m, M, e, k) == M
  {
    if k > 0 {
      KeplerRootIsFixed(m, M, e, k - 1);
      KeplerStepFixesRoots(m, M, e, M);
    }
  }

  /** The solver loop of Kepler/Utils.cs:48-66. */
  method SolveKeplersEquation(m: Math, M: real, e: real) returns (E: real)
    ensures E == KeplerSolution(m, M, e)
  {
    var iterations := 2 * Ceil((e + 0.7) * 1.25);
    E := M;
    var i := 0;
    while i < iterations
      invariant 0 <= i
      invariant iterations > 0 ==> i <= iterations
      invariant iterations <= 0 ==> i == 0
      invariant E == KeplerIterate(m, M, e, i)
    {
      E := KeplerStep(m, M, e, E);
      i := i + 1;
    }
  }

  // ---------------------------------------------------------------------------
  // Hyperbolic case: Newton's method until the last step is within tolerance.

  /** What the hyperbolic solver hands back: the root, the last Newton step taken
      (1 when none was), and whether the source would have returned at all within
      `HyperbolicFuel` steps. */
  datatype HyperbolicResult = HyperbolicResult(root: real, lastDelta: real, returned: bool)

  /** The loop condition `delta > 1e-8 || delta < -1e-8`, negated. */
  predicate WithinTolerance(delta: real) {
    !(delta > HyperbolicTolerance || delta < -HyperbolicTolerance)
  }

  /** The initial guess `log(2|M|/e + 1.8)` is a finite number exactly when the
      logarithm's argument is a positive finite number. */
  predicate InitialGuessFinite(M: real, e: real) {
    e != 0.0 && Div(2.0 * Abs(M), e) + 1.8 > 0.0
  }

  /** The initial estimate `log(2|M|/e + 1.8)`. */
  function InitialGuess(m: Math, M: real, e: real): real {
    m.log(Div(2.0 * Abs(M), e) + 1.8)
  }

  /** The Newton step at `F`. */
  function HyperbolicDelta(m: Math, M: real, e: real, F: real): real {
    Div(e * m.sinh(F) - F - M, e * m.cosh(F) - 1.0)
  }

  /** The loop from the estimate `F` and the last step `delta`, with `fuel` steps left. */
  function HyperbolicNewton(m: Math, M: real, e: real, F: real, delta: real, fuel: nat): (r: HyperbolicResult)
    ensures r.returned ==> WithinTolerance(r.lastDelta)
    ensures r.returned && !WithinTolerance(delta) ==>
      r.lastDelta == HyperbolicDelta(m, M, e, r.root + r.lastDelta)
    decreases fuel
  {
    if WithinTolerance(delta) then HyperbolicResult(F, delta, true)
    else if fuel == 0 then HyperbolicResult(F, delta, false)
    else
      var d := HyperbolicDelta(m, M, e, F);
      HyperbolicNewton(m, M, e, F - d, d, fuel - 1)
  }

  /** One turn of the loop: a step outside the tolerance, with fuel left, moves the
      estimate `F` to `F'` by the Newton step `delta'`. */
  lemma NewtonStep(m: Math, M: real, e: real, F: real, delta: real, fuel: nat, F': real, delta': real)
    requires !WithinTolerance(delta) && fuel > 0
    requires delta' == HyperbolicDelta(m, M, e, F) && F' == F - delta'
    ensures HyperbolicNewton(m, M, e, F, delta, fuel) == HyperbolicNewton(m, M, e, F', delta', fuel - 1)
  {
  }

  /** The loop stops once the last step is within tolerance or the fuel is spent. */
  lemma NewtonDone(m: Math, M: real, e: real, F: real, delta: real, fuel: nat)
    requires WithinTolerance(delta) || fuel == 0
    ensures HyperbolicNewton(m, M, e, F, delta, fuel) == HyperbolicResult(F, delta, WithinTolerance(delta))
  {
  }

  /** What `KeplerSolverHyperbolicCase` returns. */
  function HyperbolicSolution(m: Math, M: real, e: real): HyperbolicResult {
    if !InitialGuessFinite(M, e) then HyperbolicResult(M, 1.0, true)
    else HyperbolicNewton(m, M, e, InitialGuess(m, M, e), 1.0, HyperbolicFuel)
  }

  /** Without a finite initial guess the solver hands back `M` itself; otherwise, when
      it returns, its last step is within tolerance and is the Newton step taken at
      the point it came from. */
  lemma HyperbolicSolutionReturns(m: Math, M: real, e: real)
    ensures !InitialGuessFinite(M, e) ==> HyperbolicSolution(m, M, e).root == M && HyperbolicSolution(m, M, e).returned
    ensures InitialGuessFinite(M, e) && HyperbolicSolution(m, M, e).returned ==>
      var r := HyperbolicSolution(m, M, e);
      WithinTolerance(r.lastDelta) && r.lastDelta == HyperbolicDelta(m, M, e, r.root + r.lastDelta)
  {
    assert !WithinTolerance(1.0);
    if InitialGuessFinite(M, e) {
      var r := HyperbolicNewton(m, M, e, InitialGuess(m, M, e), 1.0, HyperbolicFuel);
      assert HyperbolicSolution(m, M, e) == r;
    }
  }

  /** A run that returned is not changed by granting it more steps, so the fuel bound
      only matters for runs that the source would never finish. */
  lemma {:induction false} HyperbolicFuelMonotone(m: Math, M: real, e: real, F: real, delta: real, fuel: nat, more: nat)
    requires HyperbolicNewton(m, M, e, F, delta, fuel).returned
    requires fuel <= more
    ensures HyperbolicNewton(m, M, e, F, delta, more) == HyperbolicNewton(m, M, e, F, delta, fuel)
    decreases fuel
  {
    if !WithinTolerance(delta) {
      var d := HyperbolicDelta(m, M, e, F);
      HyperbolicFuelMonotone(m, M, e, F - d, d, fuel - 1, more - 1);
    }
  }

  /** The solver loop of Kepler/Utils.cs:26-43, cut off after `HyperbolicFuel` steps. */
  method KeplerSolverHyperbolicCase(m: Math, M: real, e: real) returns (r: HyperbolicResult)
    ensures r == HyperbolicSolution(m, M, e)
  {
    var delta := 1.0;
    if !InitialGuessFinite(M, e) {
      return HyperbolicResult(M, delta, true);
    }
    var F := InitialGuess(m, M, e);
    var fuel := HyperbolicFuel;
    while (delta > HyperbolicTolerance || delta < -HyperbolicTolerance) && fuel > 0
      invariant HyperbolicNewton(m, M, e, F, delta, fuel) == HyperbolicSolution(m, M, e)
    {
      ghost var F0, delta0, fuel0 := F, delta, fuel;
      delta := HyperbolicDelta(m, M, e, F);
      F := F - delta;
      fuel := fuel - 1;
      NewtonStep(m, M, e, F0, delta0, fuel0, F, delta);
    }
    NewtonDone(m, M, e, F, delta, fuel);
    r := HyperbolicResult(F, delta, WithinTolerance(delta));
  }

  // ---------------------------------------------------------------------------
  // Anomaly conversions.

  /** `ConvertMeanToEccentricAnomaly`: the elliptic solver, the hyperbolic solver, or
      the closed form of Barker's equation. */
  function ConvertMeanToEccentricAnomaly(m: Math, M: real, e: real): (r: real)
    ensures e < 1.0 && EllipticKepler(m, M, e) == M ==> r == M
    ensures e == 0.0 ==> r == M
  {
    if e < 1.0 then
      KeplerRootIsFixed(m, M, e, if KeplerIterations(e) > 0 then KeplerIterations(e) else 0);
      KeplerSolution(m, M, e)
    else if e > 1.0 then HyperbolicSolution(m, M, e).root
    else
      var mm := M * 2.0;
      var v := 12.0 * mm + 4.0 * m.sqrt(4.0 + 9.0 * mm * mm);
      var pow := m.pow(v, 1.0 / 3.0);
      var t := 0.5 * pow - Div(2.0, pow);
      2.0 * m.atan(t)
  }

  /** Kepler's equation on an ellipse, `E - e sin E`. */
  function EllipticKepler(m: Math, E: real, e: real): real {
    E - e * m.sin(E)
  }

  /** Kepler's equation on a hyperbola, `sinh(E) e - E`. */
  function HyperbolicKepler(m: Math, E: real, e: real): real {
    m.sinh(E) * e - E
  }

  /** `ConvertEccentricToMeanAnomaly`: Kepler's equation for the regime. */
  function ConvertEccentricToMeanAnomaly(m: Math, E: real, e: real): (r: real)
    ensures m.AtZero() && E == 0.0 ==> r == 0.0
  {
    if e < 1.0 then EllipticKepler(m, E, e)
    else if e > 1.0 then HyperbolicKepler(m, E, e)
    else
      var t := m.tan(E * 0.5);
      (t + t * t * t / 3.0) * 0.5
  }

  /** On an ellipse, a mean anomaly that Kepler's equation already maps to itself is
      returned unchanged by the solver: converting it to an eccentric anomaly is
      then the inverse of converting back. */
  lemma EllipticRootRoundTrip(m: Math, M: real, e: real)
    requires e < 1.0
    requires ConvertEccentricToMeanAnomaly(m, M, e) == M
    ensures ConvertMeanToEccentricAnomaly(m, M, e) == M
    ensures ConvertEccentricToMeanAnomaly(m, ConvertMeanToEccentricAnomaly(m, M, e), e) == M
  {
  }

  /** On an ellipse, mean anomaly 0 is eccentric anomaly 0 and back. */
  lemma EllipticZeroRoundTrip(m: Math, e: real)
    requires m.AtZero() && e < 1.0
    ensures ConvertMeanToEccentricAnomaly(m, 0.0, e) == 0.0
  {
    EllipticRootRoundTrip(m, 0.0, e);
  }

  /** For |e| < 1 and a cosine `c`, the ratio (e + c) / (1 + e c) is a cosine again:
      its denominator is positive and it lies in [-1, 1]. */
  lemma CosineRatioInRange(e: real, c: real)
    ensures -1.0 < e < 1.0 && -1.0 <= c <= 1.0 ==>
      1.0 + e * c > 0.0 && -1.0 <= Div(e + c, 1.0 + e * c) <= 1.0
  {
    if -1.0 < e < 1.0 && -1.0 <= c <= 1.0 {
      var d := 1.0 + e * c;
      ProductNonNegative(1.0 - e, 1.0 - c);
      ProductNonNegative(1.0 + e, 1.0 + c);
      assert (1.0 - e) * (1.0 - c) == 1.0 - e - c + e * c;
      assert (1.0 + e) * (1.0 + c) == 1.0 + e + c + e * c;
      assert -d <= e + c <= d;
      UnitQuotient(e + c, d);
    }
  }

  /** The same for the ratio (c - e) / (1 - e c) of the opposite conversion. */
  lemma CosineRatioInRangeMinus(e: real, c: real)
    ensures -1.0 < e < 1.0 && -1.0 <= c <= 1.0 ==>
      1.0 - e * c > 0.0 && -1.0 <= Div(c - e, 1.0 - e * c) <= 1.0
  {
    if -1.0 < e < 1.0 && -1.0 <= c <= 1.0 {
      var d := 1.0 - e * c;
      ProductNonNegative(1.0 - e, 1.0 + c);
      ProductNonNegative(1.0 + e, 1.0 - c);
      assert (1.0 - e) * (1.0 + c) == 1.0 - e + c - e * c;
      assert (1.0 + e) * (1.0 - c) == 1.0 + e - c - e * c;
      assert -d <= c - e <= d;
      UnitQuotient(c - e, d);
    }
  }

  lemma UnitQuotient(n: real, d: real)
    requires d > 0.0 && -d <= n <= d
    ensures -1.0 <= n / d <= 1.0
  {
    BelowQuotient(n, d, 1.0);
    BelowQuotient(n, d, -1.0);
  }

  /** `ConvertTrueToEccentricAnomaly`. The NaN/infinity guard on the eccentricity is
      not reachable on reals. */
  function ConvertTrueToEccentricAnomaly(m: Math, T: real, e: real): (r: real)
    ensures m.Ranges() && 0.0 <= e < 1.0 ==> 0.0 <= r <= PI_2
    ensures m.Ranges() && e > 1.0 ==> (T >= 0.0 ==> r >= 0.0) && (T <= 0.0 ==> r <= 0.0)
    ensures e == 1.0 ==> -PI_2 < r < PI_2 && (-PI_2 < T < PI_2 ==> r == T)
  {
    FRemBounds(T, PI_2);
    var t := FRem(T, PI_2);
    if e < 1.0 then
      var t2 := if t < 0.0 then t + PI_2 else t;
      var cosT2 := m.cos(t2);
      var eccAnom := m.acos(Div(e + cosT2, 1.0 + e * cosT2));
      CosineRatioInRange(e, cosT2);
      if t2 > MathPI then PI_2 - eccAnom else eccAnom
    else if e > 1.0 then
      var cosT := m.cos(t);
      var a := Acosh(m, Div(e + cosT, 1.0 + e * cosT));
      SignScales(a, t);
      a * (Sign(t) as real)
    else
      t
  }

  /** `ConvertEccentricToTrueAnomaly`. Note the comparison with `Utils.PI` here where
      the opposite conversion compares with `Math.PI`. */
  function ConvertEccentricToTrueAnomaly(m: Math, E: real, e: real): (r: real)
    ensures m.Ranges() && 0.0 <= e < 1.0 ==> 0.0 <= r <= PI_2
    ensures e == 1.0 ==> r == E
  {
    if e < 1.0 then
      var cosE := m.cos(E);
      var tAnom := m.acos(Div(cosE - e, 1.0 - e * cosE));
      CosineRatioInRangeMinus(e, cosE);
      if E > PI then PI_2 - tAnom else tAnom
    else if e > 1.0 then
      m.atan2(m.sqrt(e * e - 1.0) * m.sinh(E), e - m.cosh(E))
    else
      E
  }

  /** `CalcTrueAnomalyForDistance`: the true anomaly at which the orbit is `distance`
      from the focus, by the conic equation of the regime. */
  function CalcTrueAnomalyForDistance(m: Math, distance: real, e: real, a: real, periapsis: real): (r: real)
    ensures m.Ranges() && e == 1.0 && 0.0 <= periapsis <= 2.0 * distance ==> 0.0 <= r <= MathPI
  {
    if e < 1.0 then m.acos(Div(a * (1.0 - e * e) - distance, distance * e))
    else if e > 1.0 then m.acos(Div(a * (e * e - 1.0) - distance, distance * e))
    else
      ParabolicCosineInRange(periapsis, distance);
      m.acos(Div(periapsis, distance) - 1.0)
  }

  /** The parabola's cosine `q / d - 1` lies in [-1, 1] once the distance is at least
      half the periapsis distance. */
  lemma ParabolicCosineInRange(q: real, d: real)
    ensures 0.0 <= q <= 2.0 * d ==> -1.0 <= Div(q, d) - 1.0 <= 1.0
  {
    if 0.0 <= q <= 2.0 * d && d > 0.0 {
      BelowQuotient(q, d, 0.0);
      BelowQuotient(q, d, 2.0);
    }
  }

  /** Only the parabolic formula reads the periapsis distance, and it alone ignores the
      semi-major axis. */
  lemma TrueAnomalyForDistanceInputs(m: Math, distance: real, e: real, a: real, a': real, q: real, q': real)
    ensures e != 1.0 ==> CalcTrueAnomalyForDistance(m, distance, e, a, q) == CalcTrueAnomalyForDistance(m, distance, e, a, q')
    ensures e == 1.0 ==> CalcTrueAnomalyForDistance(m, distance, e, a, q) == CalcTrueAnomalyForDistance(m, distance, e, a', q)
  {
  }
}
