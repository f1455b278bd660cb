/** Numeric conventions shared by the orbit code: the constants it declares, the C#
    arithmetic that differs from Dafny's (truncating casts, the remainder operator on
    doubles, `Math.Clamp`, `Math.Sign`), the +infinity sentinel, and the transcendental
    functions, which are not computed but passed around as a `Math` record about which
    only range and zero facts are assumed (`Math.Lawful`). */
module Numerics {
  import opened Vectors

  /** `Math.PI` of the runtime. */
  const MathPI: real := 3.141592653589793
  /** The constants of Kepler/Utils.cs (`Utils.PI`, `Utils.PI_2`, `Utils.Deg2Rad`). */
  const PI: real := 3.14159265358979
  const PI_2: real := 6.2831853071796
  const Deg2Rad: real := 0.017453292519943
  /** `double.MaxValue`. */
  const DoubleMax: real := 1.7976931348623157e308

  /** A double that is either finite or the +infinity sentinel. */
  datatype Ext = Finite(value: real) | Infinity

  /** `x > 0` on a double that may be +infinity. */
  predicate ExtPositive(x: Ext) {
    x.Infinity? || x.value > 0.0
  }

  /** Division; a zero divisor (IEEE infinity or NaN) is modelled as 0. */
  function Div(a: real, b: real): real {
    if b == 0.0 then 0.0 else a / b
  }

  /** `Vector3d / double`, component by component. */
  function VDiv(a: Vector3d, k: real): Vector3d {
    Vector3d(Div(a.x, k), Div(a.y, k), Div(a.z, k))
  }

  /** Dividing a vector divides its dot products. */
  lemma DotQuotient(a: Vector3d, b: Vector3d, k: real)
    ensures Dot(VDiv(a, k), b) == Div(Dot(a, b), k)
  {
    if k != 0.0 {
      assert (a.x / k) * b.x == (a.x * b.x) / k;
      assert (a.y / k) * b.y == (a.y * b.y) / k;
      assert (a.z / k) * b.z == (a.z * b.z) / k;
    }
  }

  /** `x * x` */
  function Square(x: real): real {
    x * x
  }

  /** `x * x * x` */
  function Cube(x: real): real {
    x * x * x
  }

  function Abs(x: real): real {
    if x < 0.0 then -x else x
  }

  /** The C# cast `(int)x`, which truncates toward zero. */
  function Trunc(x: real): int {
    if x >= 0.0 then x.Floor else -((-x).Floor)
  }

  /** `Math.Ceiling` followed by `(int)`. */
  function Ceil(x: real): int {
    -((-x).Floor)
  }

  /** The C# remainder `x % y` on doubles: the sign follows the dividend. */
  function FRem(x: real, y: real): real
    requires y > 0.0
  {
    x - (Trunc(x / y) as real) * y
  }

  /** `Math.Clamp(x, lo, hi)` */
  function Clamp(x: real, lo: real, hi: real): real
    requires lo <= hi
  {
    if x < lo then lo else if x > hi then hi else x
  }

  /** `Math.Sign(x)` */
  function Sign(x: real): int {
    if x > 0.0 then 1 else if x < 0.0 then -1 else 0
  }

  /** A non-negative number scaled by the sign of `x` has the sign of `x`. */
  lemma SignScales(a: real, x: real)
    ensures a >= 0.0 && x >= 0.0 ==> a * (Sign(x) as real) >= 0.0
    ensures a >= 0.0 && x <= 0.0 ==> a * (Sign(x) as real) <= 0.0
  {
  }

  /** The source's idiom `a %= PI_2; if (a < 0) a += PI_2;` */
  function WrapAngle(a: real): real {
    var r := FRem(a, PI_2);
    if r < 0.0 then r + PI_2 else r
  }

  /** The remainder is smaller than the divisor and has the dividend's sign. */
  lemma FRemBounds(x: real, y: real)
    requires y > 0.0
    ensures x >= 0.0 ==> 0.0 <= FRem(x, y) < y
    ensures x < 0.0 ==> -y < FRem(x, y) <= 0.0
    ensures x == (Trunc(x / y) as real) * y + FRem(x, y)
    ensures -y < x < y ==> FRem(x, y) == x
  {
    var q := x / y;
    var t := Trunc(q) as real;
    QuotientSign(x, y);
    BelowQuotient(x, y, 1.0);
    BelowQuotient(x, y, -1.0);
    if x >= 0.0 {
      assert t <= q < t + 1.0;
      BelowQuotient(x, y, t);
      BelowQuotient(x, y, t + 1.0);
      Distribute(t, -1.0, y);
    } else {
      assert t - 1.0 < q <= t;
      BelowQuotient(x, y, t);
      BelowQuotient(x, y, t - 1.0);
      Distribute(t, 1.0, y);
    }
  }

  lemma QuotientTimesDivisor(x: real, y: real)
    requires y != 0.0
    ensures (x / y) * y == x
  {
  }

  lemma QuotientSign(x: real, y: real)
    requires y > 0.0
    ensures x >= 0.0 ==> x / y >= 0.0
    ensures x < 0.0 ==> x / y < 0.0
  {
  }

  /** The sign of a quotient, for divisors of either sign. */
  lemma QuotientSigns(x: real, y: real)
    ensures x > 0.0 && y > 0.0 ==> Div(x, y) > 0.0
    ensures x < 0.0 && y < 0.0 ==> Div(x, y) > 0.0
    ensures x > 0.0 && y < 0.0 ==> Div(x, y) < 0.0
    ensures x < 0.0 && y > 0.0 ==> Div(x, y) < 0.0
  {
    if y < 0.0 {
      assert x / y == (-x) / (-y);
      QuotientSign(-x, -y);
    } else if y > 0.0 {
      QuotientSign(x, y);
    }
  }

  /** For a positive divisor, `t <= x / y` exactly when `t * y <= x`. */
  lemma BelowQuotient(x: real, y: real, t: real)
    requires y > 0.0
    ensures t <= x / y <==> t * y <= x
    ensures t < x / y <==> t * y < x
  {
  }

  lemma Distribute(a: real, b: real, y: real)
    ensures a * y - b * y == (a - b) * y
  {
  }

  /** A fraction in [0, 1) of a positive quantity stays below it. */
  lemma ScaleBelow(f: real, p: real)
    requires 0.0 <= f < 1.0 && p > 0.0
    ensures 0.0 <= f * p < p
  {
  }

  lemma ProductNonNegative(a: real, b: real)
    requires a >= 0.0 && b >= 0.0
    ensures a * b >= 0.0
  {
  }

  /** The wrapped angle always lies in [0, 2pi). */
  lemma WrapAngleBounds(a: real)
    ensures 0.0 <= WrapAngle(a) < PI_2
  {
    FRemBounds(a, PI_2);
  }

  /** The number of whole turns `WrapAngle` removes. */
  function WrapTurns(a: real): int {
    if FRem(a, PI_2) < 0.0 then Trunc(a / PI_2) - 1 else Trunc(a / PI_2)
  }

  /** The wrapped angle differs from the angle by whole turns. */
  lemma WrapAngleTurns(a: real)
    ensures a == WrapAngle(a) + (WrapTurns(a) as real) * PI_2
  {
    FRemBounds(a, PI_2);
  }

  /** Two angles in [0, 2pi) that differ by whole turns are equal. */
  lemma SameTurn(w1: real, w2: real, j: int)
    requires 0.0 <= w1 < PI_2 && 0.0 <= w2 < PI_2
    requires w1 - w2 == (j as real) * PI_2
    ensures j == 0 && w1 == w2
  {
  }

  /** Adding whole turns does not change the wrapped angle. */
  lemma WrapAngleShift(a: real, k: int)
    ensures WrapAngle(a + (k as real) * PI_2) == WrapAngle(a)
  {
    var b := a + (k as real) * PI_2;
    WrapAngleTurns(a);
    WrapAngleTurns(b);
    WrapAngleBounds(a);
    WrapAngleBounds(b);
    SameTurn(WrapAngle(b), WrapAngle(a), WrapTurns(a) + k - WrapTurns(b));
  }

  /** Wrapping an intermediate sum does not change the wrapped total. */
  lemma WrapAngleAbsorbs(x: real, y: real)
    ensures WrapAngle(WrapAngle(x) + y) == WrapAngle(x + y)
  {
    WrapAngleTurns(x);
    assert WrapAngle(x) + y == (x + y) + ((-WrapTurns(x)) as real) * PI_2;
    WrapAngleShift(x + y, -WrapTurns(x));
  }

  /** Equal arguments give equal values; stated so that the solver applies it to
      arguments it only knows to be arithmetically equal. */
  lemma Congruence(g: real -> real, x: real, y: real)
    requires x == y
    ensures g(x) == g(y)
  {
  }

  /** The transcendental functions and vector norms of the runtime (`Math.*`,
      `Vector3d.magnitude`, `.normalized`, `Vector3d.Angle`), as values. */
  datatype Math = Math(
    sin: real -> real, cos: real -> real, tan: real -> real,
    sinh: real -> real, cosh: real -> real,
    acos: real -> real, atan: real -> real, atan2: (real, real) -> real,
    sqrt: real -> real, log: real -> real, pow: (real, real) -> real,
    magnitude: Vector3d -> real, normalized: Vector3d -> Vector3d,
    angle: (Vector3d, Vector3d) -> real)
  {
    /** Ranges of the exact real functions. */
    ghost predicate Ranges() {
      && (forall x :: -1.0 <= sin(x) <= 1.0)
      && (forall x :: -1.0 <= cos(x) <= 1.0)
      && (forall x :: -1.0 <= x <= 1.0 ==> 0.0 <= acos(x) <= MathPI)
      && (forall x :: x >= 0.0 ==> sqrt(x) >= 0.0)
      && (forall x :: x > 0.0 ==> sqrt(x) > 0.0)
      && (forall x :: x >= 1.0 ==> log(x) >= 0.0)
      && (forall x, y :: x > 0.0 ==> pow(x, y) > 0.0)
      && (forall v :: magnitude(v) >= 0.0)
      && (forall v :: -1.0 <= normalized(v).x <= 1.0 && -1.0 <= normalized(v).y <= 1.0 && -1.0 <= normalized(v).z <= 1.0)
      && (forall a, b :: 0.0 <= angle(a, b) <= 180.0)
    }

    /** Values at zero (and `sqrt 1`, `acos 1`, `pow(1, y)`) of the exact real functions. */
    ghost predicate AtZero() {
      && sin(0.0) == 0.0 && cos(0.0) == 1.0 && tan(0.0) == 0.0
      && sinh(0.0) == 0.0 && cosh(0.0) == 1.0
      && sqrt(0.0) == 0.0 && sqrt(1.0) == 1.0 && acos(1.0) == 0.0
      && (forall y :: pow(1.0, y) == 1.0)
      && magnitude(Zero) == 0.0
      && normalized(Zero) == Zero
    }

    /** The square root squares back. */
    ghost predicate SqrtSquares() {
      forall x :: x >= 0.0 ==> sqrt(x) * sqrt(x) == x
    }

    /** Normalising keeps the direction: the result is parallel to its argument. */
    ghost predicate NormalizedParallel() {
      forall v :: Cross(normalized(v), v) == Zero
    }

    /** Two normalised vectors have a dot product in [-1, 1] (Cauchy-Schwarz). */
    ghost predicate NormalizedDots() {
      forall a, b :: -1.0 <= Dot(normalized(a), normalized(b)) <= 1.0
    }

    /** Every fact assumed of the runtime's functions; none is about accuracy. */
    ghost predicate Lawful() {
      Ranges() && AtZero() && SqrtSquares() && NormalizedParallel() && NormalizedDots()
    }
  }
}
