# Patched-conic orbits, spheres of influence and simulation time, in Dafny

This project models the core of a Unity solar-system simulator written in C#. Bodies
follow Kepler orbits. A rocket flying among them is handled with patched conics: the
body whose sphere of influence (SOI) holds the rocket becomes the centre of the
frame, and the bodies between it and the root are re-parented so that each orbits
the next one inward. A time-warp service scales simulation time. An epoch service
keeps the simulation clock.

The model has four parts.

- **Orbit state and its calculators** (`OrbitState`, `OrbitAnomaly`, `OrbitPosition`,
  `OrbitVectors`, `OrbitElements`, `KeplerUtils`, `LegacyOrbit`).
  - `OrbitData` is a class whose fields the calculators rewrite in place. `OrbitFields` is its value, a snapshot.
  - Each calculator method is proved against a function on the snapshot that performs the same field updates.
  - Lemmas then state what the resulting orbit satisfies:
    - the regime split e < 1, e > 1, e = 1;
    - the +infinity sentinels of open orbits;
    - the wrapping of the mean anomaly;
    - the plane of positions and velocities;
    - which fields each operation writes;
    - the composition of time steps;
    - the agreement between a time step and setting the mean anomaly.
  - Transcendental functions and vector norms are not computed. They are fields of a `Math` record passed to every operation. Only range and zero facts about them are assumed, as hypotheses of the lemmas that need them.
- **The two sphere-of-influence controllers and their tree nodes**.
  - `SoiChain` and `SoiNode` model `Services/SphereOfInfluence/`.
  - `SoiInvert` and `BodyNode` model the later variant in `Services/SOIController.cs` and `Services/Interfaces/`.
  - Shared pieces are stated once, over plain values: the closest-body scan, the parent query and walk, and the two-pass tree construction (`SoiTree`); the scene and the loops over movers (`SoiScene`); list updates (`Lists`).
  - The controllers are classes holding the node dictionary (a map plus the insertion order of its keys), the roots, the snapshots and the previous chain.
  - Every method is proved against a function of the old state. The lemmas state what the source promises:
    - every body is placed once in the tree;
    - detection picks the strictly closest covering body;
    - a chain runs from a root down to the detected body without repeats;
    - snapshots are taken once and never overwritten;
    - with `enabled` as a plain flag (re-enabling runs no `OnEnable`), a switch applied and then undone gives every body its saved orbit back.
- **Time warp** (`TimeWarp`, `TestTimeWarp`).
  - The warp ladder is stepped with the `,` and `.` keys.
  - A one-second blend runs between time scales, and listeners are notified of every new scale and gravitational constant.
  - There is also the simpler test controller that writes the engine's time scale directly.
- **Epoch** (`Epoch`).
  - The clock advances by scaled frame time and is set from a slider or from typed calendar fields.
  - It is shown as years, days, hours, minutes and seconds. Those fields add back up to the epoch, and in their usual ranges they determine it.

Listeners are external code. A notification is recorded as a `Call` value in the order it would be made, and the listener is not run.

## Model

| member | source | states |
|---|---|---|
| `OrbitState.OrbitData.constructor` | Assets/Scripts/Gravity/Kepler/OrbitData.cs:6-36 | a new orbit has every field at its default: zeros, a gravitational constant of 1 |
| `OrbitState.IsValidOrbit` | Assets/Scripts/Gravity/Kepler/OrbitData.cs:113-121 | a valid orbit has a non-zero period and attractor mass, and on a closed orbit with a finite period its current orbit time lies within one period |
| `OrbitState.ValidOrbitCases` | Assets/Scripts/Gravity/Kepler/OrbitData.cs:113-121 | a new orbit is not valid; validity needs a non-negative eccentricity, a positive period (an infinite one counts) and a positive attractor mass |
| `OrbitState.GetCurrentOrbitTime` | Assets/Scripts/Gravity/Kepler/OrbitData.cs:51-68 | on an ellipse with a finite positive period the time lies within one period, otherwise 0; on an open orbit with positive mean motion the time times the mean motion is the mean anomaly, otherwise 0 |
| `OrbitState.TimeWithinPeriod` | Assets/Scripts/Gravity/Kepler/OrbitData.cs:57-59 | the wrapped mean anomaly as a fraction of a turn places the time within one period |
| `OrbitState.TimeAtMeanMotion` | Assets/Scripts/Gravity/Kepler/OrbitData.cs:65 | the open-orbit time is the one the mean motion turns back into the mean anomaly |
| `OrbitState.Inclination` | Assets/Scripts/Gravity/Kepler/OrbitData.cs:75-82 | the inclination lies in [0, pi] |
| `OrbitState.AscendingNodeLongitude` | Assets/Scripts/Gravity/Kepler/OrbitData.cs:85-96 | the longitude of the ascending node lies in [0, 2 pi] |
| `OrbitState.ArgumentOfPerifocus` | Assets/Scripts/Gravity/Kepler/OrbitData.cs:99-110 | the argument of periapsis lies in [0, 2 pi] |
| `OrbitAnomaly.GetVelocityAtTrueAnomaly` | Assets/Scripts/Gravity/Kepler/Calculators/OrbitAnomalyCalculator.cs:102-110 | without a positive focal parameter the velocity is zero |
| `OrbitAnomaly.VelocityInPlane` | Assets/Scripts/Gravity/Kepler/Calculators/OrbitAnomalyCalculator.cs:102-110 | the velocity lies in the orbital plane spanned by the two axis bases |
| `OrbitAnomaly.VelocityDependsOnConic` | Assets/Scripts/Gravity/Kepler/Calculators/OrbitAnomalyCalculator.cs:102-110 | the velocity reads only the eccentricity, the focal parameter, the attractor's gravitational parameter and the axis bases |
| `OrbitAnomaly.WithPosition` | Assets/Scripts/Gravity/Kepler/Calculators/OrbitAnomalyCalculator.cs:90-93 | setting the position stores the focal position at the current eccentric anomaly and changes nothing else |
| `OrbitAnomaly.WithVelocity` | Assets/Scripts/Gravity/Kepler/Calculators/OrbitAnomalyCalculator.cs:96-99 | setting the velocity stores the velocity at the current eccentric anomaly and changes nothing else |
| `OrbitAnomaly.WithMotion` | Assets/Scripts/Gravity/Kepler/Calculators/OrbitAnomalyCalculator.cs:33-34 | both setters bring position and velocity in line with the anomaly, whatever they were, and change nothing else |
| `OrbitAnomaly.MotionIgnoresOldMotion` | Assets/Scripts/Gravity/Kepler/Calculators/OrbitAnomalyCalculator.cs:90-99 | the recomputed position and velocity do not depend on the previous ones |
| `OrbitAnomaly.MotionIgnoresTrueAnomaly` | Assets/Scripts/Gravity/Kepler/Calculators/OrbitAnomalyCalculator.cs:90-99 | position and velocity do not read the stored true anomaly |
| `OrbitAnomaly.SetPositionByCurrentAnomaly` | Assets/Scripts/Gravity/Kepler/Calculators/OrbitAnomalyCalculator.cs:90-93 | the method leaves the orbit in the state `WithPosition` describes |
| `OrbitAnomaly.SetVelocityByCurrentAnomaly` | Assets/Scripts/Gravity/Kepler/Calculators/OrbitAnomalyCalculator.cs:96-99 | the method leaves the orbit in the state `WithVelocity` describes |
| `OrbitAnomaly.StepTrueAnomaly` | Assets/Scripts/Gravity/Kepler/Calculators/OrbitAnomalyCalculator.cs:14-16 | on an ellipse the true anomaly lies in [0, pi] before the half-turn of mean anomaly and in [pi, 2 pi] past it |
| `OrbitAnomaly.StepTrueAnomalyIsConversion` | Assets/Scripts/Gravity/Kepler/Calculators/OrbitAnomalyCalculator.cs:14-16 | the time step's true anomaly is the general eccentric-to-true conversion whenever mean and eccentric anomaly lie on the same side of the half-turn |
| `OrbitAnomaly.SteppedMeanAnomaly` | Assets/Scripts/Gravity/Kepler/Calculators/OrbitAnomalyCalculator.cs:10-12 | on an ellipse the stepped mean anomaly lies in [0, 2 pi); on an open orbit it is the advanced value unwrapped |
| `OrbitAnomaly.SweptAdds` | Assets/Scripts/Gravity/Kepler/Calculators/OrbitAnomalyCalculator.cs:10 | the mean anomaly swept over two steps adds up |
| `OrbitAnomaly.SteppedAnomalies` | Assets/Scripts/Gravity/Kepler/Calculators/OrbitAnomalyCalculator.cs:8-32 | a time step's anomaly part changes only the three anomalies |
| `OrbitAnomaly.TimeStepProperties` | Assets/Scripts/Gravity/Kepler/Calculators/OrbitAnomalyCalculator.cs:6-35 | a time step leaves position and velocity matching the new anomaly and changes nothing else; the elliptic mean anomaly ends in [0, 2 pi); the open one moves by exactly the mean motion times the step; on a parabola true and eccentric anomaly agree |
| `OrbitAnomaly.UpdateOrbitAnomaliesByTime` | Assets/Scripts/Gravity/Kepler/Calculators/OrbitAnomalyCalculator.cs:6-35 | the method leaves the orbit in the state `UpdatedByTime` describes |
| `OrbitAnomaly.StepAnomalies` | Assets/Scripts/Gravity/Kepler/Calculators/OrbitAnomalyCalculator.cs:8-32 | the anomaly part of the method stores the stepped anomalies |
| `OrbitAnomaly.StepValues` | Assets/Scripts/Gravity/Kepler/Calculators/OrbitAnomalyCalculator.cs:8-32 | the three anomalies of a step are the wrapped mean anomaly, the solver's eccentric anomaly and its conversion |
| `OrbitAnomaly.ZeroStepKeepsMeanAnomaly` | Assets/Scripts/Gravity/Kepler/Calculators/OrbitAnomalyCalculator.cs:10-12 | a zero step keeps the mean anomaly of an open orbit, and of an ellipse once it lies in [0, 2 pi) |
| `OrbitAnomaly.SteppedAnomaliesOf` | Assets/Scripts/Gravity/Kepler/Calculators/OrbitAnomalyCalculator.cs:8-32 | the stepped anomalies depend on the advanced value only through the mean anomaly it wraps to |
| `OrbitAnomaly.SteppedMeanAnomalyOf` | Assets/Scripts/Gravity/Kepler/Calculators/OrbitAnomalyCalculator.cs:10-12 | equal advanced values wrap to equal mean anomalies |
| `OrbitAnomaly.SteppedAnomaliesIgnoreMotion` | Assets/Scripts/Gravity/Kepler/Calculators/OrbitAnomalyCalculator.cs:8-32 | the stepped anomalies do not read the previous anomalies, position or velocity |
| `OrbitAnomaly.SteppedMeanAnomalyAdds` | Assets/Scripts/Gravity/Kepler/Calculators/OrbitAnomalyCalculator.cs:10-12 | wrapping after each of two steps is wrapping once after both |
| `OrbitAnomaly.UpdatedFields` | Assets/Scripts/Gravity/Kepler/Calculators/OrbitAnomalyCalculator.cs:6-35 | a time step stores the wrapped advanced mean anomaly, keeps the mean motion, and changes only anomalies, position and velocity |
| `OrbitAnomaly.SteppedMeanAfterStep` | Assets/Scripts/Gravity/Kepler/Calculators/OrbitAnomalyCalculator.cs:10-29 | a second step of b reaches the mean anomaly a single step of a + b reaches |
| `OrbitAnomaly.TimeStepsCompose` | Assets/Scripts/Gravity/Kepler/Calculators/OrbitAnomalyCalculator.cs:6-35 | advancing by a and then by b gives the same orbit state as advancing by a + b, in every regime |
| `OrbitAnomaly.SetMeanAnomalyValue` | Assets/Scripts/Gravity/Kepler/Calculators/OrbitAnomalyCalculator.cs:39-42 | the stored mean anomaly is the remainder by 2 pi, non-negative on an ellipse only; a value already in range is kept |
| `OrbitAnomaly.AnomaliesAt` | Assets/Scripts/Gravity/Kepler/Calculators/OrbitAnomalyCalculator.cs:39-55 | setting the mean anomaly changes only the three anomalies before the motion is recomputed |
| `OrbitAnomaly.MeanAnomalySet` | Assets/Scripts/Gravity/Kepler/Calculators/OrbitAnomalyCalculator.cs:37-58 | after setting, position and velocity match the anomaly, nothing else changes, the mean anomaly lies in range, and on a parabola true and eccentric anomaly agree |
| `OrbitAnomaly.SetMeanAnomaly` | Assets/Scripts/Gravity/Kepler/Calculators/OrbitAnomalyCalculator.cs:37-58 | the method leaves the orbit in the state `MeanAnomalySet` describes |
| `OrbitAnomaly.SetValues` | Assets/Scripts/Gravity/Kepler/Calculators/OrbitAnomalyCalculator.cs:39-55 | the three anomalies set are the remainder, the solver's eccentric anomaly for the regime, and its conversion |
| `OrbitAnomaly.SetMeanAnomalyIdempotent` | Assets/Scripts/Gravity/Kepler/Calculators/OrbitAnomalyCalculator.cs:37-58 | setting the same mean anomaly twice is setting it once |
| `OrbitAnomaly.SetMeanAnomalyPeriodic` | Assets/Scripts/Gravity/Kepler/Calculators/OrbitAnomalyCalculator.cs:39-44 | on an ellipse, mean anomalies a whole number of turns apart give the same state |
| `OrbitAnomaly.SteppedAnomaliesAreSet` | Assets/Scripts/Gravity/Kepler/Calculators/OrbitAnomalyCalculator.cs:8-13 | on an ellipse a time step and setting the mean anomaly wrap it alike and solve for the same eccentric anomaly |
| `OrbitAnomaly.UpdateAgreesWithSetMeanAnomaly` | Assets/Scripts/Gravity/Kepler/Calculators/OrbitAnomalyCalculator.cs:6-58 | on an ellipse a time step lands on the state that setting the advanced mean anomaly gives, except perhaps the true anomaly |
| `OrbitAnomaly.EllipticTrueAnomalyRange` | Assets/Scripts/Gravity/Kepler/Calculators/OrbitAnomalyCalculator.cs:14-44 | on an ellipse the true anomaly either operation keeps lies in [0, 2 pi] |
| `OrbitAnomaly.PositionTrueAnomaly` | Assets/Scripts/Gravity/Kepler/Calculators/OrbitAnomalyCalculator.cs:62-68 | the true anomaly read from the position lies in [0, 2 pi] |
| `OrbitAnomaly.CalculateMeanAnomalyFromPosition` | Assets/Scripts/Gravity/Kepler/Calculators/OrbitAnomalyCalculator.cs:60-87 | off the parabola, the mean anomaly is Kepler's equation at the eccentric anomaly of the position's true anomaly |
| `OrbitAnomaly.MeanAnomalyAtPeriapsis` | Assets/Scripts/Gravity/Kepler/Calculators/OrbitAnomalyCalculator.cs:60-87 | a body on the periapsis side of the major axis has mean anomaly 0 in every regime |
| `OrbitAnomaly.TrueToEccentricAtPeriapsis` | Assets/Scripts/Gravity/Kepler/Calculators/OrbitAnomalyCalculator.cs:73-83 | true anomaly 0 or a full turn converts to eccentric anomaly 0 in every regime |
| `OrbitPosition.GetCentralPositionAtEccentricAnomaly` | Assets/Scripts/Gravity/Kepler/Calculators/OrbitPositionCalculator.cs:12-38 | eccentric anomaly 0 is the periapsis: one semi-major axis along the major axis on an ellipse, one against it on a hyperbola, half the periapsis distance along it on a parabola |
| `OrbitPosition.GetFocalPositionAtEccentricAnomaly` | Assets/Scripts/Gravity/Kepler/Calculators/OrbitPositionCalculator.cs:6-9 | the focal position less the centre point is the central position |
| `OrbitPosition.GetCentralPositionAtTrueAnomaly` | Assets/Scripts/Gravity/Kepler/Calculators/OrbitPositionCalculator.cs:43-47 | on a parabola, for true anomalies strictly within one full turn either way, the position at a true anomaly is the one at the same eccentric anomaly |
| `OrbitPosition.GetFocalPositionAtTrueAnomaly` | Assets/Scripts/Gravity/Kepler/Calculators/OrbitPositionCalculator.cs:49-52 | the focal position less the centre point is the central position at the same true anomaly |
| `OrbitPosition.InPlaneIsPerpendicular` | Assets/Scripts/Gravity/Kepler/Calculators/OrbitPositionCalculator.cs:20-36 | any combination of the two axis bases is perpendicular to their cross product |
| `OrbitPosition.CentralPositionInPlane` | Assets/Scripts/Gravity/Kepler/Calculators/OrbitPositionCalculator.cs:12-38 | every position measured from the centre lies in the plane of the two axes, in every regime |
| `OrbitPosition.FocalPositionInPlane` | Assets/Scripts/Gravity/Kepler/Calculators/OrbitPositionCalculator.cs:6-9 | the focal position is the central one moved by the centre point, and for either kind of anomaly it lies in the orbital plane through that point |
| `OrbitPosition.ParabolicAnomaliesAgree` | Assets/Scripts/Gravity/Kepler/Calculators/OrbitPositionCalculator.cs:43-52 | on a parabola, for true anomalies strictly within one full turn either way, the position at a true anomaly is the position at the same eccentric anomaly |
| `OrbitPosition.PositionsDependOnConic` | Assets/Scripts/Gravity/Kepler/Calculators/OrbitPositionCalculator.cs:6-38 | positions read only the conic, not the anomalies, mass, position or velocity stored in the orbit |
| `OrbitPosition.EllipticPeriapsisAtZero` | Assets/Scripts/Gravity/Kepler/Calculators/OrbitPositionCalculator.cs:14-21 | on an ellipse eccentric anomaly 0 is the periapsis, one semi-major axis from the centre along the major axis |
| `OrbitPosition.SampleAnomalies` | Assets/Scripts/Gravity/Kepler/Calculators/OrbitPositionCalculator.cs:81-99 | elliptic samples run from 0 to 2 pi and open-orbit samples from -maxAngle to +maxAngle, both evenly spaced |
| `OrbitPosition.EllipticPoints` | Assets/Scripts/Gravity/Kepler/Calculators/OrbitPositionCalculator.cs:79-83 | the elliptic array holds one focal position per sample, shifted by the origin |
| `OrbitPosition.HyperbolicPoints` | Assets/Scripts/Gravity/Kepler/Calculators/OrbitPositionCalculator.cs:94-101 | the open-orbit array holds one focal position per true-anomaly sample, shifted by the origin |
| `OrbitPosition.OrbitPoints` | Assets/Scripts/Gravity/Kepler/Calculators/OrbitPositionCalculator.cs:54-102 | no points for fewer than two or for an open orbit whose periapsis lies beyond the maximum distance, otherwise one point per requested sample |
| `OrbitPosition.GenerateEllipticOrbitPoints` | Assets/Scripts/Gravity/Kepler/Calculators/OrbitPositionCalculator.cs:72-84 | the caller's array is reused when its length matches and replaced otherwise, in which case it is left untouched, and the result holds the elliptic samples |
| `OrbitPosition.GenerateHyperbolicOrbitPoints` | Assets/Scripts/Gravity/Kepler/Calculators/OrbitPositionCalculator.cs:86-102 | a new array, empty when the periapsis is beyond the maximum distance and holding the open-orbit samples otherwise |
| `OrbitPosition.GetOrbitPoints` | Assets/Scripts/Gravity/Kepler/Calculators/OrbitPositionCalculator.cs:54-70 | the array the caller's reference designates afterwards holds `OrbitPoints`; when that is a new array the caller's old one is left untouched, and the orbit is left unchanged |
| `OrbitVectors.AngleToRange` | Assets/Scripts/Gravity/Kepler/Calculators/OrbitVectorsCalculator.cs:67 | the angle to an axis, in radians, lies in [0, pi] |
| `OrbitVectors.ConicAxes` | Assets/Scripts/Gravity/Kepler/Calculators/OrbitVectorsCalculator.cs:55-56 | a semi-major axis p / ratio and a semi-minor axis a sqrt(ratio) satisfy p = a ratio and b^2 = a p |
| `OrbitVectors.EllipticOrbitKeeps` | Assets/Scripts/Gravity/Kepler/Calculators/OrbitVectorsCalculator.cs:52-73 | the elliptic branch keeps the plane and the shape and leaves a finite period and apoapsis |
| `OrbitVectors.EllipticPeriodTimesMotion` | Assets/Scripts/Gravity/Kepler/Calculators/OrbitVectorsCalculator.cs:58-60 | on an ellipse the period times the mean motion is 2 pi whenever the period is not 0 |
| `OrbitVectors.EllipticApsidesAroundCentre` | Assets/Scripts/Gravity/Kepler/Calculators/OrbitVectorsCalculator.cs:57-63 | on an ellipse periapsis and apoapsis lie one semi-major axis on either side of the centre -a ecc, along the major axis |
| `OrbitVectors.EllipticAnomaliesAgree` | Assets/Scripts/Gravity/Kepler/Calculators/OrbitVectorsCalculator.cs:67-72 | on an ellipse the true anomaly lies in [0, 2 pi] and the mean anomaly is Kepler's equation at the eccentric anomaly |
| `OrbitVectors.EllipticAxes` | Assets/Scripts/Gravity/Kepler/Calculators/OrbitVectorsCalculator.cs:54-56 | on an ellipse the compression ratio is 1 - e^2, and the axes satisfy p = a (1 - e^2) and b^2 = a p |
| `OrbitVectors.HyperbolicOrbitKeeps` | Assets/Scripts/Gravity/Kepler/Calculators/OrbitVectorsCalculator.cs:75-95 | the hyperbolic branch keeps the plane and shape, puts period and apoapsis at +infinity, places the periapsis a behind the centre a ecc, and scales the mean motion by a |
| `OrbitVectors.HyperbolicAnomaliesAgree` | Assets/Scripts/Gravity/Kepler/Calculators/OrbitVectorsCalculator.cs:89-94 | on a hyperbola the true anomaly lies in [-pi, pi] and the mean anomaly is the hyperbolic Kepler equation at the eccentric anomaly |
| `OrbitVectors.HyperbolicAxes` | Assets/Scripts/Gravity/Kepler/Calculators/OrbitVectorsCalculator.cs:77-79 | on a hyperbola the compression ratio is e^2 - 1, and the axes satisfy p = a (e^2 - 1) and b^2 = a p |
| `OrbitVectors.ParabolicOrbitKeeps` | Assets/Scripts/Gravity/Kepler/Calculators/OrbitVectorsCalculator.cs:97-109 | the parabolic branch keeps the plane and shape, zeroes both axes and the centre, sets the periapsis distance to h.h / MG, and puts period and apoapsis at +infinity |
| `OrbitVectors.ParabolicAnomalies` | Assets/Scripts/Gravity/Kepler/Calculators/OrbitVectorsCalculator.cs:111-116 | on a parabola the true anomaly lies in [-pi, pi] and the mean anomaly takes the hyperbolic form sinh E - E |
| `OrbitVectors.BasisInputs` | Assets/Scripts/Gravity/Kepler/Calculators/OrbitVectorsCalculator.cs:8-9 | the derivation first sets MG to mass times G and the distance to the length of r, keeping position, velocity and masses |
| `OrbitVectors.BasisShape` | Assets/Scripts/Gravity/Kepler/Calculators/OrbitVectorsCalculator.cs:31-33 | the focal parameter is h.h / MG, the eccentricity is the non-negative length of the eccentricity vector, and the ecliptic dot product is the normal's |
| `OrbitVectors.BasisNormal` | Assets/Scripts/Gravity/Kepler/Calculators/OrbitVectorsCalculator.cs:11-18 | the normal is h normalised, or r x up normalised when h gives no direction, in which case the eccentricity is 0 |
| `OrbitVectors.BranchRegimes` | Assets/Scripts/Gravity/Kepler/Calculators/OrbitVectorsCalculator.cs:42-50 | exactly one branch runs, by eccentricity: period and apoapsis are finite exactly for e < 1, and a parabola's periapsis distance is its focal parameter |
| `OrbitVectors.FromVectorsRegimes` | Assets/Scripts/Gravity/Kepler/Calculators/OrbitVectorsCalculator.cs:6-27 | the whole derivation follows the eccentricity it computed, and with no angular-momentum direction it takes the elliptic branch with e = 0 |
| `OrbitVectors.CalculateOrbitStateFromOrbitalVectors` | Assets/Scripts/Gravity/Kepler/Calculators/OrbitVectorsCalculator.cs:6-27 | the method leaves the orbit in the state `FromVectors` describes |
| `OrbitVectors.PrepareVectors` | Assets/Scripts/Gravity/Kepler/Calculators/OrbitVectorsCalculator.cs:8-23 | the first lines store MG, the distance and the normal and return h and the eccentricity vector |
| `OrbitVectors.ComputeBasisVectorsAndFocalParameter` | Assets/Scripts/Gravity/Kepler/Calculators/OrbitVectorsCalculator.cs:29-40 | the method stores the basis and focal parameter `WithBasis` describes |
| `OrbitVectors.StoreAxes` | Assets/Scripts/Gravity/Kepler/Calculators/OrbitVectorsCalculator.cs:35-39 | the two axis bases are stored, with the fallback when h x -ecc gives no direction |
| `OrbitVectors.ComputeAnomaliesAndExtremes` | Assets/Scripts/Gravity/Kepler/Calculators/OrbitVectorsCalculator.cs:42-50 | the method applies the branch the eccentricity selects |
| `OrbitVectors.ComputeEllipticOrbit` | Assets/Scripts/Gravity/Kepler/Calculators/OrbitVectorsCalculator.cs:52-73 | the method leaves the state `EllipticOrbit` describes |
| `OrbitVectors.StoreEllipticConic` | Assets/Scripts/Gravity/Kepler/Calculators/OrbitVectorsCalculator.cs:54-57 | the compression ratio, axes and centre of the ellipse are stored |
| `OrbitVectors.StoreEllipticPeriod` | Assets/Scripts/Gravity/Kepler/Calculators/OrbitVectorsCalculator.cs:58-60 | the period and mean motion of the ellipse are stored |
| `OrbitVectors.StoreEllipticApsides` | Assets/Scripts/Gravity/Kepler/Calculators/OrbitVectorsCalculator.cs:62-65 | the apsides and their distances are stored |
| `OrbitVectors.StoreEllipticAnomalies` | Assets/Scripts/Gravity/Kepler/Calculators/OrbitVectorsCalculator.cs:67-72 | the three anomalies of the ellipse are stored |
| `OrbitVectors.ComputeHyperbolicOrbit` | Assets/Scripts/Gravity/Kepler/Calculators/OrbitVectorsCalculator.cs:75-95 | the method leaves the state `HyperbolicOrbit` describes |
| `OrbitVectors.StoreHyperbolicConic` | Assets/Scripts/Gravity/Kepler/Calculators/OrbitVectorsCalculator.cs:77-80 | the compression ratio, axes and centre of the hyperbola are stored |
| `OrbitVectors.StoreOpenPeriod` | Assets/Scripts/Gravity/Kepler/Calculators/OrbitVectorsCalculator.cs:81-82 | an open orbit's period is +infinity and its mean motion sqrt(MG / scale^3) |
| `OrbitVectors.StoreHyperbolicPeriapsis` | Assets/Scripts/Gravity/Kepler/Calculators/OrbitVectorsCalculator.cs:85-86 | the hyperbola's periapsis and its distance are stored |
| `OrbitVectors.StoreNoApoapsis` | Assets/Scripts/Gravity/Kepler/Calculators/OrbitVectorsCalculator.cs:84-87 | an open orbit's apoapsis and its distance are at +infinity |
| `OrbitVectors.ComputeParabolicOrbit` | Assets/Scripts/Gravity/Kepler/Calculators/OrbitVectorsCalculator.cs:97-117 | the method leaves the state `ParabolicOrbit` describes |
| `OrbitVectors.StoreParabolicConic` | Assets/Scripts/Gravity/Kepler/Calculators/OrbitVectorsCalculator.cs:99-104 | a parabola's axes, ratio and centre are zero and its periapsis lies h.h / MG along the minor axis |
| `OrbitVectors.StoreOpenAnomalies` | Assets/Scripts/Gravity/Kepler/Calculators/OrbitVectorsCalculator.cs:89-94 | the three anomalies of an open orbit are stored |
| `OrbitElements.BranchKeepsElements` | Assets/Scripts/Gravity/Kepler/Calculators/OrbitElementsCalculator.cs:12-17 | each branch keeps the plane and the input elements, and keeps the semi-major axis except on a parabola |
| `OrbitElements.FinalizedKeeps` | Assets/Scripts/Gravity/Kepler/Calculators/OrbitElementsCalculator.cs:57-66 | the final lines write only position, focal parameter, velocity and distance |
| `OrbitElements.ElementsKeepInputs` | Assets/Scripts/Gravity/Kepler/Calculators/OrbitElementsCalculator.cs:6-20 | the derivation never writes the eccentricity, the in-plane axes, the semi-minor axis or any anomaly; it sets MG to mass times G, the normal to -(major x minor) normalised and its ecliptic dot product |
| `OrbitElements.ElementsPosition` | Assets/Scripts/Gravity/Kepler/Calculators/OrbitElementsCalculator.cs:59-65 | the position is the focal position at the stored eccentric anomaly on the final conic, the distance its length, and the focal parameter a (1 - e^2) below e = 1 and a (e^2 - 1) otherwise |
| `OrbitElements.ElementsVelocity` | Assets/Scripts/Gravity/Kepler/Calculators/OrbitElementsCalculator.cs:64 | the velocity is the one at the stored true anomaly on the final state |
| `OrbitElements.EllipticElementsProperties` | Assets/Scripts/Gravity/Kepler/Calculators/OrbitElementsCalculator.cs:22-32 | on an ellipse the period is finite with period times mean motion 2 pi when it is not 0, the centre is a e behind the focus along the major axis, and the apsides lie a on either side of it |
| `OrbitElements.HyperbolicElementsProperties` | Assets/Scripts/Gravity/Kepler/Calculators/OrbitElementsCalculator.cs:34-43 | on a hyperbola period and apoapsis are at +infinity, the centre is a e along the major axis and the periapsis a behind it |
| `OrbitElements.ParabolicElementsProperties` | Assets/Scripts/Gravity/Kepler/Calculators/OrbitElementsCalculator.cs:45-55 | on a parabola period and apoapsis are at +infinity and the centre is the origin; the mean motion reads the old periapsis distance, which then takes the incoming semi-major axis, and the focal parameter and velocity end at 0 |
| `OrbitElements.ElementsRegimes` | Assets/Scripts/Gravity/Kepler/Calculators/OrbitElementsCalculator.cs:6-20 | exactly one branch runs: period and apoapsis are finite exactly for e < 1, and the semi-major axis is kept except on a parabola |
| `OrbitElements.CalculateOrbitStateFromOrbitalElements` | Assets/Scripts/Gravity/Kepler/Calculators/OrbitElementsCalculator.cs:6-20 | the method leaves the orbit in the state `FromElements` describes |
| `OrbitElements.StoreElementsPlane` | Assets/Scripts/Gravity/Kepler/Calculators/OrbitElementsCalculator.cs:8-10 | MG, the normal and its ecliptic dot product are stored |
| `OrbitElements.CalculateEllipticElements` | Assets/Scripts/Gravity/Kepler/Calculators/OrbitElementsCalculator.cs:22-32 | the method leaves the state `EllipticElements` describes |
| `OrbitElements.StoreEllipticElementsShape` | Assets/Scripts/Gravity/Kepler/Calculators/OrbitElementsCalculator.cs:24-27 | the compression ratio, centre, period and mean motion of the ellipse are stored |
| `OrbitElements.CalculateHyperbolicElements` | Assets/Scripts/Gravity/Kepler/Calculators/OrbitElementsCalculator.cs:34-43 | the method leaves the state `HyperbolicElements` describes |
| `OrbitElements.StoreHyperbolicElementsShape` | Assets/Scripts/Gravity/Kepler/Calculators/OrbitElementsCalculator.cs:36-38 | the centre, period and mean motion of the hyperbola are stored |
| `OrbitElements.CalculateParabolicElements` | Assets/Scripts/Gravity/Kepler/Calculators/OrbitElementsCalculator.cs:45-55 | the method leaves the state `ParabolicElements` describes |
| `OrbitElements.StoreParabolicShape` | Assets/Scripts/Gravity/Kepler/Calculators/OrbitElementsCalculator.cs:47-50 | the centre, period, mean motion and apoapsis of the parabola are stored |
| `OrbitElements.StoreParabolicPeriapsis` | Assets/Scripts/Gravity/Kepler/Calculators/OrbitElementsCalculator.cs:51-54 | the periapsis distance takes the semi-major axis, which becomes 0, and the periapsis lies along the major axis |
| `OrbitElements.FinalizeOrbitalElementCalculation` | Assets/Scripts/Gravity/Kepler/Calculators/OrbitElementsCalculator.cs:57-66 | the method leaves the state `Finalized` describes |
| `OrbitElements.StoreElementsVelocity` | Assets/Scripts/Gravity/Kepler/Calculators/OrbitElementsCalculator.cs:60-64 | the focal parameter and the velocity are stored |
| `KeplerUtils.Acosh` | Assets/Scripts/Kepler/Utils.cs:13-21 | arguments below 1 give 0; the result is never negative |
| `KeplerUtils.EllipticIterationCounts` | Assets/Scripts/Kepler/Utils.cs:50 | for an elliptic eccentricity the solver runs 2, 4 or 6 steps |
| `KeplerUtils.KeplerStepFixesRoots` | Assets/Scripts/Kepler/Utils.cs:58-62 | one solver step leaves an exact root of Kepler's equation where it is |
| `KeplerUtils.KeplerStepFixedOnlyAtRoots` | Assets/Scripts/Kepler/Utils.cs:58-62 | conversely, a step with a non-zero denominator that leaves the estimate where it is stands on an exact root |
| `KeplerUtils.KeplerRootIsFixed` | Assets/Scripts/Kepler/Utils.cs:51-63 | when the mean anomaly the loop starts from is itself an exact root, every number of steps returns it unchanged |
| `KeplerUtils.SolveKeplersEquation` | Assets/Scripts/Kepler/Utils.cs:48-66 | the loop returns the estimate after the computed number of steps |
| `KeplerUtils.HyperbolicNewton` | Assets/Scripts/Kepler/Utils.cs:36-40 | a run that returns ends on a step within the tolerance, the Newton step taken at the point it came from |
| `KeplerUtils.NewtonStep` | Assets/Scripts/Kepler/Utils.cs:36-40 | a step outside the tolerance moves the estimate by the Newton step |
| `KeplerUtils.NewtonDone` | Assets/Scripts/Kepler/Utils.cs:36 | the loop stops once the last step is within tolerance |
| `KeplerUtils.HyperbolicSolutionReturns` | Assets/Scripts/Kepler/Utils.cs:26-43 | without a finite initial guess the mean anomaly is returned; otherwise a returned root's last step is within tolerance and is the Newton step taken there |
| `KeplerUtils.HyperbolicFuelMonotone` | Assets/Scripts/Kepler/Utils.cs:36-40 | a run that returned is not changed by granting it more steps |
| `KeplerUtils.KeplerSolverHyperbolicCase` | Assets/Scripts/Kepler/Utils.cs:26-43 | the loop returns `HyperbolicSolution`: the initial guess refined by Newton steps until a step is within tolerance |
| `KeplerUtils.ConvertEccentricToMeanAnomaly` | Assets/Scripts/Kepler/Utils.cs:94-109 | eccentric anomaly 0 is mean anomaly 0 |
| `KeplerUtils.ConvertMeanToEccentricAnomaly` | Assets/Scripts/Kepler/Utils.cs:71-89 | on an ellipse a mean anomaly that is its own eccentric anomaly (an exact root) is returned as it is, and so is every mean anomaly on a circle |
| `KeplerUtils.EllipticRootRoundTrip` | Assets/Scripts/Kepler/Utils.cs:71-98 | on an ellipse a mean anomaly that Kepler's equation maps to itself is returned by the solver, so converting to eccentric anomaly and back gives it again |
| `KeplerUtils.EllipticZeroRoundTrip` | Assets/Scripts/Kepler/Utils.cs:73-75 | on an ellipse mean anomaly 0 converts to eccentric anomaly 0 |
| `KeplerUtils.CosineRatioInRange` | Assets/Scripts/Kepler/Utils.cs:130 | for an elliptic eccentricity the ratio (e + cos T) / (1 + e cos T) has a positive denominator and lies in [-1, 1] |
| `KeplerUtils.CosineRatioInRangeMinus` | Assets/Scripts/Kepler/Utils.cs:158 | for an elliptic eccentricity the ratio (cos E - e) / (1 - e cos E) has a positive denominator and lies in [-1, 1] |
| `KeplerUtils.ConvertTrueToEccentricAnomaly` | Assets/Scripts/Kepler/Utils.cs:114-148 | on an ellipse the result lies in [0, 2 pi]; on a hyperbola it has the sign of the true anomaly; on a parabola it is the true anomaly wrapped below a full turn |
| `KeplerUtils.ConvertEccentricToTrueAnomaly` | Assets/Scripts/Kepler/Utils.cs:153-178 | on an ellipse the result lies in [0, 2 pi]; on a parabola it is the eccentric anomaly itself |
| `KeplerUtils.CalcTrueAnomalyForDistance` | Assets/Scripts/Kepler/Utils.cs:183-197 | on a parabola, for a distance at least half the periapsis distance, the angle lies in [0, pi] |
| `KeplerUtils.TrueAnomalyForDistanceInputs` | Assets/Scripts/Kepler/Utils.cs:183-197 | only the parabolic formula reads the periapsis distance, and it alone ignores the semi-major axis |
| `LegacyOrbit.ComputeSpecificAngularMomentum` | Assets/Scripts/Kepler/OrbitData.cs:34-37 | the angular momentum is perpendicular to both position and velocity |
| `LegacyOrbit.ComputeNodeVector` | Assets/Scripts/Kepler/OrbitData.cs:42-46 | the line of nodes lies in the reference plane and is perpendicular to the angular momentum |
| `LegacyOrbit.ComputeEccentricityVector` | Assets/Scripts/Kepler/OrbitData.cs:51-57 | the eccentricity vector lies in the orbital plane, perpendicular to the angular momentum |
| `LegacyOrbit.ComputeSpecificEnergy` | Assets/Scripts/Kepler/OrbitData.cs:62-67 | the energy v^2/2 - MG/r is never below the potential term -MG/r and equals it at rest, where it is negative for a positive MG and a non-zero distance |
| `LegacyOrbit.EccentricityVectorInPlane` | Assets/Scripts/Kepler/OrbitData.cs:53-56 | both terms of the eccentricity vector are perpendicular to the angular momentum, so their difference is |
| `LegacyOrbit.ComputeOrbitNormal` | Assets/Scripts/Kepler/OrbitData.cs:72-75 | the orbit normal is parallel to the angular momentum |
| `LegacyOrbit.ComputeSemiMajorAxis` | Assets/Scripts/Kepler/OrbitData.cs:84-88 | with a positive MG the semi-major axis is positive on a bound orbit and negative on an unbound one |
| `LegacyOrbit.ComputeEccentricity` | Assets/Scripts/Kepler/OrbitData.cs:93-96 | the eccentricity is never negative |
| `LegacyOrbit.ComputeSemiMinorAxis` | Assets/Scripts/Kepler/OrbitData.cs:101-106 | the semi-minor axis a sqrt(1 - e^2) is the semi-major axis on a circle and 0 on a parabola |
| `LegacyOrbit.ComputeFocalParameter` | Assets/Scripts/Kepler/OrbitData.cs:111-116 | the focal parameter a (1 - e^2) is the semi-major axis on a circle and lies between 0 and it for 0 <= e <= 1 and a >= 0 |
| `LegacyOrbit.SemiMinorAxisSquared` | Assets/Scripts/Kepler/OrbitData.cs:101-116 | for e <= 1 the semi-minor axis, semi-major axis and focal parameter satisfy b^2 = a p |
| `LegacyOrbit.ComputePeriod` | Assets/Scripts/Kepler/OrbitData.cs:121-125 | with a positive MG and semi-major axis the period is positive |
| `LegacyOrbit.ComputeMeanMotion` | Assets/Scripts/Kepler/OrbitData.cs:130-134 | with a positive MG and semi-major axis the mean motion is positive |
| `LegacyOrbit.PeriodTimesMeanMotion` | Assets/Scripts/Kepler/OrbitData.cs:121-134 | on a bound orbit the period times the mean motion is exactly 2 pi |
| `TimeWarp.Broadcast` | Assets/Scripts/Services/TimeWarpController.cs:88-89 | each listener is called once, in registration order, with the same argument |
| `TimeWarp.BroadcastAppend` | Assets/Scripts/Services/TimeWarpController.cs:99 | a listener registered last is called last, after all the others |
| `TimeWarp.ClampInt` | Assets/Scripts/Services/TimeWarpController.cs:71 | the clamped index lies within the bounds and equals the value when that is within them |
| `TimeWarp.ClampStep` | Assets/Scripts/Services/TimeWarpController.cs:71 | a step of one rung stays on the ladder, moves by at most one, and stays put exactly at an end or for direction 0 |
| `TimeWarp.Lerp` | Assets/Scripts/Services/TimeWarpController.cs:64 | the blend is the start at t <= 0, the target at t >= 1, and always between the two |
| `TimeWarp.LerpBetween` | Assets/Scripts/Services/TimeWarpController.cs:64 | a fraction of the way from a to b lies between them |
| `TimeWarp.TimeWarpManager.constructor` | Assets/Scripts/Services/TimeWarpController.cs:9-25 | a new manager sits on the 1x rung (index 5) of the fifteen-rung ladder, with G = 6.6743e-11, scale 1, a one-second blend, no listeners and no blend under way |
| `TimeWarp.TimeWarpManager.Awake` | Assets/Scripts/Services/TimeWarpController.cs:27-39 | the scale of the current rung and the gravitational constant are published to their listeners |
| `TimeWarp.TimeWarpManager.Update` | Assets/Scripts/Services/TimeWarpController.cs:50-67 | the comma key steps down and wins over the period key, which steps up; a change of rung starts a blend at `now` from the old scale to the new rung's speed; while a blend runs the scale is the Lerp at the elapsed fraction, capped at 1, and the blend ends exactly when that fraction reaches 1, on the current rung; listeners hear of every such scale; a frame that changes no rung outside a blend changes nothing |
| `TimeWarp.TimeWarpManager.ChangeWarp` | Assets/Scripts/Services/TimeWarpController.cs:69-83 | the index moves to the clamped neighbouring rung; a new rung starts a blend from the current scale to its speed at the current time, and otherwise nothing changes |
| `TimeWarp.TimeWarpManager.LerpStep` | Assets/Scripts/Services/TimeWarpController.cs:55-66 | at fraction t of the blend the scale is the blend at t, capped at 1; the blend ends exactly when t reaches 1, on the target rung's speed; listeners hear of the new scale |
| `TimeWarp.TimeWarpManager.SetTimeScale` | Assets/Scripts/Services/TimeWarpController.cs:85-90 | the scale is stored and every time-scale listener is told of it, in order |
| `TimeWarp.TimeWarpManager.SetGravityConstant` | Assets/Scripts/Services/TimeWarpController.cs:92-97 | the constant is stored and every receiver is told of it, in order |
| `TimeWarp.TimeWarpManager.RegisterScalable` | Assets/Scripts/Services/TimeWarpController.cs:99 | a time-scale listener is appended, repeats included |
| `TimeWarp.TimeWarpManager.RegisterReceiver` | Assets/Scripts/Services/TimeWarpController.cs:100 | a gravity receiver is appended, repeats included |
| `TestTimeWarp.EngineTime.constructor` | Assets/Scripts/Tests/TimeWarpController.cs:24-25 | the engine starts in real time with a 0.02 s physics step |
| `TestTimeWarp.TimeWarpController.constructor` | Assets/Scripts/Tests/TimeWarpController.cs:6-7 | a new controller sits on the 1x rung, index 2 of a seven-rung ladder |
| `TestTimeWarp.TimeWarpController.Update` | Assets/Scripts/Tests/TimeWarpController.cs:9-19 | the comma key steps down and wins over the period key, which steps up; with neither nothing is written |
| `TestTimeWarp.TimeWarpController.ChangeWarp` | Assets/Scripts/Tests/TimeWarpController.cs:21-28 | the index is clamped onto the ladder, moving at most one rung, and the engine's time scale and physics step follow the rung at once |
| `Epoch.Wrap32` | Assets/Scripts/Services/EpochController.cs:90 | a 32-bit product is the exact one wrapped by a multiple of 2^32, and unchanged when it fits |
| `Epoch.ComposeAsWrittenAgrees` | Assets/Scripts/Services/EpochController.cs:90 | the composition as written equals the exact one exactly when minute * 60 fits in an int, that is for minutes within 35791394 of 0 |
| `Epoch.MinuteOverflow` | Assets/Scripts/Services/EpochController.cs:90 | 35791395 typed minutes are 2147483700 seconds, but the composition as written makes them -2147483596 |
| `Epoch.BelowAYear` | Assets/Scripts/Services/EpochController.cs:115-127 | fields in their usual ranges add up to less than a year beyond the whole years |
| `Epoch.ComposeInjective` | Assets/Scripts/Services/EpochController.cs:90-127 | fields in their usual ranges are determined by the seconds they add up to, so typing in the shown fields gives back the same epoch |
| `Epoch.EpochController.constructor` | Assets/Scripts/Services/EpochController.cs:27-36 | a new controller runs in real time with no listeners at epoch 0 |
| `Epoch.EpochController.Awake` | Assets/Scripts/Services/EpochController.cs:39-62 | the epoch is reset to 0, the controller registers with the time-warp service when there is one and changes nothing else in it, and a change of 0 is broadcast |
| `Epoch.EpochController.OnTimeScaleChanged` | Assets/Scripts/Services/EpochController.cs:64-67 | the new time scale is kept |
| `Epoch.EpochController.OnSliderValueChanged` | Assets/Scripts/Services/EpochController.cs:69-76 | a change below double.Epsilon does nothing; otherwise the epoch takes the slider value first and listeners are told of the change |
| `Epoch.EpochController.OnApplyClicked` | Assets/Scripts/Services/EpochController.cs:78-97 | a field that fails to parse does nothing; otherwise the fields are composed into seconds exactly, and a change of at least double.Epsilon is broadcast before the epoch takes it; whenever `minute * 60` fits in an `int` that is the value the source computes |
| `Epoch.EpochController.SetEpoch` | Assets/Scripts/Services/EpochController.cs:99-103 | every listener, in registration order, is told of the change |
| `Epoch.EpochController.Update` | Assets/Scripts/Services/EpochController.cs:105-111 | the epoch advances by the frame time times the time scale, and the fields shown add back up to it |
| `Epoch.EpochController.UpdateLabels` | Assets/Scripts/Services/EpochController.cs:113-128 | the five fields shown add back up to the epoch, each in its usual range for a non-negative epoch and in the mirrored range for a negative one |
| `Epoch.EpochController.Register` | Assets/Scripts/Services/EpochController.cs:154 | a listener is appended, repeats included |
| `Epoch.Split` | Assets/Scripts/Services/EpochController.cs:117-127 | whole units and remainder add back up to the value, share its sign, and the remainder is below one unit |
| `SoiChain.Bodies` | Assets/Scripts/Services/SphereOfInfluence/SOIController.cs:44-45 | both passes visit only found movers that are neither the active rocket nor tagged "Rocket" |
| `SoiChain.FirstPassProperties` | Assets/Scripts/Services/SphereOfInfluence/SOIController.cs:47-48 | the first pass keys each name once, in the order first met, keys every body's name, and keeps under a name the last body carrying it |
| `SoiChain.ParentName` | Assets/Scripts/Services/SphereOfInfluence/SOIController.cs:53-57 | a body hangs only under a node that exists: the node named after the mover owning its attractor |
| `SoiChain.Links` | Assets/Scripts/Services/SphereOfInfluence/SOIController.cs:50-64 | the second pass makes one link per body, under its attractor's node when there is one and as a root otherwise |
| `SoiChain.HierarchyPlacesOnce` | Assets/Scripts/Services/SphereOfInfluence/SOIController.cs:50-64 | with distinct names, each body is a root exactly when it has no parent node and a child of a node exactly when that node owns its attractor |
| `SoiChain.Candidates` | Assets/Scripts/Services/SphereOfInfluence/SOIController.cs:82-93 | each node is weighed by its mover's sphere of influence and its distance from the rocket |
| `SoiChain.DetectAmong` | Assets/Scripts/Services/SphereOfInfluence/SOIController.cs:79-94 | the loop returns the closest node whose sphere holds the rocket, first in enumeration order on ties, or null, and only a listed node |
| `SoiChain.RestoreAllProperties` | Assets/Scripts/Services/SphereOfInfluence/SOIController.cs:106-121 | restoring a chain of distinct transforms touches only the chain's movers, each restored once from its own saved data, and adds no mover |
| `SoiChain.RestoreIdempotent` | Assets/Scripts/Services/SphereOfInfluence/SOIController.cs:106-121 | restoring the same chain twice changes nothing more than restoring it once |
| `SoiChain.SaveAllKeeps` | Assets/Scripts/Services/SphereOfInfluence/SOIController.cs:132-143 | saving never overwrites a snapshot, adds only chain names, and keeps the orbit and attractor dictionaries on the same keys |
| `SoiChain.SaveAllCovers` | Assets/Scripts/Services/SphereOfInfluence/SOIController.cs:132-143 | after saving, every chain node with a mover has a snapshot under its name |
| `SoiChain.SaveAllFirst` | Assets/Scripts/Services/SphereOfInfluence/SOIController.cs:137-141 | a name first saved by this call holds a copy of that node's own orbit and attractor |
| `SoiChain.SaveAllNew` | Assets/Scripts/Services/SphereOfInfluence/SOIController.cs:134-137 | a name outside the chain gains no snapshot |
| `SoiChain.ApplyUpToNext` | Assets/Scripts/Services/SphereOfInfluence/SOIController.cs:147-171 | the loop over the chain changes one node's mover per step, and only when it has one |
| `SoiChain.AppliedProperties` | Assets/Scripts/Services/SphereOfInfluence/SOIController.cs:149-170 | an applied node is attracted by the next node inward (the last by none), enabled exactly when it is not the new sphere's node, takes the next node's saved conic when there is one and keeps its own otherwise, and has anomalies re-derived from its position |
| `SoiChain.ApplyChain` | Assets/Scripts/Services/SphereOfInfluence/SOIController.cs:145-172 | applying a chain that ends at the new sphere's node: that body stands still, every other chain body is enabled and attracted by the next node inward, and no mover outside the chain changes |
| `SoiChain.ApplyChainAt` | Assets/Scripts/Services/SphereOfInfluence/SOIController.cs:149-170 | the outcome of applying a whole chain, at one node |
| `SoiChain.RestoreUndoesApply` | Assets/Scripts/Services/SphereOfInfluence/SOIController.cs:97-172 | with `enabled` a plain flag, saving, applying and then restoring a chain gives every chain body back its saved orbit and attractor, enabled; a body first saved by the switch gets back exactly the mover it had |
| `SoiChain.RestoreAfterApply` | Assets/Scripts/Services/SphereOfInfluence/SOIController.cs:106-121 | restoring overwrites everything applying changed, at one node |
| `SoiChain.SOIController.constructor` | Assets/Scripts/Services/SphereOfInfluence/SOIController.cs:12-21 | a new controller holds no nodes, roots, snapshots or chain, and no current sphere |
| `SoiChain.SOIController.Values` | Assets/Scripts/Services/SphereOfInfluence/SOIController.cs:14 | the nodes of the dictionary, in insertion order |
| `SoiChain.SOIController.FindParent` | Assets/Scripts/Services/SphereOfInfluence/SOIController.cs:188-191 | the parent is the first node, in enumeration order, listing the child among its children |
| `SoiChain.SOIController.FindParentProperties` | Assets/Scripts/Services/SphereOfInfluence/SOIController.cs:188-191 | a parent found lists the child and no earlier node does; null exactly when no node lists it |
| `SoiChain.SOIController.ParentStored` | Assets/Scripts/Services/SphereOfInfluence/SOIController.cs:190 | a parent found is a stored node |
| `SoiChain.SOIController.BuildHierarchy` | Assets/Scripts/Services/SphereOfInfluence/SOIController.cs:39-65 | the dictionary is rebuilt with new nodes keyed by the first pass, and the children and roots are the tree of the second pass |
| `SoiChain.SOIController.CreateNodes` | Assets/Scripts/Services/SphereOfInfluence/SOIController.cs:47-48 | the first loop creates one new node per name, the last body of that name |
| `SoiChain.SOIController.AddNode` | Assets/Scripts/Services/SphereOfInfluence/SOIController.cs:48 | storing a new node under a name replaces any node of that name and records a new name once in the order |
| `SoiChain.SOIController.LinkNodes` | Assets/Scripts/Services/SphereOfInfluence/SOIController.cs:50-64 | the second loop links every body as its link says, leaving the dictionary unchanged |
| `SoiChain.SOIController.AttachBody` | Assets/Scripts/Services/SphereOfInfluence/SOIController.cs:52-63 | one body goes under its attractor's node when there is one and joins the roots otherwise |
| `SoiChain.SOIController.AddUnder` | Assets/Scripts/Services/SphereOfInfluence/SOIController.cs:59 | a child is added to its parent's list once |
| `SoiChain.SOIController.DetectNewSOI` | Assets/Scripts/Services/SphereOfInfluence/SOIController.cs:77-95 | the closest node whose sphere of influence holds the rocket, first in enumeration order on ties, or null |
| `SoiChain.SOIController.BuildChain` | Assets/Scripts/Services/SphereOfInfluence/SOIController.cs:123-130 | the chain is the walk up through parents from the given node, reversed so that the root comes first |
| `SoiChain.SOIController.ChainNodes` | Assets/Scripts/Services/SphereOfInfluence/SOIController.cs:123-130 | a chain holds stored nodes only, with distinct names and transforms |
| `SoiChain.SOIController.WalkStops` | Assets/Scripts/Services/SphereOfInfluence/SOIController.cs:126 | in an acyclic tree the walk up through parents ends |
| `SoiChain.SOIController.RestorePreviousChain` | Assets/Scripts/Services/SphereOfInfluence/SOIController.cs:106-121 | every node of the previous chain with a mover gets back its saved orbit and attractor and is enabled |
| `SoiChain.SOIController.SaveChainData` | Assets/Scripts/Services/SphereOfInfluence/SOIController.cs:132-143 | the snapshots gain those of the chain nodes with a mover and no snapshot yet |
| `SoiChain.SOIController.ApplyNewChainSettings` | Assets/Scripts/Services/SphereOfInfluence/SOIController.cs:145-172 | the loop applies each chain node in turn, outermost first, as `ApplyChain` describes |
| `SoiChain.SOIController.HandleSOIChange` | Assets/Scripts/Services/SphereOfInfluence/SOIController.cs:97-104 | restore the previous chain, then build, save and apply the new one and keep it as the previous chain |
| `SoiChain.SOIController.Update` | Assets/Scripts/Services/SphereOfInfluence/SOIController.cs:67-75 | without a rocket nothing changes; with one, a change of detected sphere switches to it, otherwise nothing changes |
| `SoiChain.SOIController.SwitchTo` | Assets/Scripts/Services/SphereOfInfluence/SOIController.cs:73-74 | switching performs the change and records the new sphere as current |
| `SoiInvert.Bodies` | Assets/Scripts/Services/SOIController.cs:45-48 | both passes visit the found movers other than the active rocket, and only those |
| `SoiInvert.FirstOwnersProperties` | Assets/Scripts/Services/SOIController.cs:45-55 | the first pass keys each name once, in the order first met, keys every body's name, and stores under a name a body carrying that name |
| `SoiInvert.FirstOwnersFirst` | Assets/Scripts/Services/SOIController.cs:51-54 | the node stored under a name holds the first body carrying it; later bodies with the same name are skipped |
| `SoiInvert.AttractorNode` | Assets/Scripts/Services/SOIController.cs:79-92 | a body's attractor, redirected to its parent like a node, names a stored node or none |
| `SoiInvert.LinkOf` | Assets/Scripts/Services/SOIController.cs:62-102 | one body's step of the second pass only ever links stored nodes |
| `SoiInvert.Links` | Assets/Scripts/Services/SOIController.cs:57-103 | the second pass takes one step per body, in the order found, each within the stored nodes |
| `SoiInvert.LinkOfMeaning` | Assets/Scripts/Services/SOIController.cs:91-102 | a body's node becomes a root exactly when its attractor has no node and the node is not the rocket's, and goes under `k` exactly when `k` is its attractor's node |
| `SoiInvert.HierarchyMembers` | Assets/Scripts/Services/SOIController.cs:57-103 | after the second pass a node is a root exactly when some body it stands for has no attractor node, a child of `k` exactly when some body it stands for is attracted by `k`'s body, and the rocket's node is never a root |
| `SoiInvert.HierarchyRoots` | Assets/Scripts/Services/SOIController.cs:96-101 | the roots half of the second pass's outcome |
| `SoiInvert.HierarchyChildren` | Assets/Scripts/Services/SOIController.cs:91-95 | the children half of the second pass's outcome |
| `SoiInvert.SphereRadiusProperties` | Assets/Scripts/Services/SOIController.cs:110-113 | the radius `a * (m / M)^0.4` equals the semi-major axis when the two mass fields agree, and has its sign when both masses are positive |
| `SoiInvert.Candidates` | Assets/Scripts/Services/SOIController.cs:133-136 | the detection loop weighs every node, in enumeration order, by its distance to the rocket against its own radius |
| `SoiInvert.DetectAmong` | Assets/Scripts/Services/SOIController.cs:130-141 | detection returns the node at the smallest distance among those whose radius reaches the rocket, the earliest on a tie, or null when none does |
| `SoiInvert.RestoreAllProperties` | Assets/Scripts/Services/SOIController.cs:166-198 | restoring a chain of distinct transforms changes only the chain's movers, each restored once from the snapshots under its own name, and adds no mover |
| `SoiInvert.DisableUndone` | Assets/Scripts/Services/SOIController.cs:153-198 | with `enabled` a plain flag, the disabling loop has no lasting effect: the mover it disables is in the previous chain, which the restore loop re-enables without reading what was changed |
| `SoiInvert.DisabledOnly` | Assets/Scripts/Services/SOIController.cs:153-164 | the first loop changes at most the `enabled` flag of one previous-chain mover |
| `SoiInvert.RestoredIgnoresEnabled` | Assets/Scripts/Services/SOIController.cs:166-197 | with `enabled` a plain flag, restoring a mover does not depend on whether it was enabled |
| `SoiInvert.SaveAllKeeps` | Assets/Scripts/Services/SOIController.cs:210-225 | saving never overwrites an orbit, attractor or handle snapshot and adds entries only under chain names |
| `SoiInvert.SaveAllCovers` | Assets/Scripts/Services/SOIController.cs:210-225 | after saving, every chain node with a mover has an orbit and an attractor saved, and a handle position when its mover has a handle |
| `SoiInvert.SaveAllFirst` | Assets/Scripts/Services/SOIController.cs:216-224 | a name first saved by this switch holds that node's own orbit, attractor and handle position |
| `SoiInvert.SaveAllNew` | Assets/Scripts/Services/SOIController.cs:210-225 | a name outside the chain gets no snapshot it did not have |
| `SoiInvert.AppliedProperties` | Assets/Scripts/Services/SOIController.cs:229-261 | an applied node orbits the next node inward (the last none), is enabled exactly when it is not the new sphere's node, follows the next node's saved conic and takes its attractor mass when saved, sets its handle to the negated saved handle of the next node, and has its anomalies consistent with its position |
| `SoiInvert.ApplyChain` | Assets/Scripts/Services/SOIController.cs:227-263 | after the apply loop over a chain ending at the new sphere, the sphere's body alone is disabled, every other chain body orbits the next one inward, and no mover outside the chain changes |
| `SoiInvert.ApplyChainAt` | Assets/Scripts/Services/SOIController.cs:229-261 | the apply loop's outcome at one chain node |
| `SoiInvert.RestoreUndoesApply` | Assets/Scripts/Services/SOIController.cs:166-263 | with `enabled` a plain flag, saving, applying and then restoring a chain gives every body first saved by that switch its own mover back, re-derived from its position, and changes no mover outside the chain |
| `SoiInvert.RestoreAfterApply` | Assets/Scripts/Services/SOIController.cs:166-198 | restoring one node overwrites everything applying changed when that node's saved data are its own |
| `SoiInvert.SOIController.constructor` | Assets/Scripts/Services/SOIController.cs:14-23 | a controller starts with no nodes, roots, chain, current sphere or snapshots |
| `SoiInvert.SOIController.Values` | Assets/Scripts/Services/SOIController.cs:15 | `_nodes.Values` lists the stored nodes in the dictionary's enumeration order |
| `SoiInvert.SOIController.FindBody` | Assets/Scripts/Services/SOIController.cs:120-124 | `FindBody` returns null exactly when no node is stored under the name, and otherwise the stored node of that name |
| `SoiInvert.SOIController.FindParent` | Assets/Scripts/Services/SOIController.cs:286-289 | `FindParent` is the first node in enumeration order listing the child among its children |
| `SoiInvert.SOIController.FindParentProperties` | Assets/Scripts/Services/SOIController.cs:286-289 | the parent found lists the child and no earlier node does; null exactly when no node lists it |
| `SoiInvert.SOIController.BuildHierarchy` | Assets/Scripts/Services/SOIController.cs:40-116 | the rebuild replaces every node with a new one, keys them as the first pass does, links them as the second pass does, and gives each the radius of the third pass |
| `SoiInvert.SOIController.BuildTree` | Assets/Scripts/Services/SOIController.cs:42-103 | the first two loops leave the tree of the second pass, over fresh nodes with zero radius |
| `SoiInvert.SOIController.CreateNodes` | Assets/Scripts/Services/SOIController.cs:45-55 | the first loop creates one fresh node per new name, for the first body carrying it |
| `SoiInvert.SOIController.LinkNodes` | Assets/Scripts/Services/SOIController.cs:57-103 | the second loop builds the tree the per-body links describe |
| `SoiInvert.SOIController.AttachBody` | Assets/Scripts/Services/SOIController.cs:62-102 | one body's step: skipped without a node, otherwise under its attractor's node or a root unless it is the rocket's |
| `SoiInvert.SOIController.AddUnder` | Assets/Scripts/Services/SOIController.cs:94 | `parentNode.AddChild(node)` adds the child's name under the parent's, at most once |
| `SoiInvert.SOIController.AssignRadii` | Assets/Scripts/Services/SOIController.cs:105-114 | the third loop gives each node with a mover other than the rocket its mover's radius; the others keep 0 |
| `SoiInvert.SOIController.DetectNewSOI` | Assets/Scripts/Services/SOIController.cs:130-141 | detection over the stored nodes returns the closest node whose radius reaches the rocket, a stored node or null |
| `SoiInvert.SOIController.BuildChain` | Assets/Scripts/Services/SOIController.cs:200-207 | the chain runs from a root down to the new sphere's node, each node the parent of the next; empty for null |
| `SoiInvert.SOIController.ChainNodes` | Assets/Scripts/Services/SOIController.cs:200-207 | a chain from a stored node holds stored nodes with distinct names and transforms |
| `SoiInvert.SOIController.WalkStops` | Assets/Scripts/Services/SOIController.cs:202-206 | the parent walk stops when the tree has no cycle |
| `SoiInvert.SOIController.DisableInPrevious` | Assets/Scripts/Services/SOIController.cs:153-164 | the first loop disables the new sphere's mover if the previous chain holds its node, and stops there |
| `SoiInvert.SOIController.RestorePreviousChain` | Assets/Scripts/Services/SOIController.cs:166-198 | the restore loop restores each previous-chain mover, in order, from the snapshots |
| `SoiInvert.SOIController.RestoreNode` | Assets/Scripts/Services/SOIController.cs:168-197 | one mover is restored: saved orbit, attractor, attractor mass and handle position where saved, anomalies re-derived from position, enabled |
| `SoiInvert.SOIController.SaveChainData` | Assets/Scripts/Services/SOIController.cs:210-225 | the save loop adds, per chain node with a mover, each missing orbit, attractor and handle snapshot |
| `SoiInvert.SOIController.ApplyNewChainSettings` | Assets/Scripts/Services/SOIController.cs:227-263 | the apply loop re-parents each chain mover, in order, from the snapshots |
| `SoiInvert.SOIController.InvertOrbits` | Assets/Scripts/Services/SOIController.cs:151-264 | a switch disables, restores the previous chain, builds and keeps the new chain, saves it and applies it, in that order |
| `SoiInvert.SOIController.Revert` | Assets/Scripts/Services/SOIController.cs:153-198 | the first two loops: the disabled mover is restored with the rest of the previous chain |
| `SoiInvert.SOIController.Update` | Assets/Scripts/Services/SOIController.cs:126-149 | without a rocket nothing happens; otherwise the detected sphere, if different from the current one, is switched to, and a change to no sphere fails on the null dereference, changing nothing |
| `SoiInvert.SOIController.React` | Assets/Scripts/Services/SOIController.cs:143-148 | the same sphere changes nothing; null fails; another sphere is switched to and becomes current |
| `SoiInvert.SOIController.SwitchTo` | Assets/Scripts/Services/SOIController.cs:146-147 | a switch inverts the orbits for the new sphere and then makes it current |
| `SoiTree.Scan` | Assets/Scripts/Services/SphereOfInfluence/SOIController.cs:79-93 | the best index so far, when there is one, is a scanned node at the best distance; with none the best distance is still `double.MaxValue` |
| `SoiTree.ScanBelow` | Assets/Scripts/Services/SphereOfInfluence/SOIController.cs:88-92 | the best distance never exceeds `double.MaxValue` or the distance of any covering node scanned |
| `SoiTree.ScanProperties` | Assets/Scripts/Services/SphereOfInfluence/SOIController.cs:79-94 | nothing is detected exactly when no node covers the rocket below `double.MaxValue`; otherwise the node detected covers it, is at least as close as every covering node, and strictly closer than every earlier one |
| `SoiTree.ParentIndex` | Assets/Scripts/Services/SphereOfInfluence/SOIController.cs:190 | the parent query finds the first node listing the child, and no node when none lists it |
| `SoiTree.WalkAdvance` | Assets/Scripts/Services/SphereOfInfluence/SOIController.cs:126-127 | one step of the walk adds the node and continues from its parent |
| `SoiTree.WalkSteps` | Assets/Scripts/Services/SphereOfInfluence/SOIController.cs:126-127 | a finished walk starts at the node, follows parents, ends at a node without parent, and is no longer than its bound |
| `SoiTree.PathDistinct` | Assets/Scripts/Services/SphereOfInfluence/SOIController.cs:126-127 | a parent path that ends visits no node twice |
| `SoiTree.PathDistinctAt` | Assets/Scripts/Services/SphereOfInfluence/SOIController.cs:126-127 | two positions of a finished parent path hold different nodes |
| `SoiTree.ChainProperties` | Assets/Scripts/Services/SphereOfInfluence/SOIController.cs:123-130 | a chain is empty for no node; otherwise it ends at the node, starts at a root, each element is the parent of the next, and no node repeats |
| `SoiTree.SelfParentNeverStops` | Assets/Scripts/Services/SphereOfInfluence/SOIController.cs:126 | a node that is its own parent keeps the walk on itself, so it never ends |
| `SoiTree.SelfAttractorNeverStops` | Assets/Scripts/Services/SphereOfInfluence/SOIController.cs:56-59 | a body attracted by its own transform is hung under itself, and the walk up from it never ends |
| `SoiTree.Built` | Assets/Scripts/Services/SphereOfInfluence/SOIController.cs:50-64 | the second pass keeps one child list per node of the first pass |
| `SoiTree.BuiltStep` | Assets/Scripts/Services/SphereOfInfluence/SOIController.cs:50-64 | the tree after one more body is that body attached to the tree before it |
| `SoiTree.AttachKeeps` | Assets/Scripts/Services/SphereOfInfluence/SOIController.cs:52-63 | attaching one body leaves every other body where it was |
| `SoiTree.AttachPlaces` | Assets/Scripts/Services/SphereOfInfluence/SOIController.cs:52-63 | attaching a body that was nowhere places it in exactly one place |
| `SoiTree.AttachContents` | Assets/Scripts/Services/SphereOfInfluence/SOIController.cs:59-63 | attaching keeps every list within the bodies seen and duplicate-free |
| `SoiTree.BuiltContents` | Assets/Scripts/Services/SphereOfInfluence/SOIController.cs:50-64 | only bodies of the pass appear in the tree, and no list holds a body twice |
| `SoiTree.BuiltPlacesOnce` | Assets/Scripts/Services/SphereOfInfluence/SOIController.cs:50-64 | with distinct bodies, each ends up under the node it names or among the roots, never both |
| `SoiTree.BuiltRoots` | Assets/Scripts/Services/SphereOfInfluence/SOIController.cs:63 | a name is a root exactly when some step of the pass made it one |
| `SoiTree.BuiltChildren` | Assets/Scripts/Services/SphereOfInfluence/SOIController.cs:59 | a name is a child of a node exactly when some step hung it under that node |
| `SoiTree.NodesIn` | Assets/Scripts/Services/SphereOfInfluence/SOIController.cs:82 | the dictionary's values are enumerated in key order |
| `SoiNode.CelestialBodyNode.constructor` | Assets/Scripts/Services/SphereOfInfluence/CelestialBodyNode.cs:9 | a new node holds the given name and transform and no children |
| `SoiNode.CelestialBodyNode.AddChild` | Assets/Scripts/Services/SphereOfInfluence/CelestialBodyNode.cs:10 | null and a child already listed are ignored; otherwise the child is appended, so a list without repeats keeps none |
| `SoiNode.CelestialBodyNode.GetChildren` | Assets/Scripts/Services/SphereOfInfluence/CelestialBodyNode.cs:11 | the children are the node's own list, in the order added |
| `BodyNode.CelestialBodyNode.constructor` | Assets/Scripts/Services/Interfaces/CelestialBodyNode.cs:12-16 | a new node holds the given name and transform, no children and a zero radius |
| `BodyNode.CelestialBodyNode.AddChild` | Assets/Scripts/Services/Interfaces/CelestialBodyNode.cs:18-23 | null and a child already listed are ignored; otherwise the child is appended, so a list without repeats keeps none |
| `BodyNode.CelestialBodyNode.RemoveChild` | Assets/Scripts/Services/Interfaces/CelestialBodyNode.cs:25-29 | null is ignored; otherwise the first occurrence of the child, if any, is removed, and a list without repeats keeps none |
| `BodyNode.CelestialBodyNode.GetChildren` | Assets/Scripts/Services/Interfaces/CelestialBodyNode.cs:31 | the children are the node's own list, in the order added |
| `Lists.AdjoinProperties` | Assets/Scripts/Services/SphereOfInfluence/CelestialBodyNode.cs:10 | adding keeps the list in order, adds the element exactly when absent, and keeps a duplicate-free list duplicate-free |
| `Lists.AdjoinIdempotent` | Assets/Scripts/Services/SphereOfInfluence/CelestialBodyNode.cs:10 | adding the same child twice is adding it once |
| `Lists.RemoveFirstProperties` | Assets/Scripts/Services/Interfaces/CelestialBodyNode.cs:25-29 | removing an absent child changes nothing; removing a present one shortens the list by one and, from a duplicate-free list, removes that child and nothing else |
| `Lists.RemoveUndoesAdjoin` | Assets/Scripts/Services/Interfaces/CelestialBodyNode.cs:18-29 | removing a child just added gives the list back |
| `Lists.Reverse` | Assets/Scripts/Services/SphereOfInfluence/SOIController.cs:128 | `chain.Reverse()` keeps the length and swaps the first and last elements |
| `Lists.ReverseAt` | Assets/Scripts/Services/SphereOfInfluence/SOIController.cs:128 | reversing puts the element k places from the end at position k |
| `Lists.ReverseReverse` | Assets/Scripts/Services/SphereOfInfluence/SOIController.cs:128 | reversing twice gives the list back |
| `SoiScene.MoverInParent` | Assets/Scripts/Services/SphereOfInfluence/SOIController.cs:56 | the mover found belongs to the transform itself or an ancestor, and to the transform itself when it has one |
| `SoiScene.UpdateEachFrame` | Assets/Scripts/Services/SphereOfInfluence/SOIController.cs:106-121 | a loop over chain nodes adds no mover and leaves alone every mover it has not reached |
| `SoiScene.UpdateEachAt` | Assets/Scripts/Services/SphereOfInfluence/SOIController.cs:106-121 | over distinct transforms, each reached node with a mover is updated exactly once, from its mover as it was |
| `Numerics.FRemBounds` | Assets/Scripts/Gravity/Kepler/Calculators/OrbitAnomalyCalculator.cs:11 | the remainder of `%` on doubles is smaller than the divisor, has the dividend's sign, completes the truncated quotient, and leaves a value within one divisor unchanged |
| `Numerics.WrapAngleBounds` | Assets/Scripts/Gravity/Kepler/Calculators/OrbitAnomalyCalculator.cs:11-12 | wrapping an angle puts it in [0, 2 pi) |
| `Numerics.WrapAngleTurns` | Assets/Scripts/Gravity/Kepler/Calculators/OrbitAnomalyCalculator.cs:11-12 | the wrapped angle differs from the angle by whole turns |
| `Numerics.WrapAngleShift` | Assets/Scripts/Gravity/Kepler/Calculators/OrbitAnomalyCalculator.cs:11-12 | adding whole turns does not change the wrapped angle |
| `Numerics.WrapAngleAbsorbs` | Assets/Scripts/Gravity/Kepler/Calculators/OrbitAnomalyCalculator.cs:10-12 | wrapping an intermediate sum does not change the wrapped total |
| `SoiInvert.RestoreNext` | Assets/Scripts/Services/SOIController.cs:166-198 | the restore loop changes one node's mover per step, and only when it has one |
| `SoiInvert.ApplyUpToNext` | Assets/Scripts/Services/SOIController.cs:227-263 | the apply loop changes one node's mover per step, and only when it has one |
| `SoiInvert.SOIController.ParentStored` | Assets/Scripts/Services/SOIController.cs:286-289 | a parent found is a stored node |

## Left out

- Floating point: `double` and `float` are modelled as `real`. This covers `Vector3` (float) positions converted to doubles, the rounding of year * 31536000 above 2^53 in `OnApplyClicked`, and the float time scales and blend fractions of the time-warp service. No claim concerns numerical accuracy or the convergence of the Kepler solvers.
- Division by zero: `Div` returns 0 where IEEE arithmetic gives an infinity or NaN. Guards against NaN or infinite values of finite reals cannot be reached and are not modelled. This includes the NaN/infinity test on the eccentricity in `ConvertTrueToEccentricAnomaly` (Kepler/Utils.cs:116-119).
- Transcendental functions, `magnitude`, `normalized` and `Vector3d.Angle` are parameters (the `Math` record). Lemmas assume only range and zero facts about them.
- KeplerUtils.KeplerSolverHyperbolicCase: the source loop has no bound. The model stops after `HyperbolicFuel` (1000) Newton steps and reports whether it returned. A run that the source would never finish is represented by the estimate reached. `HyperbolicFuelMonotone` shows the bound does not change any run that returns.
- Acyclic parent links: `BuildChain` in both controllers terminates only when the parent links are acyclic. The walk is bounded by one step per node, and `Update` requires the tree to be acyclic (`Acyclic`). A body attracted by its own transform breaks this (see Findings).
- Unity objects: `FindObjectsOfType<OrbitMover>()` is a sequence of transforms given to `BuildHierarchy`. The model assumes that both of its enumerations in a call return the same bodies in the same order.
- `GetComponent<OrbitMover>()` is a lookup in a map from transforms to movers. The map is threaded through the controller methods as a value, so aliasing between movers and their in-place update are not modelled.
- Movers' `AttractorSettings` is never null in the model. It is created with the mover and never replaced, so the null tests on it are not modelled.
- `ActiveRocket` is a constant of each controller. The controllers never assign it.
- Dictionary enumeration: `Dictionary.Values` is enumerated in the order in which keys were first added. The model assumes this for a dictionary that is cleared and only ever added to.
- The delegating members of `OrbitData` (`SetMeanAnomaly`, `UpdateOrbitDataByTime`, `GetOrbitPoints`, `CalculateMeanAnomalyFromPosition`, `GetVelocityAtEccentricAnomaly`, and the two `CalculateOrbitStateFrom*`) are not separate members. The calculator members they forward to take the orbit object itself.
- `GetRootBodies` of the later controller is the `rootBodies` field itself.
- SoiInvert.SOIController.Update: the null dereference in the log call on a change to "no sphere" is modelled as a `thrown` flag with the state left unchanged. The exception itself is not propagated.
- The later controller's `GetComponent<OrbitDisplay>().enabled = false` (Services/SOIController.cs:262) is not modelled. It hides the orbit line of every chain mover. When a chain body has no `OrbitDisplay` the line throws, ending `InvertOrbits` after the previous chain has been replaced and before the current sphere is set; that throw is not modelled either.
- Re-enabling a mover: setting `enabled = true` on a disabled `OrbitMover` runs `OnEnable` (Gravity/Kepler/OrbitMover.cs:57-61). Unless `LockOrbitEditing` is set (false by default, line 42), that calls `ForceUpdateOrbitData` (lines 202-218), which recomputes the orbit from the current transforms and the restored attractor. The model treats `enabled` as a plain flag and does not capture this. The body of the new sphere is the one affected: it is disabled by the apply loop or by the first loop of the later controller, and re-enabled by the restore loop.
- SoiChain.RestoreUndoesApply: holds for `enabled` as a plain flag. In the source the re-enabled sphere body gets the orbit `OnEnable` recomputes, not its saved one.
- SoiInvert.RestoreUndoesApply: holds for `enabled` as a plain flag. In the source the re-enabled sphere body's orbit is recomputed by `OnEnable` after the restore.
- SoiInvert.DisableUndone: holds for `enabled` as a plain flag. In the source disabling the new sphere's mover makes the later `enabled = true` run `OnEnable`, which recomputes its orbit, so the disabling has a lasting effect.
- SoiInvert.RestoredIgnoresEnabled: holds for `enabled` as a plain flag. In the source restoring a disabled mover ends in `OnEnable`'s orbit recompute, and restoring an enabled one does not.
- `OnDrawGizmos`, `Debug.Log`, `Destroy`, the `Instance` singletons, and the rest of the `Awake`/`OnEnable` lifecycle plumbing are not modelled, apart from what each `Awake` computes.
- Input and clocks: `Input.GetKeyDown`, `Time.time` and `Time.deltaTime` are method parameters.
- The time-warp service's `OnValidate` editor hook is not modelled. The ladder `warpSpeeds` is inspector-editable but is modelled as a constant field.
- Epoch.EpochController.OnApplyClicked: composes the fields exactly (`Compose`), so for a minute count beyond 35791394 in size it does not store the wrapped value the source computes (`ComposeAsWritten`; see Findings).
- Parsing in `OnApplyClicked`: each `int.TryParse` outcome is an `Option<Int32>` parameter.
- UI: writes to the UI labels and the slider, and `UpdatePlanetInfo`, are not modelled.
- Epoch.EpochController.UpdateLabels: the `(int)` casts are modelled as exact truncation. The year count of an epoch of 2^31 years or more does not fit in an `int`, and the model does not capture what the source's cast then yields. The other counts are always below their next unit.
- Orbit rendering, `OrbitMover` transform writes, gravity bodies, rocket control, camera, loaders and floating origin are outside the core and not modelled.

## Findings

| source | as written | input that shows it | evidently intended | confidence | as-written member | corrected member |
|---|---|---|---|---|---|---|
| Assets/Scripts/Services/EpochController.cs:90 | `minute * 60` is an `int` product, so it wraps modulo 2^32 before the sum is widened to `double` | minute = 35791395 (other fields 0) gives -2147483596 seconds instead of 2147483700 | every term computed exactly, as the year, day and hour terms are | not executed | `Epoch.ComposeAsWritten` (with `Epoch.MinuteOverflow` and `Epoch.ComposeAsWrittenAgrees`) | `Epoch.Compose` (used by `OnApplyClicked`, with `Epoch.ComposeInjective` and `UpdateLabels`) |
| Assets/Scripts/Services/SphereOfInfluence/SOIController.cs:123-130 | `BuildChain` follows `FindParent` until it returns null, and `BuildHierarchy` (lines 56-59) hangs a body under the node of whatever mover its attractor belongs to, itself included; the later controller (Services/SOIController.cs:91-95, 200-207) does the same | a mover whose attractor is its own transform: its node lists itself as a child, so `FindParent` returns it forever and `BuildChain` never returns | the walk up from every node ends at a root | not executed | `SoiTree.SelfParentNeverStops` (with `SoiTree.SelfAttractorNeverStops`) | `SoiTree.ChainProperties` under `Acyclic` (required by both controllers' `Update`) |
