/** What the sphere-of-influence controllers see of a Unity scene. Transforms are
    values holding what the controllers read of them (names, tags, parents,
    components); world positions are given per frame. An `OrbitMover` component is the record
    of the fields the controllers read and write. */
module SoiScene {
  import opened Numerics
  import opened Vectors
  import opened OrbitState
  import opened OrbitAnomaly
  import opened Lists

  /** A Unity `Transform` with what the controllers read of it and of its game
      object: its name, whether it is tagged "Rocket", whether it has a `MeshRenderer`,
      whether it has a child named "velocity", and its parent. `id` tells apart
      transforms that agree on all of these. */
  datatype Transform = Transform(
    id: nat,
    name: string,
    taggedRocket: bool,
    hasMesh: bool,
    hasVelocityChild: bool,
    parent: Option<Transform>)

  /** An `OrbitMover` (Gravity/Kepler/OrbitMover.cs) as the controllers use it. Its
      `AttractorSettings` object is created with the mover and never replaced, so the
      attractor and the attractor mass are fields of the mover here. `VelocityHandle`
      is the handle's local position, or `None` when the mover has no handle. The orbit
      is a value: the controllers only ever copy whole orbits. */
  datatype OrbitMover = OrbitMover(
    enabled: bool,
    AttractorObject: Option<Transform>,
    AttractorMass: real,
    orbitData: OrbitFields,
    VelocityHandle: Option<Vector3d>)

  /** `GetComponentInParent<OrbitMover>()`: the transform itself or its nearest
      ancestor that carries a mover. */
  function MoverInParent(movers: map<Transform, OrbitMover>, t: Transform): (r: Option<Transform>)
    ensures r.Some? ==> r.value in movers
    ensures t in movers ==> r == Some(t)
  {
    if t in movers then Some(t)
    else if t.parent.Some? then MoverInParent(movers, t.parent.value)
    else None
  }

  /** `Vector3.Distance` between two transforms' world positions. */
  function Distance(m: Math, position: Transform -> Vector3d, a: Transform, b: Transform): real {
    m.magnitude(Sub(position(a), position(b)))
  }

  /** `orbitData.SetMeanAnomaly(orbitData.CalculateMeanAnomalyFromPosition())`: the
      anomalies, position and velocity re-derived from the stored relative position. */
  function Resync(m: Math, f: OrbitFields): OrbitFields {
    MeanAnomalySet(m, f, CalculateMeanAnomalyFromPosition(m, f))
  }

  /** A `foreach (var node in chain)` loop over the movers: `step` applied, in order,
      to the mover of each of the first `k` transforms of `ts`, each time to the mover
      as the loop has left it; a transform without a mover (`GetComponent` returning
      null) is skipped. */
  function UpdateEach(movers: map<Transform, OrbitMover>, ts: seq<Transform>,
                      step: (OrbitMover, nat) -> OrbitMover, k: nat): map<Transform, OrbitMover>
    requires k <= |ts|
  {
    if k == 0 then movers
    else
      var ms := UpdateEach(movers, ts, step, k - 1);
      if ts[k - 1] in ms then ms[ts[k - 1] := step(ms[ts[k - 1]], k - 1)] else ms
  }

  /** The loop adds no mover and leaves alone every mover whose transform it has not
      reached. */
  lemma {:induction false} UpdateEachFrame(movers: map<Transform, OrbitMover>, ts: seq<Transform>,
                                           step: (OrbitMover, nat) -> OrbitMover, k: nat)
    requires k <= |ts|
    ensures var ms := UpdateEach(movers, ts, step, k);
      && ms.Keys == movers.Keys
      && forall t :: t in movers && t !in ts[..k] ==> ms[t] == movers[t]
  {
    if k > 0 {
      UpdateEachFrame(movers, ts, step, k - 1);
      assert ts[..k] == ts[..k - 1] + [ts[k - 1]];
    }
  }

  /** Over distinct transforms, each of the first `k` that has a mover is stepped
      exactly once, from its mover as it was. */
  lemma {:induction false} UpdateEachAt(movers: map<Transform, OrbitMover>, ts: seq<Transform>,
                                        step: (OrbitMover, nat) -> OrbitMover, k: nat)
    requires k <= |ts| && NoDuplicates(ts)
    ensures var ms := UpdateEach(movers, ts, step, k);
      forall i :: 0 <= i < k && ts[i] in movers ==> ts[i] in ms && ms[ts[i]] == step(movers[ts[i]], i)
  {
    if k > 0 {
      UpdateEachAt(movers, ts, step, k - 1);
      UpdateEachFrame(movers, ts, step, k - 1);
      assert ts[k - 1] !in ts[..k - 1];
    }
  }

  /** `a` and `b` describe the same conic: they differ at most in the anomalies and in
      the position and velocity on it. */
  predicate SameConic(a: OrbitFields, b: OrbitFields) {
    a.(MeanAnomaly := b.MeanAnomaly, EccentricAnomaly := b.EccentricAnomaly, TrueAnomaly := b.TrueAnomaly,
       positionRelativeToAttractor := b.positionRelativeToAttractor,
       velocityRelativeToAttractor := b.velocityRelativeToAttractor) == b
  }
}
