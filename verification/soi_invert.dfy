/** The sphere-of-influence controller of Services/SOIController.cs, the later variant
    of the one in `SoiChain`. A node is made for the first mover of each name; a body
    drawn by a mesh of its own and without a velocity handle is represented by its
    parent's node; each node carries a sphere-of-influence radius derived from its
    mover's orbit; and a switch (`InvertOrbits`) also snapshots and restores the
    attractor mass and the position of the velocity handle, and re-derives every
    orbit it touches from its position. */
module SoiInvert {
  import opened Numerics
  import opened Vectors
  import opened OrbitState
  import opened OrbitAnomaly
  import opened Lists
  import opened SoiScene
  import opened SoiTree
  import opened BodyNode

  function NamesOf(ns: seq<CelestialBodyNode>): (r: seq<string>)
    ensures |r| == |ns| && forall i :: 0 <= i < |ns| ==> r[i] == ns[i].Name
  {
    seq(|ns|, i requires 0 <= i < |ns| => ns[i].Name)
  }

  function TransformsOf(ns: seq<CelestialBodyNode>): (r: seq<Transform>)
    ensures |r| == |ns| && forall i :: 0 <= i < |ns| ==> r[i] == ns[i].Transform
  {
    seq(|ns|, i requires 0 <= i < |ns| => ns[i].Transform)
  }

  function Opt(n: CelestialBodyNode?): Option<CelestialBodyNode> {
    if n == null then None else Some(n as CelestialBodyNode)
  }

  function OrNull(n: Option<CelestialBodyNode>): CelestialBodyNode? {
    if n.Some? then n.value else null
  }

  /** `_nodes.Values` with their children, in enumeration order. */
  function TableOf(vs: seq<CelestialBodyNode>): (t: Table<CelestialBodyNode>)
    reads vs
    ensures |t| == |vs| && forall i :: 0 <= i < |vs| ==> t[i] == (vs[i], vs[i].children)
  {
    seq(|vs|, i requires 0 <= i < |vs| reads vs => (vs[i], vs[i].children))
  }

  // ---------------------------------------------------------------------------
  // BuildHierarchy, stated over values

  /** The movers of `FindObjectsOfType<OrbitMover>()` other than the active rocket, in
      the order found. */
  function Bodies(rocket: Option<Transform>, objects: seq<Transform>): (bs: seq<Transform>)
    ensures forall t :: t in bs ==> t in objects && rocket != Some(t)
  {
    if objects == [] then []
    else
      var bs := Bodies(rocket, objects[..|objects| - 1]);
      var t := objects[|objects| - 1];
      if rocket != Some(t) then bs + [t] else bs
  }

  /** The transform whose node stands for `t`: a transform with a `MeshRenderer`, no
      child named "velocity" and a parent is the visible part of its parent's body. */
  function NodeTransform(t: Transform): Transform {
    if t.hasMesh && !t.hasVelocityChild && t.parent.Some? then t.parent.value else t
  }

  /** The first pass: a node is created for a name only when none exists, so the first
      body carrying a name owns it. */
  function FirstOwners(bodies: seq<Transform>): Keys<Transform> {
    if bodies == [] then Keys([], map[])
    else
      var r := FirstOwners(bodies[..|bodies| - 1]);
      var t := bodies[|bodies| - 1];
      if t.name in r.owner then r else Keys(r.order + [t.name], r.owner[t.name := t])
  }

  /** No body before the `i`th carries its name. */
  predicate FirstNamed(bodies: seq<Transform>, i: nat)
    requires i < |bodies|
  {
    forall j :: 0 <= j < i ==> bodies[j].name != bodies[i].name
  }

  /** The first pass lists each name once, in the order it was first met, keys every
      body's name, and keeps for each name a body carrying it. */
  lemma {:induction false} FirstOwnersProperties(bodies: seq<Transform>)
    ensures var r := FirstOwners(bodies);
      && NoDuplicates(r.order)
      && (forall k :: k in r.owner <==> k in r.order)
      && (forall k :: k in r.owner ==> r.owner[k].name == k && r.owner[k] in bodies)
      && (forall t :: t in bodies ==> t.name in r.owner)
  {
    if bodies != [] {
      var p := bodies[..|bodies| - 1];
      FirstOwnersProperties(p);
      assert forall u :: u in p ==> u in bodies;
      assert forall u :: u in bodies ==> u in p || u == bodies[|bodies| - 1];
    }
  }

  /** The body a name keeps is the first carrying it: a later body with the same name
      is skipped. */
  lemma {:induction false} FirstOwnersFirst(bodies: seq<Transform>)
    ensures forall i :: 0 <= i < |bodies| && FirstNamed(bodies, i) ==>
      bodies[i].name in FirstOwners(bodies).owner && FirstOwners(bodies).owner[bodies[i].name] == bodies[i]
  {
    if bodies != [] {
      var p := bodies[..|bodies| - 1];
      var t := bodies[|bodies| - 1];
      FirstOwnersFirst(p);
      FirstOwnersProperties(p);
      forall i | 0 <= i < |bodies| && FirstNamed(bodies, i)
        ensures bodies[i].name in FirstOwners(bodies).owner && FirstOwners(bodies).owner[bodies[i].name] == bodies[i]
      {
        if i < |p| {
          assert FirstNamed(p, i) && p[i] == bodies[i];
          assert p[i].name in FirstOwners(p).owner && FirstOwners(p).owner[p[i].name] == p[i];
          if t.name !in FirstOwners(p).owner {
            assert t.name != p[i].name;
          }
        } else {
          FirstNamedUnowned(bodies);
        }
      }
    }
  }

  /** A last body whose name no earlier body carries finds its name not yet keyed. */
  lemma {:induction false} FirstNamedUnowned(bodies: seq<Transform>)
    requires bodies != [] && FirstNamed(bodies, |bodies| - 1)
    ensures bodies[|bodies| - 1].name !in FirstOwners(bodies[..|bodies| - 1]).owner
  {
    var p := bodies[..|bodies| - 1];
    FirstOwnersProperties(p);
    forall u | u in p
      ensures u.name != bodies[|bodies| - 1].name
    {
      var j :| 0 <= j < |p| && p[j] == u;
      assert bodies[j] == u;
    }
  }

  /** The node the body's attractor stands for, when the attractor is set and that
      node exists. */
  function AttractorNode(movers: map<Transform, OrbitMover>, keys: set<string>, t: Transform): (p: Option<string>)
    ensures p.Some? ==> p.value in keys
  {
    if t in movers && movers[t].AttractorObject.Some? && NodeTransform(movers[t].AttractorObject.value).name in keys
    then Some(NodeTransform(movers[t].AttractorObject.value).name)
    else None
  }

  /** One body of the second pass: skipped when its node is missing; otherwise under
      its attractor's node, or a root unless its node's transform is the rocket. */
  function LinkOf(movers: map<Transform, OrbitMover>, rocket: Option<Transform>, fp: Keys<Transform>, t: Transform): (l: Link)
    ensures l.parent.Some? ==> l.parent.value in fp.owner
  {
    var name := NodeTransform(t).name;
    if name in fp.owner then Link(name, AttractorNode(movers, fp.owner.Keys, t), rocket != Some(fp.owner[name]))
    else Link(name, None, false)
  }

  function Links(movers: map<Transform, OrbitMover>, rocket: Option<Transform>, fp: Keys<Transform>,
                 bodies: seq<Transform>): (ls: seq<Link>)
    ensures |ls| == |bodies| && LinksWithin(fp.owner.Keys, ls)
    ensures forall i :: 0 <= i < |bodies| ==> ls[i] == LinkOf(movers, rocket, fp, bodies[i])
  {
    seq(|bodies|, i requires 0 <= i < |bodies| => LinkOf(movers, rocket, fp, bodies[i]))
  }

  /** The tree `BuildHierarchy` builds, by name. */
  function TreeOf(movers: map<Transform, OrbitMover>, rocket: Option<Transform>, objects: seq<Transform>): Hierarchy {
    var bodies := Bodies(rocket, objects);
    var fp := FirstOwners(bodies);
    Built(fp.owner.Keys, Links(movers, rocket, fp, bodies))
  }

  /** Body `t` makes its node `x` a root: the node exists and the attractor's does not. */
  predicate RootFor(movers: map<Transform, OrbitMover>, fp: Keys<Transform>, t: Transform, x: string) {
    NodeTransform(t).name == x && x in fp.owner && AttractorNode(movers, fp.owner.Keys, t).None?
  }

  /** Body `t` hangs its node `x` under the attractor's node `k`. */
  predicate ChildFor(movers: map<Transform, OrbitMover>, fp: Keys<Transform>, t: Transform, x: string, k: string) {
    NodeTransform(t).name == x && x in fp.owner && AttractorNode(movers, fp.owner.Keys, t) == Some(k)
  }

  /** A body's step makes its node a root when the node exists, the attractor's node
      does not and the node is not the rocket's, and hangs it under the attractor's
      node when both exist. */
  lemma {:induction false} LinkOfMeaning(movers: map<Transform, OrbitMover>, rocket: Option<Transform>, fp: Keys<Transform>, t: Transform)
    ensures forall x :: MakesRoot(LinkOf(movers, rocket, fp, t), x) <==>
      RootFor(movers, fp, t, x) && rocket != Some(fp.owner[x])
    ensures forall k, x :: Hangs(LinkOf(movers, rocket, fp, t), x, k) <==> ChildFor(movers, fp, t, x, k)
  {
  }

  /** What the tree holds: a node is a root exactly when some body it stands for has
      no attractor node, and a child of `k` exactly when some body it stands for has
      `k` as its attractor's node; bodies whose node is missing appear nowhere, and
      the rocket is never a root. */
  lemma {:induction false} HierarchyMembers(movers: map<Transform, OrbitMover>, rocket: Option<Transform>, objects: seq<Transform>)
    ensures var bodies := Bodies(rocket, objects);
      var fp := FirstOwners(bodies);
      var h := TreeOf(movers, rocket, objects);
      && (forall x :: x in h.roots <==> exists i :: 0 <= i < |bodies| && RootFor(movers, fp, bodies[i], x))
      && (forall k, x :: k in h.children ==>
            (x in h.children[k] <==> exists i :: 0 <= i < |bodies| && ChildFor(movers, fp, bodies[i], x, k)))
      && (forall x :: x in h.roots ==> x in fp.owner && rocket != Some(fp.owner[x]))
  {
    var bodies := Bodies(rocket, objects);
    HierarchyRoots(movers, rocket, bodies, FirstOwners(bodies));
    HierarchyChildren(movers, rocket, bodies, FirstOwners(bodies));
  }

  /** The roots half of `HierarchyMembers`. */
  lemma {:induction false} HierarchyRoots(movers: map<Transform, OrbitMover>, rocket: Option<Transform>, bodies: seq<Transform>, fp: Keys<Transform>)
    requires fp == FirstOwners(bodies) && forall t :: t in bodies ==> rocket != Some(t)
    ensures forall x :: x in Built(fp.owner.Keys, Links(movers, rocket, fp, bodies)).roots <==>
      exists i :: 0 <= i < |bodies| && RootFor(movers, fp, bodies[i], x)
    ensures forall x :: x in Built(fp.owner.Keys, Links(movers, rocket, fp, bodies)).roots ==>
      x in fp.owner && rocket != Some(fp.owner[x])
  {
    var ls := Links(movers, rocket, fp, bodies);
    FirstOwnersProperties(bodies);
    BuiltRoots(fp.owner.Keys, ls);
    forall x
      ensures x in Built(fp.owner.Keys, ls).roots <==> exists i :: 0 <= i < |bodies| && RootFor(movers, fp, bodies[i], x)
      ensures x in Built(fp.owner.Keys, ls).roots ==> x in fp.owner && rocket != Some(fp.owner[x])
    {
      if x in Built(fp.owner.Keys, ls).roots {
        var i :| 0 <= i < |ls| && MakesRoot(ls[i], x);
        LinkOfMeaning(movers, rocket, fp, bodies[i]);
      } else {
        forall i | 0 <= i < |bodies|
          ensures !RootFor(movers, fp, bodies[i], x)
        {
          LinkOfMeaning(movers, rocket, fp, bodies[i]);
          if x in fp.owner {
            assert fp.owner[x] in bodies;
          }
        }
      }
    }
  }

  /** The children half of `HierarchyMembers`. */
  lemma {:induction false} HierarchyChildren(movers: map<Transform, OrbitMover>, rocket: Option<Transform>, bodies: seq<Transform>, fp: Keys<Transform>)
    requires fp == FirstOwners(bodies)
    ensures forall k, x :: k in Built(fp.owner.Keys, Links(movers, rocket, fp, bodies)).children ==>
      (x in Built(fp.owner.Keys, Links(movers, rocket, fp, bodies)).children[k] <==>
       exists i :: 0 <= i < |bodies| && ChildFor(movers, fp, bodies[i], x, k))
  {
    var ls := Links(movers, rocket, fp, bodies);
    BuiltChildren(fp.owner.Keys, ls);
    forall k, x | k in Built(fp.owner.Keys, ls).children
      ensures x in Built(fp.owner.Keys, ls).children[k] <==> exists i :: 0 <= i < |bodies| && ChildFor(movers, fp, bodies[i], x, k)
    {
      if x in Built(fp.owner.Keys, ls).children[k] {
        var i :| 0 <= i < |ls| && Hangs(ls[i], x, k);
        LinkOfMeaning(movers, rocket, fp, bodies[i]);
      } else {
        forall i | 0 <= i < |bodies|
          ensures !ChildFor(movers, fp, bodies[i], x, k)
        {
          LinkOfMeaning(movers, rocket, fp, bodies[i]);
        }
      }
    }
  }

  /** `SphereOfInfluenceRadius = a * Math.Pow(m / M, 0.4)` for a mover: its orbit's
      semi-major axis scaled by the ratio of its attractor masses, the one it is given
      over the one its orbit was computed with. */
  function SphereRadius(m: Math, mv: OrbitMover): real {
    mv.orbitData.SemiMajorAxis * m.pow(Div(mv.AttractorMass, mv.orbitData.AttractorMass), 0.4)
  }

  /** The third pass sets the radius of the node of `t`: `t` has a mover and is not
      the rocket. */
  predicate HasSphere(movers: map<Transform, OrbitMover>, rocket: Option<Transform>, t: Transform) {
    t in movers && rocket != Some(t)
  }

  /** The radius the third pass gives the node of transform `t`; a node without a
      mover, or the rocket's, keeps the 0 it was created with. */
  function RadiusFor(m: Math, movers: map<Transform, OrbitMover>, rocket: Option<Transform>, t: Transform): real {
    if HasSphere(movers, rocket, t) then SphereRadius(m, movers[t]) else 0.0
  }

  /** When the two mass fields agree, as they do once the mover has refreshed its
      orbit, the radius is the semi-major axis itself; with positive masses it has the
      sign of the semi-major axis. */
  lemma {:induction false} SphereRadiusProperties(m: Math, mv: OrbitMover)
    requires m.Ranges() && m.AtZero()
    ensures mv.AttractorMass == mv.orbitData.AttractorMass != 0.0 ==>
      SphereRadius(m, mv) == mv.orbitData.SemiMajorAxis
    ensures mv.AttractorMass > 0.0 && mv.orbitData.AttractorMass > 0.0 ==>
      (SphereRadius(m, mv) > 0.0 <==> mv.orbitData.SemiMajorAxis > 0.0)
  {
    if mv.AttractorMass == mv.orbitData.AttractorMass != 0.0 {
      var M := mv.orbitData.AttractorMass;
      assert Div(mv.AttractorMass, M) == M / M == 1.0;
      assert m.pow(Div(mv.AttractorMass, mv.orbitData.AttractorMass), 0.4) == 1.0;
    }
    if mv.AttractorMass > 0.0 && mv.orbitData.AttractorMass > 0.0 {
      assert Div(mv.AttractorMass, mv.orbitData.AttractorMass) > 0.0;
      assert m.pow(Div(mv.AttractorMass, mv.orbitData.AttractorMass), 0.4) > 0.0;
      PositiveProduct(mv.orbitData.SemiMajorAxis, m.pow(Div(mv.AttractorMass, mv.orbitData.AttractorMass), 0.4));
    }
  }

  /** A product with a positive factor has the sign of the other factor. */
  lemma {:induction false} PositiveProduct(a: real, p: real)
    requires p > 0.0
    ensures a * p > 0.0 <==> a > 0.0
  {
    if a > 0.0 {
      assert a * p > 0.0;
    } else {
      assert a * p <= 0.0;
    }
  }

  // ---------------------------------------------------------------------------
  // Detection in Update, stated over values

  /** One node as the loop of `Update` sees it: it covers the rocket when the rocket is
      within the node's own sphere-of-influence radius. */
  function CandidateOf(m: Math, position: Transform -> Vector3d, rocket: Transform, n: CelestialBodyNode): Candidate<CelestialBodyNode>
    reads n
  {
    var dist := Distance(m, position, rocket, n.Transform);
    Candidate(n, dist <= n.SphereOfInfluenceRadius, dist)
  }

  function Candidates(m: Math, position: Transform -> Vector3d, rocket: Transform,
                      vs: seq<CelestialBodyNode>): (cs: seq<Candidate<CelestialBodyNode>>)
    reads vs
    ensures |cs| == |vs| && forall i :: 0 <= i < |vs| ==> cs[i] == CandidateOf(m, position, rocket, vs[i])
  {
    seq(|vs|, i requires 0 <= i < |vs| reads vs => CandidateOf(m, position, rocket, vs[i]))
  }

  /** The detection loop of `Update` over the nodes `vs`: the closest node whose radius
      reaches the rocket, or null. */
  method DetectAmong(m: Math, position: Transform -> Vector3d, rocket: Transform, vs: seq<CelestialBodyNode>)
    returns (best: CelestialBodyNode?)
    ensures best == OrNull(Closest(Candidates(m, position, rocket, vs)))
    ensures best == null || best in vs
  {
    ghost var cs := Candidates(m, position, rocket, vs);
    best := null;
    var bestDist := DoubleMax;
    ghost var bestIndex: Option<nat> := None;
    for i := 0 to |vs|
      invariant Scan(cs[..i]) == (bestIndex, bestDist)
      invariant bestIndex.None? ==> best == null
      invariant bestIndex.Some? ==> bestIndex.value < i && best == vs[bestIndex.value]
    {
      assert cs[..i + 1][..i] == cs[..i];
      var node := vs[i];
      var d := Distance(m, position, rocket, node.Transform);
      if d <= node.SphereOfInfluenceRadius && d < bestDist {
        bestDist := d;
        best := node;
        bestIndex := Some(i);
      }
    }
    assert cs[..|vs|] == cs;
  }

  // ---------------------------------------------------------------------------
  // InvertOrbits, stated over values

  /** The three snapshot dictionaries, `_savedOrbitData`, `_savedAttractors` and
      `_savedVelocities` (the handles' local positions). */
  datatype Snapshots = Snapshots(orbits: map<string, OrbitFields>, attractors: map<string, Option<Transform>>,
                                 handles: map<string, Vector3d>)

  /** The first loop of `InvertOrbits`: when the previous chain holds the new sphere's
      node, that node's mover, if any, is disabled. */
  function Disabled(movers: map<Transform, OrbitMover>, prev: seq<CelestialBodyNode>, soi: CelestialBodyNode?)
    : map<Transform, OrbitMover>
  {
    if soi != null && soi in prev && soi.Transform in movers then
      movers[soi.Transform := movers[soi.Transform].(enabled := false)]
    else movers
  }

  /** One node of the restore loop: the saved orbit, attractor and attractor mass (the
      saved orbit's), and the saved handle position when the mover has a handle, each
      where the node's name has it; then the anomalies re-derived from the position and
      the mover enabled again. */
  function Restored(m: Math, mv: OrbitMover, name: string, s: Snapshots): OrbitMover {
    var data := if name in s.orbits then s.orbits[name] else mv.orbitData;
    mv.(orbitData := Resync(m, data),
        AttractorObject := if name in s.attractors then s.attractors[name] else mv.AttractorObject,
        AttractorMass := if name in s.orbits then s.orbits[name].AttractorMass else mv.AttractorMass,
        VelocityHandle := if mv.VelocityHandle.Some? && name in s.handles then Some(s.handles[name]) else mv.VelocityHandle,
        enabled := true)
  }

  function RestoreStep(m: Math, chain: seq<CelestialBodyNode>, s: Snapshots): (OrbitMover, nat) -> OrbitMover {
    (mv: OrbitMover, i: nat) => if i < |chain| then Restored(m, mv, chain[i].Name, s) else mv
  }

  /** The movers after the restore loop over `chain`. */
  function RestoreAll(m: Math, movers: map<Transform, OrbitMover>, chain: seq<CelestialBodyNode>, s: Snapshots)
    : map<Transform, OrbitMover>
  {
    UpdateEach(movers, TransformsOf(chain), RestoreStep(m, chain, s), |chain|)
  }

  /** Restoring one more node restores that node's mover, if it has one. */
  lemma {:induction false} RestoreNext(m: Math, movers: map<Transform, OrbitMover>, chain: seq<CelestialBodyNode>,
                                       s: Snapshots, k: nat)
    requires k < |chain|
    ensures var ms := UpdateEach(movers, TransformsOf(chain), RestoreStep(m, chain, s), k);
            var t := chain[k].Transform;
            UpdateEach(movers, TransformsOf(chain), RestoreStep(m, chain, s), k + 1)
              == if t in ms then ms[t := Restored(m, ms[t], chain[k].Name, s)] else ms
  {
    assert TransformsOf(chain)[k] == chain[k].Transform;
  }

  /** Restoring a chain whose nodes have distinct transforms touches only their movers,
      each restored once from its own saved data, and adds no mover. */
  lemma {:induction false} RestoreAllProperties(m: Math, movers: map<Transform, OrbitMover>, chain: seq<CelestialBodyNode>, s: Snapshots)
    requires NoDuplicates(TransformsOf(chain))
    ensures var ms := RestoreAll(m, movers, chain, s);
      && ms.Keys == movers.Keys
      && (forall t :: t in movers && t !in TransformsOf(chain) ==> ms[t] == movers[t])
      && (forall i :: 0 <= i < |chain| && chain[i].Transform in movers ==>
            ms[chain[i].Transform] == Restored(m, movers[chain[i].Transform], chain[i].Name, s))
  {
    var ts := TransformsOf(chain);
    assert ts[..|chain|] == ts;
    UpdateEachFrame(movers, ts, RestoreStep(m, chain, s), |chain|);
    UpdateEachAt(movers, ts, RestoreStep(m, chain, s), |chain|);
  }

  /** The first loop has no lasting effect: the mover it disables belongs to the
      previous chain, and restoring that chain enables it again and reads nothing
      the loop changed. */
  lemma {:induction false} DisableUndone(m: Math, movers: map<Transform, OrbitMover>, prev: seq<CelestialBodyNode>,
                      soi: CelestialBodyNode?, s: Snapshots)
    requires NoDuplicates(TransformsOf(prev))
    ensures RestoreAll(m, Disabled(movers, prev, soi), prev, s) == RestoreAll(m, movers, prev, s)
  {
    var d := Disabled(movers, prev, soi);
    var a := RestoreAll(m, d, prev, s);
    var b := RestoreAll(m, movers, prev, s);
    DisabledOnly(movers, prev, soi);
    RestoreAllProperties(m, d, prev, s);
    RestoreAllProperties(m, movers, prev, s);
    forall t | t in movers
      ensures a[t] == b[t]
    {
      if t in TransformsOf(prev) {
        var i :| 0 <= i < |prev| && TransformsOf(prev)[i] == t;
        RestoredIgnoresEnabled(m, movers[t], prev[i].Name, s);
      } else if soi != null && soi in prev {
        var j :| 0 <= j < |prev| && prev[j] == soi;
        assert TransformsOf(prev)[j] == soi.Transform;
      }
    }
  }

  /** The first loop changes at most the `enabled` field of one mover, of a node of
      the previous chain. */
  lemma {:induction false} DisabledOnly(movers: map<Transform, OrbitMover>, prev: seq<CelestialBodyNode>, soi: CelestialBodyNode?)
    ensures var d := Disabled(movers, prev, soi);
      && d.Keys == movers.Keys
      && (forall t :: t in movers ==> d[t] == movers[t] || d[t] == movers[t].(enabled := false))
      && (forall t :: t in movers && t !in TransformsOf(prev) ==> d[t] == movers[t])
  {
    if soi != null && soi in prev && soi.Transform in movers {
      var j :| 0 <= j < |prev| && prev[j] == soi;
      assert TransformsOf(prev)[j] == soi.Transform;
    }
  }

  /** Restoring reads every field of the mover except `enabled`. */
  lemma {:induction false} RestoredIgnoresEnabled(m: Math, mv: OrbitMover, name: string, s: Snapshots)
    ensures Restored(m, mv.(enabled := false), name, s) == Restored(m, mv, name, s)
  {
  }

  /** One node of the save loop: for a node with a mover, each dictionary that has
      nothing under the node's name yet gets the orbit, the attractor and, when the
      mover has a handle, the handle's position. */
  function SaveOne(s: Snapshots, movers: map<Transform, OrbitMover>, n: CelestialBodyNode): Snapshots {
    if n.Transform !in movers then s
    else
      var mv := movers[n.Transform];
      Snapshots(if n.Name in s.orbits then s.orbits else s.orbits[n.Name := mv.orbitData],
                if n.Name in s.attractors then s.attractors else s.attractors[n.Name := mv.AttractorObject],
                if mv.VelocityHandle.Some? && n.Name !in s.handles then s.handles[n.Name := mv.VelocityHandle.value]
                else s.handles)
  }

  function SaveAll(s: Snapshots, movers: map<Transform, OrbitMover>, chain: seq<CelestialBodyNode>): Snapshots {
    if chain == [] then s else SaveOne(SaveAll(s, movers, chain[..|chain| - 1]), movers, chain[|chain| - 1])
  }

  /** Saving never overwrites a snapshot and adds only names of chain nodes. */
  lemma {:induction false} SaveAllKeeps(s: Snapshots, movers: map<Transform, OrbitMover>, chain: seq<CelestialBodyNode>)
    ensures var r := SaveAll(s, movers, chain);
      && (forall k :: k in s.orbits ==> k in r.orbits && r.orbits[k] == s.orbits[k])
      && (forall k :: k in s.attractors ==> k in r.attractors && r.attractors[k] == s.attractors[k])
      && (forall k :: k in s.handles ==> k in r.handles && r.handles[k] == s.handles[k])
      && (forall k :: k in r.orbits ==> k in s.orbits || k in NamesOf(chain))
      && (forall k :: k in r.attractors ==> k in s.attractors || k in NamesOf(chain))
      && (forall k :: k in r.handles ==> k in s.handles || k in NamesOf(chain))
  {
    if chain != [] {
      var p := chain[..|chain| - 1];
      SaveAllKeeps(s, movers, p);
      var r0 := SaveAll(s, movers, p);
      var n := chain[|chain| - 1];
      assert SaveAll(s, movers, chain) == SaveOne(r0, movers, n);
      assert n.Name == NamesOf(chain)[|p|];
      assert forall k :: k in NamesOf(p) ==> k in NamesOf(chain) by {
        forall k | k in NamesOf(p) ensures k in NamesOf(chain) {
          var i :| 0 <= i < |p| && NamesOf(p)[i] == k;
          assert NamesOf(chain)[i] == k;
        }
      }
    }
  }

  /** After saving, every chain node with a mover has an orbit and an attractor saved
      under its name, and a handle position when its mover has a handle. */
  lemma {:induction false} SaveAllCovers(s: Snapshots, movers: map<Transform, OrbitMover>, chain: seq<CelestialBodyNode>)
    ensures var r := SaveAll(s, movers, chain);
      forall i :: 0 <= i < |chain| && chain[i].Transform in movers ==>
        && chain[i].Name in r.orbits && chain[i].Name in r.attractors
        && (movers[chain[i].Transform].VelocityHandle.Some? ==> chain[i].Name in r.handles)
  {
    if chain != [] {
      var p := chain[..|chain| - 1];
      SaveAllCovers(s, movers, p);
      SaveAllKeeps(SaveAll(s, movers, p), movers, [chain[|chain| - 1]]);
      assert SaveAll(SaveAll(s, movers, p), movers, [chain[|chain| - 1]]) == SaveAll(s, movers, chain) by {
        assert [chain[|chain| - 1]][..0] == [];
      }
    }
  }

  /** A name first saved by this call, in a chain of distinct names, holds that node's
      own orbit, attractor and handle position. */
  lemma {:induction false} SaveAllFirst(s: Snapshots, movers: map<Transform, OrbitMover>, chain: seq<CelestialBodyNode>)
    requires NoDuplicates(NamesOf(chain))
    ensures var r := SaveAll(s, movers, chain);
      forall i :: 0 <= i < |chain| && chain[i].Transform in movers ==>
        var mv := movers[chain[i].Transform];
        && (chain[i].Name !in s.orbits ==> chain[i].Name in r.orbits && r.orbits[chain[i].Name] == mv.orbitData)
        && (chain[i].Name !in s.attractors ==>
              chain[i].Name in r.attractors && r.attractors[chain[i].Name] == mv.AttractorObject)
        && (chain[i].Name !in s.handles && mv.VelocityHandle.Some? ==>
              chain[i].Name in r.handles && r.handles[chain[i].Name] == mv.VelocityHandle.value)
  {
    if chain != [] {
      var p := chain[..|chain| - 1];
      var n := chain[|chain| - 1];
      assert forall i :: 0 <= i < |p| ==> NamesOf(p)[i] == NamesOf(chain)[i];
      assert n.Name == NamesOf(chain)[|p|];
      SaveAllFirst(s, movers, p);
      SaveAllNew(s, movers, p, n.Name);
    }
  }

  /** A name outside the chain gets no snapshot it did not have. */
  lemma {:induction false} SaveAllNew(s: Snapshots, movers: map<Transform, OrbitMover>, chain: seq<CelestialBodyNode>, k: string)
    requires k !in NamesOf(chain)
    ensures var r := SaveAll(s, movers, chain);
      && (k !in s.orbits ==> k !in r.orbits)
      && (k !in s.attractors ==> k !in r.attractors)
      && (k !in s.handles ==> k !in r.handles)
  {
    if chain != [] {
      var p := chain[..|chain| - 1];
      assert forall i :: 0 <= i < |p| ==> NamesOf(p)[i] == NamesOf(chain)[i];
      SaveAllNew(s, movers, p, k);
    }
  }

  /** One node of the apply loop: enabled unless it is the new sphere's node, attracted
      by the next node inward (none for the last); when the next node's name has a saved
      orbit, that orbit with the node's own position relative to the next node, and the
      attractor mass of that orbit; when the mover has a handle and the next node's
      name has a saved handle position, the handle at its negation; and the anomalies
      re-derived from the position. */
  function Applied(m: Math, position: Transform -> Vector3d, s: Snapshots, mv: OrbitMover,
                   chain: seq<CelestialBodyNode>, soi: CelestialBodyNode?, i: nat): OrbitMover
    requires i < |chain|
  {
    var node := chain[i];
    var next := if i + 1 < |chain| then Some(chain[i + 1].Transform) else None;
    var saved := next.Some? && next.value.name in s.orbits;
    var src :=
      if saved then s.orbits[next.value.name].(positionRelativeToAttractor := Sub(position(node.Transform), position(next.value)))
      else mv.orbitData;
    mv.(enabled := node != soi, AttractorObject := next, orbitData := Resync(m, src),
        AttractorMass := if saved then s.orbits[next.value.name].AttractorMass else mv.AttractorMass,
        VelocityHandle :=
          if mv.VelocityHandle.Some? && next.Some? && next.value.name in s.handles then Some(Neg(s.handles[next.value.name]))
          else mv.VelocityHandle)
  }

  function ApplyStep(m: Math, position: Transform -> Vector3d, s: Snapshots,
                     chain: seq<CelestialBodyNode>, soi: CelestialBodyNode?): (OrbitMover, nat) -> OrbitMover
  {
    (mv: OrbitMover, i: nat) => if i < |chain| then Applied(m, position, s, mv, chain, soi, i) else mv
  }

  /** The movers after the first `k` nodes of `chain` are applied. */
  function ApplyUpTo(m: Math, position: Transform -> Vector3d, s: Snapshots,
                     movers: map<Transform, OrbitMover>, chain: seq<CelestialBodyNode>, soi: CelestialBodyNode?, k: nat)
    : map<Transform, OrbitMover>
    requires k <= |chain|
  {
    UpdateEach(movers, TransformsOf(chain), ApplyStep(m, position, s, chain, soi), k)
  }

  /** Applying one more node applies `Applied` to that node's mover, if it has one. */
  lemma {:induction false} ApplyUpToNext(m: Math, position: Transform -> Vector3d, s: Snapshots,
                      movers: map<Transform, OrbitMover>, chain: seq<CelestialBodyNode>, soi: CelestialBodyNode?, k: nat)
    requires k < |chain|
    ensures var ms := ApplyUpTo(m, position, s, movers, chain, soi, k);
            var t := chain[k].Transform;
            ApplyUpTo(m, position, s, movers, chain, soi, k + 1)
              == if t in ms then ms[t := Applied(m, position, s, ms[t], chain, soi, k)] else ms
  {
    assert TransformsOf(chain)[k] == chain[k].Transform;
  }

  /** A node applied in a chain is attracted by the next node inward (the last by
      none) and is enabled exactly when it is not the new sphere's node. When the next
      node's saved orbit exists it follows that conic and takes that orbit's attractor
      mass, and otherwise keeps its own; its handle, if it has one, sits at the
      negation of the next node's saved handle position when there is one; and its
      motion is consistent with its anomalies. */
  lemma {:induction false} AppliedProperties(m: Math, position: Transform -> Vector3d, s: Snapshots, mv: OrbitMover,
                          chain: seq<CelestialBodyNode>, soi: CelestialBodyNode?, i: nat)
    requires i < |chain|
    ensures var r := Applied(m, position, s, mv, chain, soi, i);
      && r.AttractorObject == (if i + 1 < |chain| then Some(chain[i + 1].Transform) else None)
      && (r.enabled <==> chain[i] != soi)
      && MotionMatchesAnomaly(m, r.orbitData)
      && (if i + 1 < |chain| && chain[i + 1].Transform.name in s.orbits then
            SameConic(r.orbitData, s.orbits[chain[i + 1].Transform.name])
            && r.AttractorMass == s.orbits[chain[i + 1].Transform.name].AttractorMass
          else SameConic(r.orbitData, mv.orbitData) && r.AttractorMass == mv.AttractorMass)
      && (r.VelocityHandle.Some? <==> mv.VelocityHandle.Some?)
      && (mv.VelocityHandle.Some? && i + 1 < |chain| && chain[i + 1].Transform.name in s.handles ==>
            r.VelocityHandle == Some(Neg(s.handles[chain[i + 1].Transform.name])))
  {
  }

  /** The outcome of applying a whole chain that ends at the new sphere's node and
      holds distinct transforms: the new sphere's body stands still, every other chain
      body is enabled and attracted by the next node inward, each has its motion
      consistent with its anomalies, and no mover outside the chain changes. */
  lemma {:induction false} ApplyChain(m: Math, position: Transform -> Vector3d, s: Snapshots,
                   movers: map<Transform, OrbitMover>, chain: seq<CelestialBodyNode>, soi: CelestialBodyNode?)
    requires NoDuplicates(TransformsOf(chain)) && (chain != [] ==> chain[|chain| - 1] == soi)
    ensures var ms := ApplyUpTo(m, position, s, movers, chain, soi, |chain|);
      && ms.Keys == movers.Keys
      && (forall t :: t in movers && t !in TransformsOf(chain) ==> ms[t] == movers[t])
      && (forall i :: 0 <= i < |chain| && chain[i].Transform in movers ==>
            && (ms[chain[i].Transform].enabled <==> i < |chain| - 1)
            && ms[chain[i].Transform].AttractorObject == (if i + 1 < |chain| then Some(chain[i + 1].Transform) else None)
            && MotionMatchesAnomaly(m, ms[chain[i].Transform].orbitData))
  {
    var ms := ApplyUpTo(m, position, s, movers, chain, soi, |chain|);
    var ts := TransformsOf(chain);
    assert ts[..|chain|] == ts;
    UpdateEachFrame(movers, ts, ApplyStep(m, position, s, chain, soi), |chain|);
    forall i | 0 <= i < |chain| && chain[i].Transform in movers
      ensures (ms[chain[i].Transform].enabled <==> i < |chain| - 1)
      ensures ms[chain[i].Transform].AttractorObject == (if i + 1 < |chain| then Some(chain[i + 1].Transform) else None)
      ensures MotionMatchesAnomaly(m, ms[chain[i].Transform].orbitData)
    {
      ApplyChainAt(m, position, s, movers, chain, soi, i);
    }
  }

  /** `ApplyChain` at one node. */
  lemma {:induction false} ApplyChainAt(m: Math, position: Transform -> Vector3d, s: Snapshots,
                     movers: map<Transform, OrbitMover>, chain: seq<CelestialBodyNode>, soi: CelestialBodyNode?, i: nat)
    requires NoDuplicates(TransformsOf(chain)) && (chain != [] ==> chain[|chain| - 1] == soi)
    requires i < |chain| && chain[i].Transform in movers
    ensures var ms := ApplyUpTo(m, position, s, movers, chain, soi, |chain|);
      && chain[i].Transform in ms
      && (ms[chain[i].Transform].enabled <==> i < |chain| - 1)
      && ms[chain[i].Transform].AttractorObject == (if i + 1 < |chain| then Some(chain[i + 1].Transform) else None)
      && MotionMatchesAnomaly(m, ms[chain[i].Transform].orbitData)
  {
    var t := chain[i].Transform;
    UpdateEachAt(movers, TransformsOf(chain), ApplyStep(m, position, s, chain, soi), |chain|);
    AppliedProperties(m, position, s, movers[t], chain, soi, i);
    assert chain[i] == soi <==> i == |chain| - 1 by {
      if i < |chain| - 1 {
        assert TransformsOf(chain)[i] != TransformsOf(chain)[|chain| - 1];
      }
    }
  }

  /** The mover `Restored` gives back to a body first saved by the same switch: its
      own orbit with the anomalies re-derived from the position, its own attractor,
      its orbit's attractor mass and its own handle position, enabled. */
  function Reverted(m: Math, mv: OrbitMover): OrbitMover {
    mv.(orbitData := Resync(m, mv.orbitData), AttractorMass := mv.orbitData.AttractorMass, enabled := true)
  }

  /** Switching in and back out: saving a chain of distinct names and transforms,
      applying it and then restoring it gives each chain body that was first saved by
      this switch its own mover back, re-derived from its position; the attractor
      mass comes back as the orbit's own, so the mover is exactly as it was, enabled,
      when the two mass fields agreed. No mover outside the chain changes. */
  lemma {:induction false} RestoreUndoesApply(m: Math, position: Transform -> Vector3d, s: Snapshots,
                           movers: map<Transform, OrbitMover>, chain: seq<CelestialBodyNode>, soi: CelestialBodyNode?)
    requires NoDuplicates(TransformsOf(chain)) && NoDuplicates(NamesOf(chain))
    ensures var r := SaveAll(s, movers, chain);
      var back := RestoreAll(m, ApplyUpTo(m, position, r, movers, chain, soi, |chain|), chain, r);
      && back.Keys == movers.Keys
      && (forall t :: t in movers && t !in TransformsOf(chain) ==> back[t] == movers[t])
      && (forall i :: (0 <= i < |chain| && chain[i].Transform in movers && chain[i].Name !in s.orbits
                       && chain[i].Name !in s.attractors && chain[i].Name !in s.handles) ==>
            back[chain[i].Transform] == Reverted(m, movers[chain[i].Transform]))
  {
    var r := SaveAll(s, movers, chain);
    var ms := ApplyUpTo(m, position, r, movers, chain, soi, |chain|);
    SaveAllCovers(s, movers, chain);
    SaveAllFirst(s, movers, chain);
    var ts := TransformsOf(chain);
    assert ts[..|chain|] == ts;
    UpdateEachFrame(movers, ts, ApplyStep(m, position, r, chain, soi), |chain|);
    RestoreAllProperties(m, ms, chain, r);
    forall i | 0 <= i < |chain| && chain[i].Transform in movers && chain[i].Name !in s.orbits
               && chain[i].Name !in s.attractors && chain[i].Name !in s.handles
      ensures RestoreAll(m, ms, chain, r)[chain[i].Transform] == Reverted(m, movers[chain[i].Transform])
    {
      RestoreAfterApply(m, position, r, movers, chain, soi, i);
    }
  }

  /** One node of `RestoreUndoesApply`: restoring overwrites all that applying changed
      when the node's orbit, attractor and (for a mover with a handle) handle position
      are the ones saved. */
  lemma {:induction false} RestoreAfterApply(m: Math, position: Transform -> Vector3d, r: Snapshots,
                          movers: map<Transform, OrbitMover>, chain: seq<CelestialBodyNode>, soi: CelestialBodyNode?, i: nat)
    requires NoDuplicates(TransformsOf(chain)) && i < |chain| && chain[i].Transform in movers
    requires var mv := movers[chain[i].Transform];
      && chain[i].Name in r.orbits && r.orbits[chain[i].Name] == mv.orbitData
      && chain[i].Name in r.attractors && r.attractors[chain[i].Name] == mv.AttractorObject
      && (mv.VelocityHandle.Some? ==> chain[i].Name in r.handles && r.handles[chain[i].Name] == mv.VelocityHandle.value)
    ensures var back := RestoreAll(m, ApplyUpTo(m, position, r, movers, chain, soi, |chain|), chain, r);
      && chain[i].Transform in back
      && back[chain[i].Transform] == Reverted(m, movers[chain[i].Transform])
  {
    var t := chain[i].Transform;
    var ts := TransformsOf(chain);
    var ms := ApplyUpTo(m, position, r, movers, chain, soi, |chain|);
    assert ts[..|chain|] == ts;
    UpdateEachAt(movers, ts, ApplyStep(m, position, r, chain, soi), |chain|);
    RestoreAllProperties(m, ms, chain, r);
    assert ms[t] == Applied(m, position, r, movers[t], chain, soi, i);
  }

  /** A switch to `newSOI`: the first loop's disabling, the previous chain `prev`
      restored from the snapshots `before`, the new `chain` built from `newSOI` over
      `table`, its snapshots taken from the restored movers, giving `after`, and the
      chain applied to them, giving `ms`. */
  ghost predicate Inverted(m: Math, position: Transform -> Vector3d, table: Table<CelestialBodyNode>, fuel: nat,
                           prev: seq<CelestialBodyNode>, before: Snapshots, movers: map<Transform, OrbitMover>,
                           newSOI: CelestialBodyNode?, chain: seq<CelestialBodyNode>, after: Snapshots,
                           ms: map<Transform, OrbitMover>)
  {
    var restored := RestoreAll(m, Disabled(movers, prev, newSOI), prev, before);
    && Some(chain) == ChainOf(table, Opt(newSOI), fuel)
    && after == SaveAll(before, restored, chain)
    && ms == ApplyUpTo(m, position, after, restored, chain, newSOI, |chain|)
  }

  // ---------------------------------------------------------------------------
  // The controller

  class SOIController {
    /** The tracked rocket, set in the editor and never assigned by the controller;
        `None` stands for null. */
    const ActiveRocket: Option<Transform>

    var nodes: map<string, CelestialBodyNode>
    /** The enumeration order of `_nodes`. */
    var order: seq<string>
    var rootBodies: seq<CelestialBodyNode>
    var currentSOI: CelestialBodyNode?
    var previousChain: seq<CelestialBodyNode>
    var savedOrbitData: map<string, OrbitFields>
    var savedAttractors: map<string, Option<Transform>>
    var savedVelocities: map<string, Vector3d>

    /** Each node is stored under its own name, which is its transform's name, and the
        enumeration order lists every key once. */
    ghost predicate Valid()
      reads this`nodes, this`order
    {
      && NoDuplicates(order)
      && (forall k :: k in nodes <==> k in order)
      && (forall k :: k in nodes ==> nodes[k].Name == k && nodes[k].Transform.name == k)
    }

    constructor (rocket: Option<Transform>)
      ensures Valid()
      ensures ActiveRocket == rocket
      ensures nodes == map[] && order == [] && rootBodies == [] && previousChain == [] && currentSOI == null
      ensures savedOrbitData == map[] && savedAttractors == map[] && savedVelocities == map[]
    {
      ActiveRocket := rocket;
      nodes, order, rootBodies := map[], [], [];
      currentSOI, previousChain := null, [];
      savedOrbitData, savedAttractors, savedVelocities := map[], map[], map[];
    }

    /** The three snapshot dictionaries as one value. */
    function Saved(): Snapshots
      reads this`savedOrbitData, this`savedAttractors, this`savedVelocities
    {
      Snapshots(savedOrbitData, savedAttractors, savedVelocities)
    }

    /** `_nodes.Values`. */
    function Values(): (vs: seq<CelestialBodyNode>)
      reads this`nodes, this`order
      requires Valid()
      ensures |vs| == |order| && forall i :: 0 <= i < |order| ==> vs[i] == nodes[order[i]]
    {
      NodesIn(nodes, order)
    }

    function Table(): Table<CelestialBodyNode>
      reads this`nodes, this`order, nodes.Values
      requires Valid()
    {
      var vs := Values();
      assert forall i :: 0 <= i < |vs| ==> vs[i] in nodes.Values;
      TableOf(vs)
    }

    /** `FindBody`: the node stored under `name`, or null. */
    function FindBody(name: string): (n: CelestialBodyNode?)
      reads this`nodes, this`order
      requires Valid()
      ensures n == null <==> name !in nodes
      ensures n != null ==> n in nodes.Values && n.Name == name && n.Transform.name == name
    {
      if name in nodes then nodes[name] else null
    }

    /** `FindParent`: `_nodes.Values.FirstOrDefault(n => n.GetChildren().Contains(child))`. */
    function FindParent(child: CelestialBodyNode): (p: CelestialBodyNode?)
      reads this`nodes, this`order, nodes.Values
      requires Valid()
      ensures Opt(p) == ParentIn(Table(), child)
    {
      var r := ParentIndex(Table(), child);
      if r.Some? then Table()[r.value].0 else null
    }

    /** The parent found is a node listing `child` among its children, and the first
        such node in enumeration order; null means that no node lists it. */
    lemma {:induction false} FindParentProperties(child: CelestialBodyNode)
      requires Valid()
      ensures var p := FindParent(child);
        && (p != null ==> p in nodes.Values && child in p.children)
        && (p != null ==>
              exists i :: 0 <= i < |order| && p == nodes[order[i]] &&
                forall j :: 0 <= j < i ==> child !in nodes[order[j]].children)
        && (p == null <==> forall k :: k in nodes ==> child !in nodes[k].children)
    {
      var r := ParentIndex(Table(), child);
      assert forall k :: k in nodes ==> exists i :: 0 <= i < |order| && order[i] == k;
      if r.Some? {
        assert FindParent(child) == nodes[order[r.value]];
      }
    }

    /** The nodes are those of the first pass, each still without children. */
    ghost predicate HoldsKeys(fp: Keys<Transform>)
      reads this`nodes, this`order, nodes.Values`children
    {
      && order == fp.order
      && (forall k :: k in nodes <==> k in fp.owner)
      && (forall k :: k in nodes ==> nodes[k].Transform == fp.owner[k] && nodes[k].children == [])
    }

    /** Every node still has the radius it was created with. */
    ghost predicate Unsized()
      reads this`nodes, nodes.Values`SphereOfInfluenceRadius
    {
      forall k :: k in nodes ==> nodes[k].SphereOfInfluenceRadius == 0.0
    }

    /** The roots and children, by name, are those of the tree `h`. */
    ghost predicate HoldsTree(h: Hierarchy)
      reads this`nodes, this`rootBodies, nodes.Values`children
    {
      && NamesOf(rootBodies) == h.roots
      && (forall k :: k in nodes ==> k in h.children && NamesOf(nodes[k].children) == h.children[k])
    }

    /** Every root and every child is the node stored under its name. */
    ghost predicate Closed()
      reads this`nodes, this`rootBodies, nodes.Values`children
    {
      && (forall c :: c in rootBodies ==> c.Name in nodes && nodes[c.Name] == c)
      && (forall k, c :: k in nodes && c in nodes[k].children ==> c.Name in nodes && nodes[c.Name] == c)
    }

    /** `BuildHierarchy`: every node is new; the enumeration order and each node's
        transform come from the first pass, the children and roots, by name, are the
        tree of the second pass, and each node's radius is the one of the third. */
    method BuildHierarchy(m: Math, movers: map<Transform, OrbitMover>, objects: seq<Transform>)
      modifies this`nodes, this`order, this`rootBodies
      ensures Valid() && Closed()
      ensures forall k :: k in nodes ==> fresh(nodes[k])
      ensures var fp := FirstOwners(Bodies(ActiveRocket, objects));
        order == fp.order && nodes.Keys == fp.owner.Keys && forall k :: k in nodes ==> nodes[k].Transform == fp.owner[k]
      ensures HoldsTree(TreeOf(movers, ActiveRocket, objects))
      ensures forall k :: k in nodes ==>
        nodes[k].SphereOfInfluenceRadius == RadiusFor(m, movers, ActiveRocket, nodes[k].Transform)
    {
      rootBodies := [];
      BuildTree(movers, objects);
      AssignRadii(m, movers);
    }

    /** The first two loops of `BuildHierarchy`. */
    method BuildTree(movers: map<Transform, OrbitMover>, objects: seq<Transform>)
      modifies this`nodes, this`order, this`rootBodies
      requires rootBodies == []
      ensures Valid() && Closed() && Unsized()
      ensures forall k :: k in nodes ==> fresh(nodes[k])
      ensures var fp := FirstOwners(Bodies(ActiveRocket, objects));
        order == fp.order && nodes.Keys == fp.owner.Keys && forall k :: k in nodes ==> nodes[k].Transform == fp.owner[k]
      ensures HoldsTree(TreeOf(movers, ActiveRocket, objects))
    {
      var bodies := Bodies(ActiveRocket, objects);
      CreateNodes(bodies);
      ghost var fp := FirstOwners(bodies);
      ghost var links := Links(movers, ActiveRocket, fp, bodies);
      LinkNodes(movers, bodies, fp, links);
      assert TreeOf(movers, ActiveRocket, objects) == Built(fp.owner.Keys, links);
    }

    /** The first loop of `BuildHierarchy`: a node for each name not met before. */
    method CreateNodes(bodies: seq<Transform>)
      modifies this`nodes, this`order
      ensures Valid() && HoldsKeys(FirstOwners(bodies)) && Unsized()
      ensures forall k :: k in nodes ==> fresh(nodes[k])
    {
      nodes, order := map[], [];
      ghost var fp: Keys<Transform> := Keys([], map[]);
      for i := 0 to |bodies|
        invariant fp == FirstOwners(bodies[..i])
        invariant order == fp.order && nodes.Keys == fp.owner.Keys
        invariant forall k :: k in nodes ==>
          && nodes[k].Name == k && nodes[k].Transform == fp.owner[k] && nodes[k].children == []
          && nodes[k].SphereOfInfluenceRadius == 0.0 && fresh(nodes[k])
      {
        var t := bodies[i];
        assert bodies[..i + 1][..i] == bodies[..i];
        if t.name !in nodes {
          var node := new CelestialBodyNode(t.name, t);
          nodes := nodes[t.name := node];
          order := order + [t.name];
          fp := Keys(fp.order + [t.name], fp.owner[t.name := t]);
        }
      }
      assert bodies[..|bodies|] == bodies;
      FirstOwnersProperties(bodies);
    }

    /** The second loop of `BuildHierarchy`, over the freshly created nodes. */
    method LinkNodes(movers: map<Transform, OrbitMover>, bodies: seq<Transform>, ghost fp: Keys<Transform>,
                     ghost links: seq<Link>)
      requires Valid() && Closed() && HoldsTree(Built(nodes.Keys, []))
      requires nodes.Keys == fp.owner.Keys && forall k :: k in nodes ==> nodes[k].Transform == fp.owner[k]
      requires links == Links(movers, ActiveRocket, fp, bodies)
      modifies this`rootBodies, nodes.Values`children
      ensures Valid() && Closed() && HoldsTree(Built(fp.owner.Keys, links))
      ensures nodes == old(nodes) && order == old(order)
    {
      ghost var h := Built(nodes.Keys, []);
      for i := 0 to |bodies|
        invariant nodes == old(nodes) && order == old(order)
        invariant h == Built(nodes.Keys, links[..i])
        invariant Valid() && Closed() && HoldsTree(h)
      {
        BuiltStep(nodes.Keys, links, i);
        AttachBody(movers, bodies[i], fp, h, links[i]);
        h := Attach(h, links[i]);
      }
      assert links[..|bodies|] == links;
    }

    /** One step of the second loop of `BuildHierarchy`: a body whose node is missing
        is skipped; otherwise its node goes under the node of its attractor, if there
        is one, and else joins the roots unless it is the rocket's. */
    method AttachBody(movers: map<Transform, OrbitMover>, t: Transform, ghost fp: Keys<Transform>,
                      ghost h: Hierarchy, ghost l: Link)
      requires Valid() && HoldsTree(h) && Closed() && h.children.Keys == nodes.Keys
      requires nodes.Keys == fp.owner.Keys && forall k :: k in nodes ==> nodes[k].Transform == fp.owner[k]
      requires l == LinkOf(movers, ActiveRocket, fp, t)
      modifies this`rootBodies, nodes.Values`children
      ensures HoldsTree(Attach(h, l)) && Closed()
      ensures nodes == old(nodes) && order == old(order)
    {
      var nodeName := NodeTransform(t).name;
      if nodeName !in nodes {
        return;
      }
      var node := nodes[nodeName];
      var rawAttractor := if t in movers then movers[t].AttractorObject else None;
      var attractor := if rawAttractor.Some? then Some(NodeTransform(rawAttractor.value)) else None;
      if attractor.Some? && attractor.value.name in nodes {
        AddUnder(nodes[attractor.value.name], node, h);
      } else if Some(node.Transform) != ActiveRocket {
        rootBodies := rootBodies + [node];
      }
    }

    /** `parentNode.AddChild(node)` between two stored nodes. */
    method AddUnder(pNode: CelestialBodyNode, node: CelestialBodyNode, ghost h: Hierarchy)
      requires Valid() && HoldsTree(h) && Closed() && h.children.Keys == nodes.Keys
      requires pNode.Name in nodes && nodes[pNode.Name] == pNode
      requires node.Name in nodes && nodes[node.Name] == node
      modifies pNode`children
      ensures HoldsTree(h.(children := h.children[pNode.Name := Adjoin(h.children[pNode.Name], node.Name)]))
      ensures Closed()
    {
      NamesAdjoin(pNode.children, node);
      pNode.AddChild(node);
      forall k | k in nodes
        ensures NamesOf(nodes[k].children) == h.children[pNode.Name := Adjoin(h.children[pNode.Name], node.Name)][k]
      {
        if k != pNode.Name {
          assert nodes[k] != pNode;
        }
      }
    }

    /** The third loop of `BuildHierarchy`: every node with a mover other than the
        rocket gets its mover's sphere-of-influence radius; the others keep the zero
        they were created with. */
    method AssignRadii(m: Math, movers: map<Transform, OrbitMover>)
      requires Valid() && Unsized()
      modifies nodes.Values`SphereOfInfluenceRadius
      ensures forall k :: k in nodes ==>
        nodes[k].SphereOfInfluenceRadius == RadiusFor(m, movers, ActiveRocket, nodes[k].Transform)
    {
      var vs := Values();
      for i := 0 to |vs|
        invariant forall j :: 0 <= j < i ==> vs[j].SphereOfInfluenceRadius == RadiusFor(m, movers, ActiveRocket, vs[j].Transform)
        invariant forall j :: i <= j < |vs| ==> vs[j].SphereOfInfluenceRadius == 0.0
      {
        var node := vs[i];
        assert forall j :: 0 <= j < |vs| && j != i ==> vs[j].Name != node.Name;
        if node.Transform !in movers || ActiveRocket == Some(node.Transform) {
          continue;
        }
        node.SphereOfInfluenceRadius := SphereRadius(m, movers[node.Transform]);
      }
      forall k | k in nodes
        ensures exists j :: 0 <= j < |vs| && vs[j] == nodes[k]
      {
        var j :| 0 <= j < |order| && order[j] == k;
        assert vs[j] == nodes[k];
      }
    }

    /** The detection loop of `Update`: the closest node, in enumeration order, whose
        radius reaches the rocket, or null when there is none. */
    method DetectNewSOI(m: Math, position: Transform -> Vector3d) returns (best: CelestialBodyNode?)
      requires Valid() && ActiveRocket.Some?
      ensures best == Detected(m, position)
      ensures best == null || best in nodes.Values
    {
      best := DetectAmong(m, position, ActiveRocket.value, Values());
    }

    /** The node the detection loop settles on. */
    function Detected(m: Math, position: Transform -> Vector3d): CelestialBodyNode?
      reads this`nodes, this`order, nodes.Values
      requires Valid() && ActiveRocket.Some?
    {
      OrNull(Closest(Candidates(m, position, ActiveRocket.value, Values())))
    }

    /** The chain of `InvertOrbits`: the nodes from the given one up through
        `FindParent` until null, reversed so that the root comes first. The loop stops
        only when the parent walk does, which takes at most one step per node beyond
        the first. */
    method BuildChain(soi: CelestialBodyNode?) returns (chain: seq<CelestialBodyNode>)
      requires Valid() && Walk(Table(), Opt(soi), |order| + 1).Some?
      ensures Some(chain) == ChainOf(Table(), Opt(soi), |order| + 1)
    {
      ghost var t := Table();
      ghost var walk := Walk(t, Opt(soi), |order| + 1).value;
      ghost var fuel: nat := |order| + 1;
      ghost var rest := walk;
      chain := [];
      var n := soi;
      while n != null
        invariant t == Table() && Walk(t, Opt(n), fuel) == Some(rest) && walk == chain + rest
        decreases fuel
      {
        var node: CelestialBodyNode := n;
        var parent := FindParent(node);
        WalkAdvance(t, node, Opt(parent), fuel, chain, rest);
        chain, rest, fuel := chain + [node], rest[1..], fuel - 1;
        n := parent;
      }
      assert walk == chain + [] == chain;
      chain := Reverse(chain);
    }

    /** A node's parent, when it has one, is a stored node. */
    lemma {:induction false} ParentStored(child: CelestialBodyNode)
      requires Valid()
      ensures ParentIn(Table(), child).Some? ==> ParentIn(Table(), child).value in nodes.Values
    {
      var r := ParentIndex(Table(), child);
      if r.Some? {
        assert Table()[r.value].0 == nodes[order[r.value]];
      }
    }

    /** A chain from a stored node, or from null, holds stored nodes only, and no two
        of them share a name or a transform. */
    lemma {:induction false} ChainNodes(soi: CelestialBodyNode?)
      requires Valid() && (soi == null || soi in nodes.Values)
      requires ChainOf(Table(), Opt(soi), |order| + 1).Some?
      ensures var c := ChainOf(Table(), Opt(soi), |order| + 1).value;
        && (forall i :: 0 <= i < |c| ==> c[i] in nodes.Values)
        && NoDuplicates(NamesOf(c)) && NoDuplicates(TransformsOf(c))
    {
      var t := Table();
      var c := ChainOf(t, Opt(soi), |order| + 1).value;
      ChainProperties(t, Opt(soi), |order| + 1);
      forall i | 0 <= i < |c|
        ensures c[i] in nodes.Values
      {
        if i < |c| - 1 {
          ParentStored(c[i + 1]);
        }
      }
      forall i, j | 0 <= i < j < |c|
        ensures c[i].Name != c[j].Name && c[i].Transform != c[j].Transform
      {
        var ki :| ki in nodes && nodes[ki] == c[i];
        var kj :| kj in nodes && nodes[kj] == c[j];
      }
      assert NoDuplicates(NamesOf(c)) by {
        forall i, j | 0 <= i < j < |c| ensures NamesOf(c)[i] != NamesOf(c)[j] {}
      }
      assert NoDuplicates(TransformsOf(c)) by {
        forall i, j | 0 <= i < j < |c| ensures TransformsOf(c)[i] != TransformsOf(c)[j] {}
      }
    }

    /** Every stored node's `FindParent` walk stops, so that `BuildChain` returns. */
    ghost predicate Acyclic()
      reads this`nodes, this`order, nodes.Values
      requires Valid()
    {
      forall n, fuel :: n in nodes.Values && fuel == |order| + 1 ==> Walk(Table(), Some(n), fuel).Some?
    }

    /** In an acyclic tree the walk up from null or from a stored node stops. */
    lemma {:induction false} WalkStops(n: CelestialBodyNode?)
      requires Valid() && Acyclic() && (n == null || n in nodes.Values)
      ensures Walk(Table(), Opt(n), |order| + 1).Some?
    {
      if n != null {
        assert Walk(Table(), Some(n as CelestialBodyNode), |order| + 1).Some?;
      }
    }

    /** The first loop of `InvertOrbits`: the mover of the new sphere's node, when the
        previous chain holds that node, is disabled, and the loop stops there. */
    method DisableInPrevious(movers: map<Transform, OrbitMover>, newSOI: CelestialBodyNode?)
      returns (ms: map<Transform, OrbitMover>)
      ensures ms == Disabled(movers, previousChain, newSOI)
    {
      ms := movers;
      for i := 0 to |previousChain|
        invariant forall j :: 0 <= j < i ==> previousChain[j] != newSOI
      {
        var node := previousChain[i];
        if node == newSOI {
          if node.Transform in ms {
            ms := ms[node.Transform := ms[node.Transform].(enabled := false)];
          }
          return;
        }
      }
    }

    /** The restore loop of `InvertOrbits` over the previous chain. */
    method RestorePreviousChain(m: Math, movers: map<Transform, OrbitMover>) returns (ms: map<Transform, OrbitMover>)
      ensures ms == RestoreAll(m, movers, previousChain, Saved())
    {
      ms := movers;
      ghost var ts := TransformsOf(previousChain);
      for i := 0 to |previousChain|
        invariant ms == UpdateEach(movers, ts, RestoreStep(m, previousChain, Saved()), i)
      {
        RestoreNext(m, movers, previousChain, Saved(), i);
        var node := previousChain[i];
        if node.Transform !in ms {
          continue;
        }
        var mover := RestoreNode(m, ms[node.Transform], node.Name);
        ms := ms[node.Transform := mover];
      }
    }

    /** The body of the restore loop for the mover of the node named `name`. */
    method RestoreNode(m: Math, mover: OrbitMover, name: string) returns (r: OrbitMover)
      ensures r == Restored(m, mover, name, Saved())
    {
      r := mover;
      var data := r.orbitData;
      if name in savedOrbitData {
        data := savedOrbitData[name];
      }
      if name in savedAttractors {
        r := r.(AttractorObject := savedAttractors[name]);
      }
      if name in savedOrbitData {
        r := r.(AttractorMass := savedOrbitData[name].AttractorMass);
      }
      if r.VelocityHandle.Some? && name in savedVelocities {
        r := r.(VelocityHandle := Some(savedVelocities[name]));
      }
      var M := CalculateMeanAnomalyFromPosition(m, data);
      data := MeanAnomalySet(m, data, M);
      r := r.(orbitData := data, enabled := true);
    }

    /** The save loop of `InvertOrbits`: for each chain node with a mover, each
        dictionary without an entry under the node's name gets one. */
    method SaveChainData(movers: map<Transform, OrbitMover>, chain: seq<CelestialBodyNode>)
      modifies this`savedOrbitData, this`savedAttractors, this`savedVelocities
      ensures Saved() == SaveAll(old(Saved()), movers, chain)
    {
      ghost var s0 := Saved();
      for i := 0 to |chain|
        invariant Saved() == SaveAll(s0, movers, chain[..i])
      {
        assert chain[..i + 1][..i] == chain[..i];
        var n := chain[i];
        if n.Transform !in movers {
          continue;
        }
        var mover := movers[n.Transform];
        if n.Name !in savedOrbitData {
          savedOrbitData := savedOrbitData[n.Name := mover.orbitData];
        }
        if n.Name !in savedAttractors {
          savedAttractors := savedAttractors[n.Name := mover.AttractorObject];
        }
        if mover.VelocityHandle.Some? && n.Name !in savedVelocities {
          savedVelocities := savedVelocities[n.Name := mover.VelocityHandle.value];
        }
      }
      assert chain[..|chain|] == chain;
    }

    /** The apply loop of `InvertOrbits` over the new chain, outermost node first. */
    method ApplyNewChainSettings(m: Math, position: Transform -> Vector3d, movers: map<Transform, OrbitMover>,
                                 chain: seq<CelestialBodyNode>, newSOI: CelestialBodyNode?)
      returns (ms: map<Transform, OrbitMover>)
      ensures ms == ApplyUpTo(m, position, Saved(), movers, chain, newSOI, |chain|)
    {
      ms := movers;
      for i := 0 to |chain|
        invariant ms == ApplyUpTo(m, position, Saved(), movers, chain, newSOI, i)
      {
        ApplyUpToNext(m, position, Saved(), movers, chain, newSOI, i);
        var current := chain[i];
        if current.Transform !in ms {
          continue;
        }
        var mover := ms[current.Transform];
        mover := mover.(enabled := current != newSOI);
        var newAttr := if i + 1 < |chain| then Some(chain[i + 1].Transform) else None;
        mover := mover.(AttractorObject := newAttr);
        var data := mover.orbitData;
        if newAttr.Some? && newAttr.value.name in savedOrbitData {
          data := savedOrbitData[newAttr.value.name];
          data := data.(positionRelativeToAttractor := Sub(position(current.Transform), position(newAttr.value)));
        }
        if newAttr.Some? && newAttr.value.name in savedOrbitData {
          mover := mover.(AttractorMass := savedOrbitData[newAttr.value.name].AttractorMass);
        }
        if mover.VelocityHandle.Some? && newAttr.Some? && newAttr.value.name in savedVelocities {
          mover := mover.(VelocityHandle := Some(Neg(savedVelocities[newAttr.value.name])));
        }
        var M := CalculateMeanAnomalyFromPosition(m, data);
        data := MeanAnomalySet(m, data, M);
        ghost var prev := ms;
        ms := ms[current.Transform := mover.(orbitData := data)];
        assert ms == prev[current.Transform := Applied(m, position, Saved(), prev[current.Transform], chain, newSOI, i)];
      }
    }

    /** `InvertOrbits`: disable, restore the previous chain, build the new one and keep
        it as the previous chain, save it, and apply it. */
    method InvertOrbits(m: Math, position: Transform -> Vector3d, movers: map<Transform, OrbitMover>,
                        newSOI: CelestialBodyNode?) returns (ms: map<Transform, OrbitMover>)
      requires Valid() && Walk(Table(), Opt(newSOI), |order| + 1).Some?
      modifies this`savedOrbitData, this`savedAttractors, this`savedVelocities, this`previousChain
      ensures Inverted(m, position, Table(), |order| + 1, old(previousChain), old(Saved()),
                       movers, newSOI, previousChain, Saved(), ms)
    {
      ghost var t := Table();
      ghost var before := Saved();
      var restored := Revert(m, movers, newSOI);
      var chain := BuildChain(newSOI);
      assert Some(chain) == ChainOf(t, Opt(newSOI), |order| + 1);
      previousChain := chain;
      SaveChainData(restored, chain);
      assert Saved() == SaveAll(before, restored, chain);
      ms := ApplyNewChainSettings(m, position, restored, chain, newSOI);
      assert Table() == t;
    }

    /** The first two loops of `InvertOrbits`: disable the new sphere's mover where it
        sits in the previous chain, then restore the previous chain from the snapshots. */
    method Revert(m: Math, movers: map<Transform, OrbitMover>, newSOI: CelestialBodyNode?)
      returns (ms: map<Transform, OrbitMover>)
      ensures ms == RestoreAll(m, Disabled(movers, previousChain, newSOI), previousChain, Saved())
    {
      ms := DisableInPrevious(movers, newSOI);
      ms := RestorePreviousChain(m, ms);
    }

    /** `Update`: with a rocket, detect the sphere it is in and, when that differs from
        the current one, switch to it. A switch to no sphere at all fails before it
        starts: the log line dereferences the null node, so `thrown` is set and nothing
        changes. */
    method Update(m: Math, position: Transform -> Vector3d, movers: map<Transform, OrbitMover>)
      returns (ms: map<Transform, OrbitMover>, thrown: bool)
      requires Valid() && Acyclic()
      modifies this`currentSOI, this`savedOrbitData, this`savedAttractors, this`savedVelocities, this`previousChain
      ensures ActiveRocket.None? ==>
        ms == movers && !thrown && unchanged(this`currentSOI, this`previousChain, this`savedOrbitData, this`savedAttractors, this`savedVelocities)
      ensures ActiveRocket.Some? ==>
        var best := old(Detected(m, position));
        if best == old(currentSOI) then
          ms == movers && !thrown && unchanged(this`currentSOI, this`previousChain, this`savedOrbitData, this`savedAttractors, this`savedVelocities)
        else if best == null then
          ms == movers && thrown && unchanged(this`currentSOI, this`previousChain, this`savedOrbitData, this`savedAttractors, this`savedVelocities)
        else
          && !thrown && currentSOI == best
          && Inverted(m, position, Table(), |order| + 1, old(previousChain), old(Saved()),
                      movers, best, previousChain, Saved(), ms)
    {
      ms, thrown := movers, false;
      if ActiveRocket.Some? {
        ghost var best := Detected(m, position);
        var newSOI := DetectNewSOI(m, position);
        assert newSOI == best;
        ms, thrown := React(m, position, movers, newSOI);
      }
    }

    /** What `Update` does with the sphere it has detected. */
    method React(m: Math, position: Transform -> Vector3d, movers: map<Transform, OrbitMover>, newSOI: CelestialBodyNode?)
      returns (ms: map<Transform, OrbitMover>, thrown: bool)
      requires Valid() && Acyclic() && (newSOI == null || newSOI in nodes.Values)
      modifies this`currentSOI, this`savedOrbitData, this`savedAttractors, this`savedVelocities, this`previousChain
      ensures newSOI == old(currentSOI) || newSOI == null ==>
        && ms == movers && (thrown <==> newSOI != old(currentSOI))
        && unchanged(this`currentSOI, this`previousChain, this`savedOrbitData, this`savedAttractors, this`savedVelocities)
      ensures newSOI != old(currentSOI) && newSOI != null ==>
        && !thrown && currentSOI == newSOI
        && Inverted(m, position, Table(), |order| + 1, old(previousChain), old(Saved()),
                    movers, newSOI, previousChain, Saved(), ms)
    {
      ms, thrown := movers, false;
      if newSOI != currentSOI {
        if newSOI == null {
          thrown := true;
          return;
        }
        ms := SwitchTo(m, position, movers, newSOI);
      }
    }

    /** The branch of `Update` taken when a sphere other than the current one is found. */
    method SwitchTo(m: Math, position: Transform -> Vector3d, movers: map<Transform, OrbitMover>, newSOI: CelestialBodyNode)
      returns (ms: map<Transform, OrbitMover>)
      requires Valid() && Acyclic() && newSOI in nodes.Values
      modifies this`currentSOI, this`savedOrbitData, this`savedAttractors, this`savedVelocities, this`previousChain
      ensures currentSOI == newSOI
      ensures Inverted(m, position, Table(), |order| + 1, old(previousChain), old(Saved()),
                       movers, newSOI, previousChain, Saved(), ms)
    {
      WalkStops(newSOI);
      ms := InvertOrbits(m, position, movers, newSOI);
      currentSOI := newSOI;
    }
  }

  /** Adding a node to a list whose nodes are told apart by name adds its name. */
  lemma {:induction false} NamesAdjoin(cs: seq<CelestialBodyNode>, x: CelestialBodyNode)
    requires forall c :: c in cs && c.Name == x.Name ==> c == x
    ensures NamesOf(Adjoin(cs, x)) == Adjoin(NamesOf(cs), x.Name)
  {
    if x !in cs {
      assert x.Name !in NamesOf(cs);
    }
  }
}
