/** The sphere-of-influence controller of Services/SphereOfInfluence/SOIController.cs.
    It keeps a tree of the scene's bodies keyed by name, finds the body whose sphere of
    influence holds the rocket, and re-parents the chain of bodies from a root down to
    that body so that each one orbits the next one inward (patched conics seen from the
    rocket's sphere). Before re-parenting it snapshots each chain body's orbit and
    attractor once, and on the next switch it puts the old chain back. */
module SoiChain {
  import opened Numerics
  import opened Vectors
  import opened OrbitState
  import opened OrbitAnomaly
  import opened Lists
  import opened SoiScene
  import opened SoiTree
  import opened SoiNode

  function NamesOf(ns: seq<CelestialBodyNode>): (r: seq<string>)
    ensures |r| == |ns| && forall i :: 0 <= i < |ns| ==> r[i] == ns[i].Name
  {
    seq(|ns|, i requires 0 <= i < |ns| => ns[i].Name)
  }

  function TransformsOf(ns: seq<CelestialBodyNode>): (r: seq<Transform>)
    ensures |r| == |ns| && forall i :: 0 <= i < |ns| ==> r[i] == ns[i].Transform
  {
    seq(|ns|, i requires 0 <= i < |ns| => ns[i].Transform)
  }

  function Opt(n: CelestialBodyNode?): Option<CelestialBodyNode> {
    if n == null then None else Some(n as CelestialBodyNode)
  }

  function OrNull(n: Option<CelestialBodyNode>): CelestialBodyNode? {
    if n.Some? then n.value else null
  }

  /** `_nodes.Values` with their children, in enumeration order. */
  function TableOf(vs: seq<CelestialBodyNode>): (t: Table<CelestialBodyNode>)
    reads vs
    ensures |t| == |vs| && forall i :: 0 <= i < |vs| ==> t[i] == (vs[i], vs[i].children)
  {
    seq(|vs|, i requires 0 <= i < |vs| reads vs => (vs[i], vs[i].children))
  }

  // ---------------------------------------------------------------------------
  // BuildHierarchy, stated over values

  /** The movers of `FindObjectsOfType<OrbitMover>()` that are neither the active
      rocket nor tagged "Rocket", in the order found. */
  function Bodies(rocket: Option<Transform>, objects: seq<Transform>): (bs: seq<Transform>)
    ensures forall t :: t in bs ==> t in objects && rocket != Some(t) && !t.taggedRocket
  {
    if objects == [] then []
    else
      var bs := Bodies(rocket, objects[..|objects| - 1]);
      var t := objects[|objects| - 1];
      if rocket != Some(t) && !t.taggedRocket then bs + [t] else bs
  }

  /** The first pass: `_nodes[name] = new CelestialBodyNode(name, transform)` for every
      body, so a later body with the same name replaces the node, while the name keeps
      its place in the dictionary's enumeration order. */
  function FirstPass(bodies: seq<Transform>): Keys<Transform> {
    if bodies == [] then Keys([], map[])
    else
      var r := FirstPass(bodies[..|bodies| - 1]);
      var t := bodies[|bodies| - 1];
      var k := t.name;
      Keys(if k in r.owner then r.order else r.order + [k], r.owner[k := t])
  }

  /** The first pass lists each name once, in the order it was first met, keys every
      body's name, and keeps for each name the last body carrying it. */
  lemma {:induction false} FirstPassProperties(bodies: seq<Transform>)
    ensures var r := FirstPass(bodies);
      && NoDuplicates(r.order)
      && (forall k :: k in r.owner <==> k in r.order)
      && (forall k :: k in r.owner ==> r.owner[k].name == k && r.owner[k] in bodies)
      && (forall t :: t in bodies ==> t.name in r.owner)
  {
    if bodies != [] {
      FirstPassProperties(bodies[..|bodies| - 1]);
      assert forall u :: u in bodies[..|bodies| - 1] ==> u in bodies;
      assert forall u :: u in bodies ==> u in bodies[..|bodies| - 1] || u == bodies[|bodies| - 1];
    }
  }

  /** The node a body hangs under: that of the mover owning its attractor, when such a
      node exists. */
  function ParentName(movers: map<Transform, OrbitMover>, keys: set<string>, t: Transform): (p: Option<string>)
    ensures p.Some? ==> p.value in keys
  {
    if t in movers && movers[t].AttractorObject.Some? then
      var owner := MoverInParent(movers, movers[t].AttractorObject.value);
      if owner.Some? && owner.value.name in keys then Some(owner.value.name) else None
    else None
  }

  /** The second pass, one link per body; every body may become a root. */
  function Links(movers: map<Transform, OrbitMover>, keys: set<string>, bodies: seq<Transform>): (ls: seq<Link>)
    ensures |ls| == |bodies| && LinksWithin(keys, ls)
    ensures forall i :: 0 <= i < |bodies| ==> ls[i] == Link(bodies[i].name, ParentName(movers, keys, bodies[i]), true)
  {
    var ls := seq(|bodies|, i requires 0 <= i < |bodies| => Link(bodies[i].name, ParentName(movers, keys, bodies[i]), true));
    assert forall i :: 0 <= i < |ls| ==> ls[i].parent == ParentName(movers, keys, bodies[i]);
    ls
  }

  /** The tree `BuildHierarchy` builds, by name. */
  function TreeOf(movers: map<Transform, OrbitMover>, rocket: Option<Transform>, objects: seq<Transform>): Hierarchy {
    var bodies := Bodies(rocket, objects);
    var keys := FirstPass(bodies).owner.Keys;
    Built(keys, Links(movers, keys, bodies))
  }

  predicate DistinctNames(bodies: seq<Transform>) {
    forall i, j :: 0 <= i < j < |bodies| ==> bodies[i].name != bodies[j].name
  }

  /** When the bodies have distinct names, each becomes a child of the node owning its
      attractor or a root, never both. */
  lemma HierarchyPlacesOnce(movers: map<Transform, OrbitMover>, rocket: Option<Transform>, objects: seq<Transform>)
    requires DistinctNames(Bodies(rocket, objects))
    ensures var bodies := Bodies(rocket, objects);
      var keys := FirstPass(bodies).owner.Keys;
      var h := TreeOf(movers, rocket, objects);
      forall i :: 0 <= i < |bodies| ==>
        && (bodies[i].name in h.roots <==> ParentName(movers, keys, bodies[i]).None?)
        && (forall k :: k in h.children ==>
              (bodies[i].name in h.children[k] <==> ParentName(movers, keys, bodies[i]) == Some(k)))
  {
    var bodies := Bodies(rocket, objects);
    var keys := FirstPass(bodies).owner.Keys;
    var ls := Links(movers, keys, bodies);
    var names := ChildNames(ls);
    assert |names| == |bodies| && forall i :: 0 <= i < |ls| ==> names[i] == bodies[i].name;
    assert NoDuplicates(names);
    BuiltPlacesOnce(keys, ls);
  }

  // ---------------------------------------------------------------------------
  // DetectNewSOI, stated over values

  /** One node as `DetectNewSOI` sees it: it covers the rocket when it has a mover and
      the rocket is within its mover's sphere-of-influence radius. */
  function CandidateOf(m: Math, position: Transform -> Vector3d, movers: map<Transform, OrbitMover>,
                       rocket: Transform, n: CelestialBodyNode): Candidate<CelestialBodyNode>
  {
    var dist := Distance(m, position, rocket, n.Transform);
    Candidate(n, n.Transform in movers && dist <= movers[n.Transform].orbitData.SphereOfInfluenceRadius, dist)
  }

  function Candidates(m: Math, position: Transform -> Vector3d, movers: map<Transform, OrbitMover>,
                      rocket: Transform, vs: seq<CelestialBodyNode>): (cs: seq<Candidate<CelestialBodyNode>>)
    ensures |cs| == |vs| && forall i :: 0 <= i < |vs| ==> cs[i] == CandidateOf(m, position, movers, rocket, vs[i])
  {
    seq(|vs|, i requires 0 <= i < |vs| => CandidateOf(m, position, movers, rocket, vs[i]))
  }

  /** The loop of `DetectNewSOI` over the nodes `vs`: the closest node with a mover
      whose sphere of influence contains the rocket, or null. */
  method DetectAmong(m: Math, position: Transform -> Vector3d, movers: map<Transform, OrbitMover>,
                     rocket: Transform, vs: seq<CelestialBodyNode>) returns (best: CelestialBodyNode?)
    ensures best == OrNull(Closest(Candidates(m, position, movers, rocket, vs)))
    ensures best == null || best in vs
  {
    ghost var cs := Candidates(m, position, movers, rocket, vs);
    best := null;
    var bestDist := DoubleMax;
    ghost var bestIndex: Option<nat> := None;
    for i := 0 to |vs|
      invariant Scan(cs[..i]) == (bestIndex, bestDist)
      invariant bestIndex.None? ==> best == null
      invariant bestIndex.Some? ==> bestIndex.value < i && best == vs[bestIndex.value]
    {
      assert cs[..i + 1][..i] == cs[..i];
      var node := vs[i];
      if node.Transform in movers {
        var dist := Distance(m, position, rocket, node.Transform);
        var soi := movers[node.Transform].orbitData.SphereOfInfluenceRadius;
        if dist <= soi && dist < bestDist {
          bestDist := dist;
          best := node;
          bestIndex := Some(i);
        }
      }
    }
    assert cs[..|vs|] == cs;
  }

  // ---------------------------------------------------------------------------
  // RestorePreviousChain, SaveChainData and ApplyNewChainSettings, stated over values

  /** One node of `RestorePreviousChain`: the saved orbit and the saved attractor, where
      the node's name has them, and the mover enabled again. */
  function Restored(mv: OrbitMover, name: string, orbits: map<string, OrbitFields>,
                    attractors: map<string, Option<Transform>>): OrbitMover
  {
    mv.(orbitData := if name in orbits then orbits[name] else mv.orbitData,
        AttractorObject := if name in attractors then attractors[name] else mv.AttractorObject,
        enabled := true)
  }

  function RestoreStep(chain: seq<CelestialBodyNode>, orbits: map<string, OrbitFields>,
                       attractors: map<string, Option<Transform>>): (OrbitMover, nat) -> OrbitMover
  {
    (mv: OrbitMover, i: nat) => if i < |chain| then Restored(mv, chain[i].Name, orbits, attractors) else mv
  }

  /** The movers after restoring the nodes of `chain` in order. */
  function RestoreAll(movers: map<Transform, OrbitMover>, chain: seq<CelestialBodyNode>,
                      orbits: map<string, OrbitFields>, attractors: map<string, Option<Transform>>): map<Transform, OrbitMover>
  {
    UpdateEach(movers, TransformsOf(chain), RestoreStep(chain, orbits, attractors), |chain|)
  }

  /** Restoring a chain whose nodes have distinct transforms touches only their movers,
      each restored once from its own saved data, and adds no mover. */
  lemma RestoreAllProperties(movers: map<Transform, OrbitMover>, chain: seq<CelestialBodyNode>,
                             orbits: map<string, OrbitFields>, attractors: map<string, Option<Transform>>)
    requires NoDuplicates(TransformsOf(chain))
    ensures var ms := RestoreAll(movers, chain, orbits, attractors);
      && ms.Keys == movers.Keys
      && (forall t :: t in movers && t !in TransformsOf(chain) ==> ms[t] == movers[t])
      && (forall i :: 0 <= i < |chain| && chain[i].Transform in movers ==>
            ms[chain[i].Transform] == Restored(movers[chain[i].Transform], chain[i].Name, orbits, attractors))
  {
    var ts := TransformsOf(chain);
    assert ts[..|chain|] == ts;
    UpdateEachFrame(movers, ts, RestoreStep(chain, orbits, attractors), |chain|);
    UpdateEachAt(movers, ts, RestoreStep(chain, orbits, attractors), |chain|);
  }

  /** A second restore of the same chain changes nothing more. */
  lemma RestoreIdempotent(movers: map<Transform, OrbitMover>, chain: seq<CelestialBodyNode>,
                          orbits: map<string, OrbitFields>, attractors: map<string, Option<Transform>>)
    requires NoDuplicates(TransformsOf(chain))
    ensures var ms := RestoreAll(movers, chain, orbits, attractors);
      RestoreAll(ms, chain, orbits, attractors) == ms
  {
    var ms := RestoreAll(movers, chain, orbits, attractors);
    RestoreAllProperties(movers, chain, orbits, attractors);
    RestoreAllProperties(ms, chain, orbits, attractors);
    var twice := RestoreAll(ms, chain, orbits, attractors);
    forall t | t in ms
      ensures twice[t] == ms[t]
    {
      if t in TransformsOf(chain) {
        var i :| 0 <= i < |chain| && TransformsOf(chain)[i] == t;
      }
    }
  }

  /** The two snapshot dictionaries, `_savedOrbitData` and `_savedAttractors`. */
  datatype Snapshots = Snapshots(orbits: map<string, OrbitFields>, attractors: map<string, Option<Transform>>)

  /** One node of `SaveChainData`: a node with a mover whose name has no saved orbit
      yet gets a copy of its orbit and its attractor. */
  function SaveOne(s: Snapshots, movers: map<Transform, OrbitMover>, n: CelestialBodyNode): Snapshots {
    if n.Transform !in movers || n.Name in s.orbits then s
    else Snapshots(s.orbits[n.Name := movers[n.Transform].orbitData],
                   s.attractors[n.Name := movers[n.Transform].AttractorObject])
  }

  function SaveAll(s: Snapshots, movers: map<Transform, OrbitMover>, chain: seq<CelestialBodyNode>): Snapshots {
    if chain == [] then s else SaveOne(SaveAll(s, movers, chain[..|chain| - 1]), movers, chain[|chain| - 1])
  }

  /** Saving never overwrites a snapshot, adds only names of chain nodes, and keeps
      the two dictionaries on the same keys. */
  lemma {:induction false} SaveAllKeeps(s: Snapshots, movers: map<Transform, OrbitMover>, chain: seq<CelestialBodyNode>)
    requires s.attractors.Keys == s.orbits.Keys
    ensures var r := SaveAll(s, movers, chain);
      && r.attractors.Keys == r.orbits.Keys
      && (forall k :: k in s.orbits ==>
            k in r.orbits && r.orbits[k] == s.orbits[k] && k in r.attractors && r.attractors[k] == s.attractors[k])
      && (forall k :: k in r.orbits ==> k in s.orbits || k in NamesOf(chain))
  {
    if chain != [] {
      var p := chain[..|chain| - 1];
      SaveAllKeeps(s, movers, p);
      var r0 := SaveAll(s, movers, p);
      var n := chain[|chain| - 1];
      assert SaveAll(s, movers, chain) == SaveOne(r0, movers, n);
      assert n.Name == NamesOf(chain)[|p|];
      assert forall k :: k in NamesOf(p) ==> k in NamesOf(chain) by {
        forall k | k in NamesOf(p) ensures k in NamesOf(chain) {
          var i :| 0 <= i < |p| && NamesOf(p)[i] == k;
          assert NamesOf(chain)[i] == k;
        }
      }
    }
  }

  /** After saving, every chain node that has a mover has a snapshot under its name. */
  lemma {:induction false} SaveAllCovers(s: Snapshots, movers: map<Transform, OrbitMover>, chain: seq<CelestialBodyNode>)
    ensures forall i :: 0 <= i < |chain| && chain[i].Transform in movers ==> chain[i].Name in SaveAll(s, movers, chain).orbits
  {
    if chain != [] {
      var p := chain[..|chain| - 1];
      SaveAllCovers(s, movers, p);
    }
  }

  /** A name first saved by this call, in a chain of distinct names, holds that node's
      own orbit and attractor. */
  lemma {:induction false} SaveAllFirst(s: Snapshots, movers: map<Transform, OrbitMover>, chain: seq<CelestialBodyNode>)
    requires NoDuplicates(NamesOf(chain))
    ensures var r := SaveAll(s, movers, chain);
      forall i :: 0 <= i < |chain| && chain[i].Transform in movers && chain[i].Name !in s.orbits ==>
        && chain[i].Name in r.orbits && r.orbits[chain[i].Name] == movers[chain[i].Transform].orbitData
        && chain[i].Name in r.attractors && r.attractors[chain[i].Name] == movers[chain[i].Transform].AttractorObject
  {
    if chain != [] {
      var p := chain[..|chain| - 1];
      var n := chain[|chain| - 1];
      assert forall i :: 0 <= i < |p| ==> NamesOf(p)[i] == NamesOf(chain)[i];
      assert n.Name == NamesOf(chain)[|p|];
      SaveAllFirst(s, movers, p);
      SaveAllNew(s, movers, p, n.Name);
    }
  }

  /** A name outside the chain gets no snapshot it did not have. */
  lemma {:induction false} SaveAllNew(s: Snapshots, movers: map<Transform, OrbitMover>, chain: seq<CelestialBodyNode>, k: string)
    requires k !in NamesOf(chain)
    ensures k !in s.orbits ==> k !in SaveAll(s, movers, chain).orbits
  {
    if chain != [] {
      var p := chain[..|chain| - 1];
      assert forall i :: 0 <= i < |p| ==> NamesOf(p)[i] == NamesOf(chain)[i];
      SaveAllNew(s, movers, p, k);
    }
  }

  /** One node of `ApplyNewChainSettings`: enabled unless it is the new sphere's node,
      attracted by the next node inward (none for the last), given the next node's saved
      orbit with its own position relative to that node when that orbit is saved, and
      its anomalies re-derived from the position. */
  function Applied(m: Math, position: Transform -> Vector3d, orbits: map<string, OrbitFields>, mv: OrbitMover,
                   chain: seq<CelestialBodyNode>, soi: CelestialBodyNode?, i: nat): OrbitMover
    requires i < |chain|
  {
    var node := chain[i];
    var next := if i + 1 < |chain| then Some(chain[i + 1].Transform) else None;
    var src :=
      if i + 1 < |chain| && chain[i + 1].Name in orbits then
        orbits[chain[i + 1].Name].(positionRelativeToAttractor := Sub(position(node.Transform), position(chain[i + 1].Transform)))
      else mv.orbitData;
    mv.(enabled := node != soi, AttractorObject := next, orbitData := Resync(m, src))
  }

  function ApplyStep(m: Math, position: Transform -> Vector3d, orbits: map<string, OrbitFields>,
                     chain: seq<CelestialBodyNode>, soi: CelestialBodyNode?): (OrbitMover, nat) -> OrbitMover
  {
    (mv: OrbitMover, i: nat) => if i < |chain| then Applied(m, position, orbits, mv, chain, soi, i) else mv
  }

  /** The movers after the first `k` nodes of `chain` are applied. */
  function ApplyUpTo(m: Math, position: Transform -> Vector3d, orbits: map<string, OrbitFields>,
                     movers: map<Transform, OrbitMover>, chain: seq<CelestialBodyNode>, soi: CelestialBodyNode?, k: nat): map<Transform, OrbitMover>
    requires k <= |chain|
  {
    UpdateEach(movers, TransformsOf(chain), ApplyStep(m, position, orbits, chain, soi), k)
  }

  /** Applying one more node applies `Applied` to that node's mover, if it has one. */
  lemma ApplyUpToNext(m: Math, position: Transform -> Vector3d, orbits: map<string, OrbitFields>,
                      movers: map<Transform, OrbitMover>, chain: seq<CelestialBodyNode>, soi: CelestialBodyNode?, k: nat)
    requires k < |chain|
    ensures var ms := ApplyUpTo(m, position, orbits, movers, chain, soi, k);
            var t := chain[k].Transform;
            ApplyUpTo(m, position, orbits, movers, chain, soi, k + 1)
              == if t in ms then ms[t := Applied(m, position, orbits, ms[t], chain, soi, k)] else ms
  {
    assert TransformsOf(chain)[k] == chain[k].Transform;
  }

  /** A node applied in a chain is attracted by the next node inward (the last by
      none), is enabled exactly when it is not the new sphere's node, follows the next
      node's saved conic when there is one and its own otherwise, has position and
      velocity consistent with its anomalies, and keeps its attractor mass and handle. */
  lemma AppliedProperties(m: Math, position: Transform -> Vector3d, orbits: map<string, OrbitFields>, mv: OrbitMover,
                          chain: seq<CelestialBodyNode>, soi: CelestialBodyNode?, i: nat)
    requires i < |chain|
    ensures var r := Applied(m, position, orbits, mv, chain, soi, i);
      && r.AttractorObject == (if i + 1 < |chain| then Some(chain[i + 1].Transform) else None)
      && (r.enabled <==> chain[i] != soi)
      && MotionMatchesAnomaly(m, r.orbitData)
      && (if i + 1 < |chain| && chain[i + 1].Name in orbits then SameConic(r.orbitData, orbits[chain[i + 1].Name])
          else SameConic(r.orbitData, mv.orbitData))
      && r.AttractorMass == mv.AttractorMass
      && r.VelocityHandle == mv.VelocityHandle
  {
  }

  /** The outcome of applying a whole chain that ends at the new sphere's node and
      holds distinct transforms: the new sphere's body stands still, every other chain
      body is enabled and attracted by the next node inward, each has its motion
      consistent with its anomalies, and no mover outside the chain changes. */
  lemma ApplyChain(m: Math, position: Transform -> Vector3d, orbits: map<string, OrbitFields>,
                   movers: map<Transform, OrbitMover>, chain: seq<CelestialBodyNode>, soi: CelestialBodyNode?)
    requires NoDuplicates(TransformsOf(chain)) && (chain != [] ==> chain[|chain| - 1] == soi)
    ensures var ms := ApplyUpTo(m, position, orbits, movers, chain, soi, |chain|);
      && ms.Keys == movers.Keys
      && (forall t :: t in movers && t !in TransformsOf(chain) ==> ms[t] == movers[t])
      && (forall i :: 0 <= i < |chain| && chain[i].Transform in movers ==>
            && (ms[chain[i].Transform].enabled <==> i < |chain| - 1)
            && ms[chain[i].Transform].AttractorObject == (if i + 1 < |chain| then Some(chain[i + 1].Transform) else None)
            && MotionMatchesAnomaly(m, ms[chain[i].Transform].orbitData))
  {
    var ms := ApplyUpTo(m, position, orbits, movers, chain, soi, |chain|);
    var ts := TransformsOf(chain);
    assert ts[..|chain|] == ts;
    UpdateEachFrame(movers, ts, ApplyStep(m, position, orbits, chain, soi), |chain|);
    forall i | 0 <= i < |chain| && chain[i].Transform in movers
      ensures (ms[chain[i].Transform].enabled <==> i < |chain| - 1)
      ensures ms[chain[i].Transform].AttractorObject == (if i + 1 < |chain| then Some(chain[i + 1].Transform) else None)
      ensures MotionMatchesAnomaly(m, ms[chain[i].Transform].orbitData)
    {
      ApplyChainAt(m, position, orbits, movers, chain, soi, i);
    }
  }

  /** `ApplyChain` at one node. */
  lemma ApplyChainAt(m: Math, position: Transform -> Vector3d, orbits: map<string, OrbitFields>,
                     movers: map<Transform, OrbitMover>, chain: seq<CelestialBodyNode>, soi: CelestialBodyNode?, i: nat)
    requires NoDuplicates(TransformsOf(chain)) && (chain != [] ==> chain[|chain| - 1] == soi)
    requires i < |chain| && chain[i].Transform in movers
    ensures var ms := ApplyUpTo(m, position, orbits, movers, chain, soi, |chain|);
      && chain[i].Transform in ms
      && (ms[chain[i].Transform].enabled <==> i < |chain| - 1)
      && ms[chain[i].Transform].AttractorObject == (if i + 1 < |chain| then Some(chain[i + 1].Transform) else None)
      && MotionMatchesAnomaly(m, ms[chain[i].Transform].orbitData)
  {
    var t := chain[i].Transform;
    UpdateEachAt(movers, TransformsOf(chain), ApplyStep(m, position, orbits, chain, soi), |chain|);
    AppliedProperties(m, position, orbits, movers[t], chain, soi, i);
    assert chain[i] == soi <==> i == |chain| - 1 by {
      if i < |chain| - 1 {
        assert TransformsOf(chain)[i] != TransformsOf(chain)[|chain| - 1];
      }
    }
  }

  /** Switching in and back out: saving a chain of distinct names and transforms,
      applying it and then restoring it gives every chain body back its orbit and
      attractor as saved, enabled; a body first saved by this switch gets back exactly
      the mover it had, enabled. */
  lemma RestoreUndoesApply(m: Math, position: Transform -> Vector3d, s: Snapshots,
                           movers: map<Transform, OrbitMover>, chain: seq<CelestialBodyNode>, soi: CelestialBodyNode?)
    requires s.attractors.Keys == s.orbits.Keys
    requires NoDuplicates(TransformsOf(chain)) && NoDuplicates(NamesOf(chain))
    ensures var r := SaveAll(s, movers, chain);
      var back := RestoreAll(ApplyUpTo(m, position, r.orbits, movers, chain, soi, |chain|), chain, r.orbits, r.attractors);
      && back.Keys == movers.Keys
      && (forall t :: t in movers && t !in TransformsOf(chain) ==> back[t] == movers[t])
      && (forall i :: 0 <= i < |chain| && chain[i].Transform in movers ==>
            && chain[i].Name in r.orbits && chain[i].Name in r.attractors
            && back[chain[i].Transform] == movers[chain[i].Transform].(orbitData := r.orbits[chain[i].Name],
                 AttractorObject := r.attractors[chain[i].Name], enabled := true))
      && (forall i :: 0 <= i < |chain| && chain[i].Transform in movers && chain[i].Name !in s.orbits ==>
            back[chain[i].Transform] == movers[chain[i].Transform].(enabled := true))
  {
    var r := SaveAll(s, movers, chain);
    var ms := ApplyUpTo(m, position, r.orbits, movers, chain, soi, |chain|);
    SaveAllKeeps(s, movers, chain);
    SaveAllCovers(s, movers, chain);
    SaveAllFirst(s, movers, chain);
    var ts := TransformsOf(chain);
    assert ts[..|chain|] == ts;
    UpdateEachFrame(movers, ts, ApplyStep(m, position, r.orbits, chain, soi), |chain|);
    RestoreAllProperties(ms, chain, r.orbits, r.attractors);
    forall i | 0 <= i < |chain| && chain[i].Transform in movers
      ensures RestoreAll(ms, chain, r.orbits, r.attractors)[chain[i].Transform]
           == movers[chain[i].Transform].(orbitData := r.orbits[chain[i].Name],
                 AttractorObject := r.attractors[chain[i].Name], enabled := true)
    {
      RestoreAfterApply(m, position, r, movers, chain, soi, i);
    }
  }

  /** One node of `RestoreUndoesApply`: restoring overwrites all that applying changed. */
  lemma RestoreAfterApply(m: Math, position: Transform -> Vector3d, r: Snapshots,
                          movers: map<Transform, OrbitMover>, chain: seq<CelestialBodyNode>, soi: CelestialBodyNode?, i: nat)
    requires NoDuplicates(TransformsOf(chain)) && i < |chain| && chain[i].Transform in movers
    requires chain[i].Name in r.orbits && chain[i].Name in r.attractors
    ensures var back := RestoreAll(ApplyUpTo(m, position, r.orbits, movers, chain, soi, |chain|), chain, r.orbits, r.attractors);
      && chain[i].Transform in back
      && back[chain[i].Transform] == movers[chain[i].Transform].(orbitData := r.orbits[chain[i].Name],
           AttractorObject := r.attractors[chain[i].Name], enabled := true)
  {
    var t := chain[i].Transform;
    var ts := TransformsOf(chain);
    var ms := ApplyUpTo(m, position, r.orbits, movers, chain, soi, |chain|);
    assert ts[..|chain|] == ts;
    UpdateEachAt(movers, ts, ApplyStep(m, position, r.orbits, chain, soi), |chain|);
    RestoreAllProperties(ms, chain, r.orbits, r.attractors);
    assert ms[t] == Applied(m, position, r.orbits, movers[t], chain, soi, i);
  }


  /** A switch to `newSOI`: the previous chain `prev` is restored from the snapshots
      `before`, the new `chain` is built from `newSOI` over `table`, its snapshots are
      taken from the restored movers, giving `after`, and it is applied to them, giving
      `ms`. */
  ghost predicate Switched(m: Math, position: Transform -> Vector3d, table: Table<CelestialBodyNode>, fuel: nat,
                           prev: seq<CelestialBodyNode>, before: Snapshots, movers: map<Transform, OrbitMover>,
                           newSOI: CelestialBodyNode?, chain: seq<CelestialBodyNode>, after: Snapshots,
                           ms: map<Transform, OrbitMover>)
  {
    var restored := RestoreAll(movers, prev, before.orbits, before.attractors);
    && Some(chain) == ChainOf(table, Opt(newSOI), fuel)
    && after == SaveAll(before, restored, chain)
    && ms == ApplyUpTo(m, position, after.orbits, restored, chain, newSOI, |chain|)
  }

  // ---------------------------------------------------------------------------
  // The controller

  class SOIController {
    /** The tracked rocket, set in the editor and never assigned by the controller;
        `None` stands for null. */
    const ActiveRocket: Option<Transform>

    var nodes: map<string, CelestialBodyNode>
    /** The enumeration order of `_nodes`. */
    var order: seq<string>
    var rootBodies: seq<CelestialBodyNode>
    var savedOrbitData: map<string, OrbitFields>
    var savedAttractors: map<string, Option<Transform>>
    var currentSOI: CelestialBodyNode?
    var previousChain: seq<CelestialBodyNode>

    /** Each node is stored under its own name, which is its transform's name, and the
        enumeration order lists every key once. */
    ghost predicate Valid()
      reads this`nodes, this`order
    {
      && NoDuplicates(order)
      && (forall k :: k in nodes <==> k in order)
      && (forall k :: k in nodes ==> nodes[k].Name == k && nodes[k].Transform.name == k)
    }

    constructor (rocket: Option<Transform>)
      ensures Valid()
      ensures ActiveRocket == rocket
      ensures nodes == map[] && order == [] && rootBodies == [] && previousChain == []
      ensures savedOrbitData == map[] && savedAttractors == map[] && currentSOI == null
    {
      ActiveRocket := rocket;
      nodes, order, rootBodies := map[], [], [];
      savedOrbitData, savedAttractors := map[], map[];
      currentSOI, previousChain := null, [];
    }

    /** `_nodes.Values`. */
    function Values(): (vs: seq<CelestialBodyNode>)
      reads this`nodes, this`order
      requires Valid()
      ensures |vs| == |order| && forall i :: 0 <= i < |order| ==> vs[i] == nodes[order[i]]
    {
      NodesIn(nodes, order)
    }

    function Table(): Table<CelestialBodyNode>
      reads this`nodes, this`order, nodes.Values
      requires Valid()
    {
      var vs := Values();
      assert forall i :: 0 <= i < |vs| ==> vs[i] in nodes.Values;
      TableOf(vs)
    }

    /** `FindParent`: `_nodes.Values.FirstOrDefault(n => n.GetChildren().Contains(child))`. */
    function FindParent(child: CelestialBodyNode): (p: CelestialBodyNode?)
      reads this`nodes, this`order, nodes.Values
      requires Valid()
      ensures Opt(p) == ParentIn(Table(), child)
    {
      var r := ParentIndex(Table(), child);
      if r.Some? then Table()[r.value].0 else null
    }

    /** The parent found is a node listing `child` among its children, and the first
        such node in enumeration order; null means that no node lists it. */
    lemma FindParentProperties(child: CelestialBodyNode)
      requires Valid()
      ensures var p := FindParent(child);
        && (p != null ==> p in nodes.Values && child in p.children)
        && (p != null ==>
              exists i :: 0 <= i < |order| && p == nodes[order[i]] &&
                forall j :: 0 <= j < i ==> child !in nodes[order[j]].children)
        && (p == null <==> forall k :: k in nodes ==> child !in nodes[k].children)
    {
      var r := ParentIndex(Table(), child);
      assert forall k :: k in nodes ==> exists i :: 0 <= i < |order| && order[i] == k;
      if r.Some? {
        assert FindParent(child) == nodes[order[r.value]];
      }
    }

    /** The nodes are those of the first pass, each still without children. */
    ghost predicate HoldsKeys(fp: Keys<Transform>)
      reads this`nodes, this`order, nodes.Values
    {
      && order == fp.order
      && (forall k :: k in nodes <==> k in fp.owner)
      && (forall k :: k in nodes ==> nodes[k].Transform == fp.owner[k] && nodes[k].children == [])
    }

    /** The roots and children, by name, are those of the tree `h`. */
    ghost predicate HoldsTree(h: Hierarchy)
      reads this`nodes, this`rootBodies, nodes.Values
    {
      && NamesOf(rootBodies) == h.roots
      && (forall k :: k in nodes ==> k in h.children && NamesOf(nodes[k].children) == h.children[k])
    }

    /** Every root and every child is the node stored under its name. */
    ghost predicate Closed()
      reads this`nodes, this`rootBodies, nodes.Values
    {
      && (forall c :: c in rootBodies ==> c.Name in nodes && nodes[c.Name] == c)
      && (forall k, c :: k in nodes && c in nodes[k].children ==> c.Name in nodes && nodes[c.Name] == c)
    }

    /** `BuildHierarchy`: every node is new; the enumeration order and each node's
        transform come from the first pass, and the children and roots, by name, are
        the tree of the second pass. */
    method BuildHierarchy(movers: map<Transform, OrbitMover>, objects: seq<Transform>)
      modifies this`nodes, this`order, this`rootBodies
      ensures Valid() && Closed()
      ensures forall k :: k in nodes ==> fresh(nodes[k])
      ensures var fp := FirstPass(Bodies(ActiveRocket, objects));
        order == fp.order && nodes.Keys == fp.owner.Keys && forall k :: k in nodes ==> nodes[k].Transform == fp.owner[k]
      ensures HoldsTree(TreeOf(movers, ActiveRocket, objects))
    {
      var bodies := Bodies(ActiveRocket, objects);
      CreateNodes(bodies);
      rootBodies := [];
      ghost var fp := FirstPass(bodies);
      FirstPassProperties(bodies);
      assert nodes.Keys == fp.owner.Keys;
      ghost var links := Links(movers, nodes.Keys, bodies);
      LinkNodes(movers, bodies, links);
      assert links == Links(movers, fp.owner.Keys, bodies);
    }

    /** The first loop of `BuildHierarchy`. */
    method CreateNodes(bodies: seq<Transform>)
      modifies this`nodes, this`order
      ensures Valid() && HoldsKeys(FirstPass(bodies))
      ensures forall k :: k in nodes ==> fresh(nodes[k])
    {
      nodes, order := map[], [];
      ghost var fp: Keys<Transform> := Keys([], map[]);
      for i := 0 to |bodies|
        invariant fp == FirstPass(bodies[..i])
        invariant order == fp.order && nodes.Keys == fp.owner.Keys
        invariant forall k :: k in nodes ==>
          nodes[k].Name == k && nodes[k].Transform == fp.owner[k] && nodes[k].children == [] && fresh(nodes[k])
      {
        var t := bodies[i];
        assert bodies[..i + 1][..i] == bodies[..i];
        fp := Keys(if t.name in fp.owner then fp.order else fp.order + [t.name], fp.owner[t.name := t]);
        var node := AddNode(t);
      }
      assert bodies[..|bodies|] == bodies;
      FirstPassProperties(bodies);
    }

    method AddNode(t: Transform) returns (node: CelestialBodyNode)
      modifies this`nodes, this`order
      ensures fresh(node) && node.Name == t.name && node.Transform == t && node.children == []
      ensures nodes == old(nodes)[t.name := node]
      ensures order == if t.name in old(nodes) then old(order) else old(order) + [t.name]
    {
      node := new CelestialBodyNode(t.name, t);
      if t.name !in nodes {
        order := order + [t.name];
      }
      nodes := nodes[t.name := node];
    }

    /** The second loop of `BuildHierarchy`, over the freshly created nodes. */
    method LinkNodes(movers: map<Transform, OrbitMover>, bodies: seq<Transform>, ghost links: seq<Link>)
      requires Valid() && Closed() && HoldsTree(Built(nodes.Keys, []))
      requires forall t :: t in bodies ==> t.name in nodes
      requires links == Links(movers, nodes.Keys, bodies)
      modifies this`rootBodies, nodes.Values
      ensures Valid() && Closed() && HoldsTree(Built(nodes.Keys, links))
      ensures nodes == old(nodes) && order == old(order)
    {
      ghost var h := Built(nodes.Keys, []);
      for i := 0 to |bodies|
        invariant nodes == old(nodes) && order == old(order)
        invariant h == Built(nodes.Keys, links[..i])
        invariant Valid() && Closed() && HoldsTree(h)
      {
        BuiltStep(nodes.Keys, links, i);
        AttachBody(movers, bodies[i], h, links[i]);
        h := Attach(h, links[i]);
      }
      assert links[..|bodies|] == links;
    }

    /** One step of the second loop of `BuildHierarchy`: the body's node goes under the
        node of the mover owning its attractor, if there is one, and otherwise joins the
        roots. */
    method AttachBody(movers: map<Transform, OrbitMover>, t: Transform, ghost h: Hierarchy, ghost l: Link)
      requires Valid() && HoldsTree(h) && Closed() && h.children.Keys == nodes.Keys
      requires t.name in nodes
      requires l == Link(t.name, ParentName(movers, nodes.Keys, t), true)
      modifies this`rootBodies, nodes.Values
      ensures HoldsTree(Attach(h, l)) && Closed()
      ensures nodes == old(nodes) && order == old(order)
    {
      var node := nodes[t.name];
      var attractor := if t in movers then movers[t].AttractorObject else None;
      if attractor.Some? && MoverInParent(movers, attractor.value).Some?
        && MoverInParent(movers, attractor.value).value.name in nodes
      {
        var pNode := nodes[MoverInParent(movers, attractor.value).value.name];
        AddUnder(pNode, node, h);
      } else {
        rootBodies := rootBodies + [node];
      }
    }

    /** `parentNode.AddChild(node)` between two stored nodes. */
    method AddUnder(pNode: CelestialBodyNode, node: CelestialBodyNode, ghost h: Hierarchy)
      requires Valid() && HoldsTree(h) && Closed() && h.children.Keys == nodes.Keys
      requires pNode.Name in nodes && nodes[pNode.Name] == pNode
      requires node.Name in nodes && nodes[node.Name] == node
      modifies pNode
      ensures nodes == old(nodes) && order == old(order)
      ensures HoldsTree(h.(children := h.children[pNode.Name := Adjoin(h.children[pNode.Name], node.Name)]))
      ensures Closed()
    {
      NamesAdjoin(pNode.children, node);
      pNode.AddChild(node);
      forall k | k in nodes
        ensures NamesOf(nodes[k].children) == h.children[pNode.Name := Adjoin(h.children[pNode.Name], node.Name)][k]
      {
        if k != pNode.Name {
          assert nodes[k] != pNode;
        }
      }
    }

    /** `DetectNewSOI`: the closest node, in enumeration order, whose mover's sphere of
        influence contains the rocket, or null when there is none. */
    method DetectNewSOI(m: Math, position: Transform -> Vector3d, movers: map<Transform, OrbitMover>)
      returns (best: CelestialBodyNode?)
      requires Valid() && ActiveRocket.Some?
      ensures best == OrNull(Closest(Candidates(m, position, movers, ActiveRocket.value, Values())))
      ensures best == null || best in nodes.Values
    {
      best := DetectAmong(m, position, movers, ActiveRocket.value, Values());
    }

    /** `BuildChain`: the nodes from the given one up through `FindParent` until null,
        reversed so that the root comes first. The loop stops only when the parent walk
        does, which takes at most one step per node beyond the first. */
    method BuildChain(soi: CelestialBodyNode?) returns (chain: seq<CelestialBodyNode>)
      requires Valid() && Walk(Table(), Opt(soi), |order| + 1).Some?
      ensures Some(chain) == ChainOf(Table(), Opt(soi), |order| + 1)
    {
      ghost var t := Table();
      ghost var walk := Walk(t, Opt(soi), |order| + 1).value;
      ghost var fuel: nat := |order| + 1;
      ghost var rest := walk;
      chain := [];
      var n := soi;
      while n != null
        invariant t == Table() && Walk(t, Opt(n), fuel) == Some(rest) && walk == chain + rest
        decreases fuel
      {
        var node: CelestialBodyNode := n;
        var parent := FindParent(node);
        WalkAdvance(t, node, Opt(parent), fuel, chain, rest);
        chain, rest, fuel := chain + [node], rest[1..], fuel - 1;
        n := parent;
      }
      assert walk == chain + [] == chain;
      chain := Reverse(chain);
    }

    /** A node's parent, when it has one, is a stored node. */
    lemma ParentStored(child: CelestialBodyNode)
      requires Valid()
      ensures ParentIn(Table(), child).Some? ==> ParentIn(Table(), child).value in nodes.Values
    {
      var r := ParentIndex(Table(), child);
      if r.Some? {
        assert Table()[r.value].0 == nodes[order[r.value]];
      }
    }

    /** A chain from a stored node, or from null, holds stored nodes only, and no two
        of them share a name or a transform. */
    lemma ChainNodes(soi: CelestialBodyNode?)
      requires Valid() && (soi == null || soi in nodes.Values)
      requires ChainOf(Table(), Opt(soi), |order| + 1).Some?
      ensures var c := ChainOf(Table(), Opt(soi), |order| + 1).value;
        && (forall i :: 0 <= i < |c| ==> c[i] in nodes.Values)
        && NoDuplicates(NamesOf(c)) && NoDuplicates(TransformsOf(c))
    {
      var t := Table();
      var c := ChainOf(t, Opt(soi), |order| + 1).value;
      ChainProperties(t, Opt(soi), |order| + 1);
      forall i | 0 <= i < |c|
        ensures c[i] in nodes.Values
      {
        if i < |c| - 1 {
          ParentStored(c[i + 1]);
        }
      }
      forall i, j | 0 <= i < j < |c|
        ensures c[i].Name != c[j].Name && c[i].Transform != c[j].Transform
      {
        var ki :| ki in nodes && nodes[ki] == c[i];
        var kj :| kj in nodes && nodes[kj] == c[j];
      }
      assert NoDuplicates(NamesOf(c)) by {
        forall i, j | 0 <= i < j < |c| ensures NamesOf(c)[i] != NamesOf(c)[j] {}
      }
      assert NoDuplicates(TransformsOf(c)) by {
        forall i, j | 0 <= i < j < |c| ensures TransformsOf(c)[i] != TransformsOf(c)[j] {}
      }
    }

    /** Every stored node's `FindParent` walk stops, so that `BuildChain` returns. */
    ghost predicate Acyclic()
      reads this`nodes, this`order, nodes.Values
      requires Valid()
    {
      forall n, fuel :: n in nodes.Values && fuel == |order| + 1 ==> Walk(Table(), Some(n), fuel).Some?
    }

    /** `RestorePreviousChain`: every node of the previous chain that has a mover gets
        back its saved orbit and attractor and is enabled again. */
    method RestorePreviousChain(movers: map<Transform, OrbitMover>) returns (ms: map<Transform, OrbitMover>)
      ensures ms == RestoreAll(movers, previousChain, savedOrbitData, savedAttractors)
    {
      ms := movers;
      ghost var ts := TransformsOf(previousChain);
      for i := 0 to |previousChain|
        invariant ms == UpdateEach(movers, ts, RestoreStep(previousChain, savedOrbitData, savedAttractors), i)
      {
        var node := previousChain[i];
        if node.Transform in ms {
          var mover := ms[node.Transform];
          if node.Name in savedOrbitData {
            mover := mover.(orbitData := savedOrbitData[node.Name]);
          }
          if node.Name in savedAttractors {
            mover := mover.(AttractorObject := savedAttractors[node.Name]);
          }
          ms := ms[node.Transform := mover.(enabled := true)];
        }
      }
    }

    /** `SaveChainData`: a snapshot of the orbit and attractor of every chain node with
        a mover whose name has none yet. */
    method SaveChainData(movers: map<Transform, OrbitMover>, chain: seq<CelestialBodyNode>)
      modifies this`savedOrbitData, this`savedAttractors
      ensures Snapshots(savedOrbitData, savedAttractors)
        == SaveAll(Snapshots(old(savedOrbitData), old(savedAttractors)), movers, chain)
    {
      ghost var s0 := Snapshots(savedOrbitData, savedAttractors);
      for i := 0 to |chain|
        invariant Snapshots(savedOrbitData, savedAttractors) == SaveAll(s0, movers, chain[..i])
      {
        assert chain[..i + 1][..i] == chain[..i];
        var node := chain[i];
        if node.Transform !in movers || node.Name in savedOrbitData {
          continue;
        }
        savedOrbitData := savedOrbitData[node.Name := movers[node.Transform].orbitData];
        savedAttractors := savedAttractors[node.Name := movers[node.Transform].AttractorObject];
      }
      assert chain[..|chain|] == chain;
    }

    /** `ApplyNewChainSettings`: each chain node with a mover, outermost first, is
        enabled unless it is the new sphere's node, attracted by the next node inward,
        given that node's saved orbit with its own relative position when one is saved,
        and has its anomalies re-derived from its position. */
    method ApplyNewChainSettings(m: Math, position: Transform -> Vector3d, movers: map<Transform, OrbitMover>,
                                 chain: seq<CelestialBodyNode>, newSOI: CelestialBodyNode?)
      returns (ms: map<Transform, OrbitMover>)
      ensures ms == ApplyUpTo(m, position, savedOrbitData, movers, chain, newSOI, |chain|)
    {
      ms := movers;
      for i := 0 to |chain|
        invariant ms == ApplyUpTo(m, position, savedOrbitData, movers, chain, newSOI, i)
      {
        ApplyUpToNext(m, position, savedOrbitData, movers, chain, newSOI, i);
        var node := chain[i];
        if node.Transform !in ms {
          continue;
        }
        var mover := ms[node.Transform];
        mover := mover.(enabled := node != newSOI);
        var next := if i + 1 < |chain| then Some(chain[i + 1].Transform) else None;
        mover := mover.(AttractorObject := next);
        var data := mover.orbitData;
        if next.Some? && chain[i + 1].Name in savedOrbitData {
          data := savedOrbitData[chain[i + 1].Name];
          data := data.(positionRelativeToAttractor := Sub(position(node.Transform), position(next.value)));
        }
        var M := CalculateMeanAnomalyFromPosition(m, data);
        assert MeanAnomalySet(m, data, M) == Resync(m, data);
        data := MeanAnomalySet(m, data, M);
        ghost var prev := ms;
        ms := ms[node.Transform := mover.(orbitData := data)];
        assert ms == prev[node.Transform := Applied(m, position, savedOrbitData, prev[node.Transform], chain, newSOI, i)];
      }
    }

    /** `HandleSOIChange`: restore the previous chain, build the new one, save it, apply
        it, and keep it as the previous chain. */
    method HandleSOIChange(m: Math, position: Transform -> Vector3d, movers: map<Transform, OrbitMover>,
                           newSOI: CelestialBodyNode?) returns (ms: map<Transform, OrbitMover>)
      requires Valid() && Walk(Table(), Opt(newSOI), |order| + 1).Some?
      modifies this`savedOrbitData, this`savedAttractors, this`previousChain
      ensures Switched(m, position, old(Table()), |order| + 1, old(previousChain), old(Snapshots(savedOrbitData, savedAttractors)),
                       movers, newSOI, previousChain, Snapshots(savedOrbitData, savedAttractors), ms)
    {
      ghost var t := Table();
      ms := RestorePreviousChain(movers);
      var chain := BuildChain(newSOI);
      assert Some(chain) == ChainOf(t, Opt(newSOI), |order| + 1);
      SaveChainData(ms, chain);
      ms := ApplyNewChainSettings(m, position, ms, chain, newSOI);
      previousChain := chain;
    }

    /** `Update`: with a rocket, detect the sphere it is in and, when that differs from
        the current one, switch to it. */
    method Update(m: Math, position: Transform -> Vector3d, movers: map<Transform, OrbitMover>)
      returns (ms: map<Transform, OrbitMover>)
      requires Valid() && Acyclic()
      modifies this`currentSOI, this`savedOrbitData, this`savedAttractors, this`previousChain
      ensures ActiveRocket.None? ==> ms == movers && unchanged(this`currentSOI, this`previousChain, this`savedOrbitData, this`savedAttractors)
      ensures ActiveRocket.Some? ==>
        var best := OrNull(Closest(Candidates(m, position, movers, ActiveRocket.value, old(Values()))));
        if best == old(currentSOI) then ms == movers && unchanged(this`currentSOI, this`previousChain, this`savedOrbitData, this`savedAttractors)
        else
          && currentSOI == best
          && Switched(m, position, old(Table()), |order| + 1, old(previousChain), old(Snapshots(savedOrbitData, savedAttractors)),
                      movers, best, previousChain, Snapshots(savedOrbitData, savedAttractors), ms)
    {
      ghost var t, vs := Table(), Values();
      ms := movers;
      if ActiveRocket.Some? {
        var newSOI := DetectNewSOI(m, position, movers);
        assert Table() == t && Values() == vs;
        if newSOI != currentSOI {
          ms := SwitchTo(m, position, movers, newSOI);
        }
      }
    }

    /** The branch of `Update` taken when the detected sphere is not the current one. */
    method SwitchTo(m: Math, position: Transform -> Vector3d, movers: map<Transform, OrbitMover>, newSOI: CelestialBodyNode?)
      returns (ms: map<Transform, OrbitMover>)
      requires Valid() && Acyclic() && (newSOI == null || newSOI in nodes.Values)
      modifies this`currentSOI, this`savedOrbitData, this`savedAttractors, this`previousChain
      ensures currentSOI == newSOI
      ensures Switched(m, position, old(Table()), |order| + 1, old(previousChain), old(Snapshots(savedOrbitData, savedAttractors)),
                       movers, newSOI, previousChain, Snapshots(savedOrbitData, savedAttractors), ms)
    {
      WalkStops(newSOI);
      ms := HandleSOIChange(m, position, movers, newSOI);
      currentSOI := newSOI;
    }

    /** In an acyclic tree the walk up from null or from a stored node stops. */
    lemma WalkStops(n: CelestialBodyNode?)
      requires Valid() && Acyclic() && (n == null || n in nodes.Values)
      ensures Walk(Table(), Opt(n), |order| + 1).Some?
    {
      if n != null {
        assert Walk(Table(), Some(n as CelestialBodyNode), |order| + 1).Some?;
      }
    }
  }

  /** Adding a node to a list whose nodes are told apart by name adds its name. */
  lemma NamesAdjoin(cs: seq<CelestialBodyNode>, x: CelestialBodyNode)
    requires forall c :: c in cs && c.Name == x.Name ==> c == x
    ensures NamesOf(Adjoin(cs, x)) == Adjoin(NamesOf(cs), x.Name)
  {
    if x !in cs {
      assert x.Name !in NamesOf(cs);
    }
  }
}
