/** The structure both sphere-of-influence controllers share, stated over plain values:
    the closest-body scan of the detection loop, the `FindParent` query and the
    parent walk that builds a chain, and the two-pass construction of the body tree. */
module SoiTree {
  import opened Numerics
  import opened Lists

  // ---------------------------------------------------------------------------
  // Detection: the strictly closest body among those whose sphere covers the rocket

  /** One node as the detection loop sees it: whether its sphere covers the rocket
      (`dist <= radius`, plus any guard of the controller) and its distance. */
  datatype Candidate<T> = Candidate(node: T, covers: bool, dist: real)

  /** The state of the detection loop after scanning `cs`: the index of the best node
      so far and the best distance, starting from `double.MaxValue`; a node replaces
      the best only when it covers the rocket and is strictly closer. */
  function Scan<T>(cs: seq<Candidate<T>>): (r: (Option<nat>, real))
    ensures r.0.Some? ==> r.0.value < |cs| && r.1 == cs[r.0.value].dist
    ensures r.0.None? ==> r.1 == DoubleMax
  {
    if cs == [] then (None, DoubleMax)
    else
      var prev := Scan(cs[..|cs| - 1]);
      var c := cs[|cs| - 1];
      if c.covers && c.dist < prev.1 then (Some(|cs| - 1), c.dist) else prev
  }

  /** The detected node: `None` stands for the loop's `null`. */
  function Closest<T>(cs: seq<Candidate<T>>): Option<T> {
    var r := Scan(cs);
    if r.0.Some? then Some(cs[r.0.value].node) else None
  }

  /** The best distance never exceeds `double.MaxValue` or the distance of any
      covering node scanned so far. */
  lemma {:induction false} ScanBelow<T>(cs: seq<Candidate<T>>)
    ensures Scan(cs).1 <= DoubleMax
    ensures forall i :: 0 <= i < |cs| && cs[i].covers ==> Scan(cs).1 <= cs[i].dist
  {
    if cs != [] {
      ScanBelow(cs[..|cs| - 1]);
      var p := cs[..|cs| - 1];
      assert forall i :: 0 <= i < |p| ==> p[i] == cs[i];
    }
  }

  /** What detection promises: nothing is detected exactly when no node covers the
      rocket at a distance below `double.MaxValue`; otherwise the detected node covers
      the rocket, is at least as close as every covering node, and strictly closer
      than every covering node before it, so the earliest wins a tie. */
  lemma {:induction false} ScanProperties<T>(cs: seq<Candidate<T>>)
    ensures Scan(cs).0.None? <==> forall i :: 0 <= i < |cs| ==> !(cs[i].covers && cs[i].dist < DoubleMax)
    ensures Scan(cs).0.Some? ==>
      var k := Scan(cs).0.value;
      && cs[k].covers && cs[k].dist < DoubleMax
      && (forall i :: 0 <= i < |cs| && cs[i].covers ==> cs[k].dist <= cs[i].dist)
      && (forall i :: 0 <= i < k && cs[i].covers ==> cs[k].dist < cs[i].dist)
  {
    ScanBelow(cs);
    if cs != [] {
      var p := cs[..|cs| - 1];
      assert forall i :: 0 <= i < |p| ==> p[i] == cs[i];
      ScanProperties(p);
      ScanBelow(p);
    }
  }

  // ---------------------------------------------------------------------------
  // FindParent and the chain from a root down to the detected node

  /** `_nodes.Values` with each node's children, in enumeration order. */
  type Table<T> = seq<(T, seq<T>)>

  /** The position of the first node whose children contain `child`. */
  function ParentIndex<T(==)>(table: Table<T>, child: T): (r: Option<nat>)
    ensures r.Some? ==> r.value < |table| && child in table[r.value].1
    ensures r.Some? ==> forall j :: 0 <= j < r.value ==> child !in table[j].1
    ensures r.None? ==> forall j :: 0 <= j < |table| ==> child !in table[j].1
  {
    if table == [] then None
    else if child in table[0].1 then Some(0)
    else
      var r := ParentIndex(table[1..], child);
      if r.Some? then Some(r.value + 1) else None
  }

  /** `FindParent`: `FirstOrDefault(n => n.GetChildren().Contains(child))`. */
  function ParentIn<T(==)>(table: Table<T>, child: T): Option<T> {
    var r := ParentIndex(table, child);
    if r.Some? then Some(table[r.value].0) else None
  }

  /** The nodes the `for (n = soi; n != null; n = FindParent(n))` loop adds, in the
      order it adds them, if it stops within `fuel` additions. */
  function Walk<T(==)>(table: Table<T>, n: Option<T>, fuel: nat): Option<seq<T>>
    decreases fuel
  {
    if n.None? then Some([])
    else if fuel == 0 then None
    else
      var up := Walk(table, ParentIn(table, n.value), fuel - 1);
      if up.Some? then Some([n.value] + up.value) else None
  }

  /** One step of a walk that stops: the node comes first and the parent's walk, with
      one unit of fuel less, is the rest. */
  lemma WalkAdvance<T>(table: Table<T>, n: T, parent: Option<T>, fuel: nat, done: seq<T>, rest: seq<T>)
    requires Walk(table, Some(n), fuel) == Some(rest) && parent == ParentIn(table, n)
    ensures fuel > 0 && rest != [] && rest[0] == n
    ensures Walk(table, parent, fuel - 1) == Some(rest[1..])
    ensures done + rest == (done + [n]) + rest[1..]
  {
    var up := Walk(table, ParentIn(table, n), fuel - 1).value;
    assert rest == [n] + up;
    assert rest[1..] == up;
  }

  /** The walk is a path: it starts at the node, each node is followed by its parent,
      the last one has no parent, and it is no longer than the fuel. */
  lemma {:induction false} WalkSteps<T>(table: Table<T>, n: Option<T>, fuel: nat)
    requires Walk(table, n, fuel).Some?
    decreases fuel
    ensures var w := Walk(table, n, fuel).value;
      && |w| <= fuel
      && (n.None? <==> w == [])
      && (n.Some? ==> w[0] == n.value && ParentIn(table, w[|w| - 1]).None?)
      && (forall i :: 0 <= i < |w| - 1 ==> ParentIn(table, w[i]) == Some(w[i + 1]))
  {
    if n.Some? {
      var p := ParentIn(table, n.value);
      WalkSteps(table, p, fuel - 1);
      var up := Walk(table, p, fuel - 1).value;
      var w := [n.value] + up;
      assert forall i :: 1 <= i < |w| ==> w[i] == up[i - 1];
    }
  }

  /** A path in which every node but the last is followed by its parent and the last
      has none visits no node twice: a repeat would make the walk cycle forever. */
  lemma PathDistinct<T>(table: Table<T>, w: seq<T>)
    requires w != [] && ParentIn(table, w[|w| - 1]).None?
    requires forall i :: 0 <= i < |w| - 1 ==> ParentIn(table, w[i]) == Some(w[i + 1])
    ensures NoDuplicates(w)
  {
    forall i, j | 0 <= i < j < |w|
      ensures w[i] != w[j]
    {
      PathDistinctAt(table, w, i, j);
    }
  }

  /** Two positions of such a path hold different nodes: the later one is as far from
      the end as the earlier one's counterpart, whose parents differ. */
  lemma PathDistinctAt<T>(table: Table<T>, w: seq<T>, i: nat, j: nat)
    requires w != [] && ParentIn(table, w[|w| - 1]).None?
    requires forall i :: 0 <= i < |w| - 1 ==> ParentIn(table, w[i]) == Some(w[i + 1])
    requires i < j < |w|
    ensures w[i] != w[j]
    decreases |w| - j
  {
    assert ParentIn(table, w[i]) == Some(w[i + 1]);
    if j < |w| - 1 {
      PathDistinctAt(table, w, i + 1, j + 1);
      assert ParentIn(table, w[j]) == Some(w[j + 1]);
    }
  }

  /** A node that is its own `FindParent` (one listed among its own children) keeps
      the walk on itself: it never stops, whatever the fuel. */
  lemma {:induction false} SelfParentNeverStops<T>(table: Table<T>, n: T, fuel: nat)
    requires ParentIn(table, n) == Some(n)
    ensures Walk(table, Some(n), fuel).None?
    decreases fuel
  {
    if fuel > 0 {
      SelfParentNeverStops(table, n, fuel - 1);
    }
  }

  /** A body whose attractor is its own transform: the second pass hangs it under
      itself, and the walk up from it never reaches a node without parent. */
  lemma SelfAttractorNeverStops(fuel: nat)
    ensures var h := Built({"moon"}, [Link("moon", Some("moon"), true)]);
      && h.children["moon"] == ["moon"]
      && Walk([("moon", h.children["moon"])], Some("moon"), fuel).None?
  {
    var links := [Link("moon", Some("moon"), true)];
    assert LinksWithin({"moon"}, links);
    assert links[..0] == [];
    var h := Built({"moon"}, links);
    assert h.children["moon"] == Adjoin([], "moon");
    var table: Table<string> := [("moon", ["moon"])];
    assert ParentIndex(table, "moon") == Some(0);
    SelfParentNeverStops(table, "moon", fuel);
  }

  /** `BuildChain`: the walk reversed, root first. */
  function ChainOf<T(==)>(table: Table<T>, soi: Option<T>, fuel: nat): Option<seq<T>> {
    var w := Walk(table, soi, fuel);
    if w.Some? then Some(Reverse(w.value)) else None
  }

  /** What a chain is: empty for no node; otherwise it ends at the node, starts at a
      node without parent, each element is the parent of the next, and no node
      repeats. */
  lemma ChainProperties<T>(table: Table<T>, soi: Option<T>, fuel: nat)
    requires ChainOf(table, soi, fuel).Some?
    ensures var c := ChainOf(table, soi, fuel).value;
      && |c| <= fuel
      && (soi.None? <==> c == [])
      && (soi.Some? ==> c[|c| - 1] == soi.value && ParentIn(table, c[0]).None?)
      && (forall i :: 0 <= i < |c| - 1 ==> ParentIn(table, c[i + 1]) == Some(c[i]))
      && NoDuplicates(c)
  {
    var w := Walk(table, soi, fuel).value;
    var c := Reverse(w);
    WalkSteps(table, soi, fuel);
    forall i | 0 <= i < |c|
      ensures c[i] == w[|w| - 1 - i]
    {
      ReverseAt(w, i);
    }
    if soi.Some? {
      PathDistinct(table, w);
      assert NoDuplicates(c) by {
        forall i, j | 0 <= i < j < |c|
          ensures c[i] != c[j]
        {
          assert c[i] == w[|w| - 1 - i] && c[j] == w[|w| - 1 - j];
        }
      }
    }
  }

  // ---------------------------------------------------------------------------
  // The second pass of `BuildHierarchy`: each body under its parent, or a root

  /** The tree by node name: each node's child names and the root names. */
  datatype Hierarchy = Hierarchy(children: map<string, seq<string>>, roots: seq<string>)

  /** One body of the second pass: its node's name, the name of the node it should
      hang under (if that node exists), and whether it becomes a root otherwise. */
  datatype Link = Link(child: string, parent: Option<string>, asRoot: bool)

  predicate LinksWithin(keys: set<string>, links: seq<Link>) {
    forall i :: 0 <= i < |links| ==> links[i].parent.Some? ==> links[i].parent.value in keys
  }

  /** `parentNode.AddChild(node)` or `_rootBodies.Add(node)`. */
  function Attach(h: Hierarchy, l: Link): Hierarchy
    requires l.parent.Some? ==> l.parent.value in h.children
  {
    if l.parent.Some? then
      h.(children := h.children[l.parent.value := Adjoin(h.children[l.parent.value], l.child)])
    else if l.asRoot then h.(roots := h.roots + [l.child])
    else h
  }

  /** The tree after the second pass over `links`, starting from childless nodes. */
  function Built(keys: set<string>, links: seq<Link>): (h: Hierarchy)
    requires LinksWithin(keys, links)
    ensures h.children.Keys == keys
  {
    if links == [] then Hierarchy(map k | k in keys :: [], [])
    else Attach(Built(keys, links[..|links| - 1]), links[|links| - 1])
  }

  /** One more step of the pass. */
  lemma BuiltStep(keys: set<string>, links: seq<Link>, i: nat)
    requires LinksWithin(keys, links) && i < |links|
    ensures LinksWithin(keys, links[..i]) && LinksWithin(keys, links[..i + 1])
    ensures Built(keys, links[..i + 1]) == Attach(Built(keys, links[..i]), links[i])
  {
    assert links[..i + 1][..i] == links[..i];
  }

  function ChildNames(links: seq<Link>): seq<string> {
    seq(|links|, i requires 0 <= i < |links| => links[i].child)
  }

  /** `l`'s child is a root exactly when `l` makes it one, and a child of exactly the
      node `l` names. */
  predicate Placed(h: Hierarchy, l: Link) {
    && (l.child in h.roots <==> l.parent.None? && l.asRoot)
    && (forall k :: k in h.children ==> (l.child in h.children[k] <==> l.parent == Some(k)))
  }

  /** A step of the pass leaves every other body where it was. */
  lemma AttachKeeps(h: Hierarchy, l: Link, other: Link)
    requires l.parent.Some? ==> l.parent.value in h.children
    requires other.child != l.child && Placed(h, other)
    ensures Placed(Attach(h, l), other)
  {
    if l.parent.Some? {
      AdjoinProperties(h.children[l.parent.value], l.child);
    }
  }

  /** A step of the pass places a body that was nowhere in exactly one place. */
  lemma AttachPlaces(h: Hierarchy, l: Link)
    requires l.parent.Some? ==> l.parent.value in h.children
    requires l.child !in h.roots && forall k :: k in h.children ==> l.child !in h.children[k]
    ensures Placed(Attach(h, l), l)
  {
    if l.parent.Some? {
      AdjoinProperties(h.children[l.parent.value], l.child);
    }
  }

  /** Every list a step touches stays within the bodies seen and duplicate-free. */
  lemma AttachContents(h: Hierarchy, l: Link, seen: set<string>)
    requires l.parent.Some? ==> l.parent.value in h.children
    requires forall x :: x in h.roots ==> x in seen
    requires forall k, x :: k in h.children && x in h.children[k] ==> x in seen
    requires forall k :: k in h.children ==> NoDuplicates(h.children[k])
    ensures var g := Attach(h, l);
      && (forall x :: x in g.roots ==> x in seen + {l.child})
      && (forall k, x :: k in g.children && x in g.children[k] ==> x in seen + {l.child})
      && (forall k :: k in g.children ==> NoDuplicates(g.children[k]))
  {
    if l.parent.Some? {
      AdjoinProperties(h.children[l.parent.value], l.child);
    }
  }

  /** Only bodies of the pass appear in the tree, and every list is duplicate-free. */
  lemma {:induction false} BuiltContents(keys: set<string>, links: seq<Link>)
    requires LinksWithin(keys, links)
    ensures var h := Built(keys, links);
      && (forall x :: x in h.roots ==> x in ChildNames(links))
      && (forall k, x :: k in h.children && x in h.children[k] ==> x in ChildNames(links))
      && (forall k :: k in h.children ==> NoDuplicates(h.children[k]))
  {
    if links != [] {
      var p := links[..|links| - 1];
      var l := links[|links| - 1];
      assert LinksWithin(keys, p);
      BuiltContents(keys, p);
      var h0 := Built(keys, p);
      assert forall k :: k in Built(keys, p).children ==> NoDuplicates(Built(keys, p).children[k]);
      assert forall k :: k in h0.children ==> NoDuplicates(h0.children[k]);
      assert forall x :: x in ChildNames(p) ==> x in ChildNames(links) by {
        assert ChildNames(p) == ChildNames(links)[..|p|];
      }
      assert l.child == ChildNames(links)[|p|];
      AttachContents(h0, l, set x | x in ChildNames(p));
    }
  }

  /** When each body names a different node, each ends up in exactly one place: under
      the node it names as parent, or among the roots when it names none and may be a
      root; never both. */
  lemma {:induction false} BuiltPlacesOnce(keys: set<string>, links: seq<Link>)
    requires LinksWithin(keys, links)
    requires NoDuplicates(ChildNames(links))
    ensures forall i :: 0 <= i < |links| ==> Placed(Built(keys, links), links[i])
  {
    if links != [] {
      var p := links[..|links| - 1];
      var l := links[|links| - 1];
      assert LinksWithin(keys, p);
      assert ChildNames(p) == ChildNames(links)[..|p|];
      assert NoDuplicates(ChildNames(p));
      BuiltPlacesOnce(keys, p);
      BuiltContents(keys, p);
      var h0 := Built(keys, p);
      forall j | 0 <= j < |p|
        ensures ChildNames(p)[j] != l.child
      {
        assert ChildNames(links)[j] != ChildNames(links)[|p|];
      }
      assert l.child !in ChildNames(p);
      assert Built(keys, links) == Attach(h0, l);
      AttachPlaces(h0, l);
      forall i | 0 <= i < |p|
        ensures Placed(Attach(h0, l), links[i])
      {
        assert ChildNames(links)[i] != ChildNames(links)[|p|];
        AttachKeeps(h0, l, links[i]);
      }
    }
  }

  /** `l` makes `x` a root. */
  predicate MakesRoot(l: Link, x: string) {
    l.child == x && l.parent.None? && l.asRoot
  }

  /** `l` hangs `x` under the node `k`. */
  predicate Hangs(l: Link, x: string, k: string) {
    l.child == x && l.parent == Some(k)
  }

  /** Whatever the bodies, even several naming the same node: a name is among the
      roots exactly when some step made it a root. */
  lemma {:induction false} BuiltRoots(keys: set<string>, links: seq<Link>)
    requires LinksWithin(keys, links)
    ensures forall x :: x in Built(keys, links).roots <==> exists i :: 0 <= i < |links| && MakesRoot(links[i], x)
  {
    if links != [] {
      var p := links[..|links| - 1];
      var l := links[|links| - 1];
      assert LinksWithin(keys, p);
      BuiltRoots(keys, p);
      assert Built(keys, links) == Attach(Built(keys, p), l);
      forall x
        ensures x in Built(keys, links).roots <==> exists i :: 0 <= i < |links| && MakesRoot(links[i], x)
      {
        if exists i :: 0 <= i < |links| && MakesRoot(links[i], x) {
          var i :| 0 <= i < |links| && MakesRoot(links[i], x);
          if i < |p| {
            assert MakesRoot(p[i], x);
          }
        }
        if x in Built(keys, p).roots {
          var i :| 0 <= i < |p| && MakesRoot(p[i], x);
          assert MakesRoot(links[i], x);
        }
      }
    }
  }

  /** Likewise a name is among the children of `k` exactly when some step hung it
      under `k`. */
  lemma {:induction false} BuiltChildren(keys: set<string>, links: seq<Link>)
    requires LinksWithin(keys, links)
    ensures forall k, x :: k in Built(keys, links).children ==>
      (x in Built(keys, links).children[k] <==> exists i :: 0 <= i < |links| && Hangs(links[i], x, k))
  {
    if links != [] {
      var p := links[..|links| - 1];
      var l := links[|links| - 1];
      assert LinksWithin(keys, p);
      BuiltChildren(keys, p);
      var h0 := Built(keys, p);
      assert Built(keys, links) == Attach(h0, l);
      if l.parent.Some? {
        AdjoinProperties(h0.children[l.parent.value], l.child);
      }
      forall k, x | k in Built(keys, links).children
        ensures x in Built(keys, links).children[k] <==> exists i :: 0 <= i < |links| && Hangs(links[i], x, k)
      {
        if exists i :: 0 <= i < |links| && Hangs(links[i], x, k) {
          var i :| 0 <= i < |links| && Hangs(links[i], x, k);
          if i < |p| {
            assert Hangs(p[i], x, k);
          }
        }
        if x in Built(keys, p).children[k] {
          var i :| 0 <= i < |p| && Hangs(p[i], x, k);
          assert Hangs(links[i], x, k);
        }
      }
    }
  }

  // ---------------------------------------------------------------------------
  // The first pass of `BuildHierarchy`: the dictionary of nodes by name

  /** The keys of `_nodes` in enumeration order, with the object each node was made
      from. */
  datatype Keys<T> = Keys(order: seq<string>, owner: map<string, T>)

  /** The nodes stored under `ks`, in order. */
  function NodesIn<T>(ns: map<string, T>, ks: seq<string>): (vs: seq<T>)
    requires forall i :: 0 <= i < |ks| ==> ks[i] in ns
    ensures |vs| == |ks| && forall i :: 0 <= i < |ks| ==> vs[i] == ns[ks[i]]
  {
    seq(|ks|, i requires 0 <= i < |ks| && ks[i] in ns => ns[ks[i]])
  }
}
