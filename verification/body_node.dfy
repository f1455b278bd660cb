/** The tree node of Services/Interfaces/CelestialBodyNode.cs: like the
    sphere-of-influence node, plus `RemoveChild` and a settable sphere-of-influence
    radius that the node itself never derives. */
module BodyNode {
  import opened Lists
  import opened SoiScene

  class CelestialBodyNode {
    const Name: string
    const Transform: Transform
    var children: seq<CelestialBodyNode>
    /** A plain property with a public setter; the controller assigns it. */
    var SphereOfInfluenceRadius: real

    constructor (name: string, t: Transform)
      ensures Name == name && Transform == t && children == [] && SphereOfInfluenceRadius == 0.0
    {
      Name := name;
      Transform := t;
      children := [];
      SphereOfInfluenceRadius := 0.0;
    }

    /** `AddChild`: ignores null and a child already present, otherwise appends. */
    method AddChild(child: CelestialBodyNode?)
      modifies this`children
      ensures children == if child == null then old(children) else Adjoin(old(children), child)
      ensures NoDuplicates(old(children)) ==> NoDuplicates(children)
    {
      if child != null {
        AdjoinProperties(children, child);
      }
      if child == null || child in children {
        return;
      }
      children := children + [child];
    }

    /** `RemoveChild`: ignores null, otherwise removes the first occurrence if any. */
    method RemoveChild(child: CelestialBodyNode?)
      modifies this`children
      ensures children == if child == null then old(children) else RemoveFirst(old(children), child)
      ensures NoDuplicates(old(children)) ==> NoDuplicates(children)
    {
      if child == null {
        return;
      }
      RemoveFirstProperties(children, child);
      children := RemoveFirst(children, child);
    }

    /** `GetChildren`: the node's own child list, read-only, in insertion order. */
    function GetChildren(): (r: seq<CelestialBodyNode>)
      reads this
      ensures r == children
    {
      children
    }
  }
}
