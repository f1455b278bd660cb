/** The tree node of Services/SphereOfInfluence/CelestialBodyNode.cs: a name and a
    transform fixed at construction, and a list of children that only grows. */
module SoiNode {
  import opened Lists
  import opened SoiScene

  class CelestialBodyNode {
    const Name: string
    const Transform: Transform
    var children: seq<CelestialBodyNode>

    constructor (name: string, t: Transform)
      ensures Name == name && Transform == t && children == []
    {
      Name := name;
      Transform := t;
      children := [];
    }

    /** `AddChild`: ignores null and a child already present, otherwise appends. */
    method AddChild(c: CelestialBodyNode?)
      modifies this
      ensures children == if c == null then old(children) else Adjoin(old(children), c)
      ensures NoDuplicates(old(children)) ==> NoDuplicates(children)
    {
      if c != null {
        AdjoinProperties(children, c);
      }
      if c != null && c !in children {
        children := children + [c];
      }
    }

    /** `GetChildren`: the node's own child list, read-only, in insertion order. */
    function GetChildren(): (r: seq<CelestialBodyNode>)
      reads this
      ensures r == children
    {
      children
    }
  }
}
