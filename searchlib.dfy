// The older ray query: the same traversal as VoxSearch.RayTreeIntersection,
// reporting success as 1 rather than a depth, taking the level of detail as an
// argument and recording no path.

module VoxSearchLib {
  import opened VoxGeom
  import opened VoxNode
  import opened VoxRay
  import opened VoxSearch

  /**
   * ray_tree_intersection: 1 with res the nearest hit of the ray on a voxel of
   * t (or, when depth reaches lod, the entry point of the node box), else 0
   * with res not written.
   */
  method RayTreeIntersection(g: Geometry, t: Node, origin: RDot, dir: RDot, res0: RDot,
                             depth: int, lod: int, vs: Dot)
    returns (found: int, res: RDot)
    requires Sound(g) && PositiveSize(vs) && Shaped(t)
    ensures found == 0 || found == 1
    ensures found == 0 ==> res == res0
    ensures found == 1 ==> OnRay(origin, dir, res)
    ensures found == 1 && lod < depth ==> HitsVoxel(t, res, vs)
    ensures t.Empty? ==> found == 0
    ensures !t.Empty? && NodeHit(g, t, origin, dir).None? ==> found == 0
    ensures !t.Empty? && NodeHit(g, t, origin, dir).Some? && depth == lod ==>
              found == 1 && res == NodeHit(g, t, origin, dir).value
    ensures t.Sparse? && depth != lod && NodeHit(g, t, origin, dir).Some? ==>
              var hits := Hits(g, t.dots, vs, origin, dir);
              (found == 1 <==> |hits| > 0) && (found == 1 ==> res == ClosestInSet(hits, origin))
    decreases t, 1
  {
    if t.Empty? {
      return 0, res0;
    }
    var hit := NodeHit(g, t, origin, dir);
    if hit.None? {
      return 0, res0;
    }
    var inter := hit.value;
    HitBoxPoint(g, ToReal(t.box.min), ToReal(t.box.max), origin, dir);
    if depth == lod {
      return 1, inter;
    }
    if t.Sparse? {
      var interp;
      interp, res := LeafSearch(g, t, origin, dir, res0, 1, vs);
      return interp, res;
    }
    var pi, count := Crossings(g, t.box, t.center, inter, origin, dir);
    found, res := SearchChildren(g, t, pi[..count], origin, dir, res0, depth, lod, vs);
  }

  /** The loop of the inner case: children in crossing order, stopping at the first success. */
  method SearchChildren(g: Geometry, t: Node, cross: seq<Tagged>, origin: RDot, dir: RDot, res0: RDot,
                        depth: int, lod: int, vs: Dot)
    returns (found: int, res: RDot)
    requires Sound(g) && PositiveSize(vs) && Shaped(t) && t.Inner?
    requires forall j :: 0 <= j < |cross| ==> cross[j].tag < 8 && OnRay(origin, dir, cross[j].coord)
    ensures found == 0 || found == 1
    ensures found == 0 ==> res == res0
    ensures found == 1 ==> OnRay(origin, dir, res)
    ensures found == 1 && lod < depth ==> HitsVoxel(t, res, vs)
    decreases t, 0
  {
    var i := 0;
    while i < |cross|
      invariant 0 <= i <= |cross|
    {
      var child := t.children[cross[i].tag as int];
      found, res := RayTreeIntersection(g, child, cross[i].coord, dir, res0, depth + 1, lod, vs);
      if found == 1 {
        OnRayTrans(origin, dir, cross[i].coord, res);
        if lod < depth {
          ChildHit(t, cross[i].tag as int, res, vs);
        }
        return 1, res;
      }
      i := i + 1;
    }
    return 0, res0;
  }
}
