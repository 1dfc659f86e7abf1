// A ray on which the truncating crossing comparison of
// voxtrees/search.c (compare_tagged) orders two plane crossings wrongly, and
// the octant chain the traversal then follows.

module VoxFindings {
  import opened VoxGeom
  import opened VoxRay

  // A ray from (0, 0, 1) along (1, 0.625, 0) through a node centered at
  // (5, 3, 10). It crosses the y plane at distance 7.8, then the x plane at
  // distance 8.125, and lies in octant 2 between the two crossings.
  const RayO := RDot(0.0, 0.0, 1.0)
  const RayD := RDot(1.0, 0.625, 0.0)
  const NodeC := RDot(5.0, 3.0, 10.0)
  const CrossX := Tagged(0, RDot(5.0, 3.125, 1.0))
  const CrossY := Tagged(1, RDot(4.8, 3.0, 1.0))

  /** The two crossings lie on the ray and on their planes; the ray starts in octant 0 and passes octant 2. */
  lemma ExampleRay()
    ensures CrossX.coord == Along(RayO, RayD, 5.0) && CrossX.coord.x == NodeC.x
    ensures CrossY.coord == Along(RayO, RayD, 4.8) && CrossY.coord.y == NodeC.y
    ensures RSubspaceIdx(NodeC, RayO) == 0 && RSubspaceIdx(NodeC, Along(RayO, RayD, 4.9)) == 2
  {
  }

  lemma ExampleDistances()
    ensures AbsMetric(RayO, CrossX.coord) == 8.125 && AbsMetric(RayO, CrossY.coord) == 7.8
  {
  }

  /**
   * As written, the comparison truncates the distance difference 0.325 to 0:
   * the farther x crossing and the nearer y crossing compare equal both ways,
   * so the order in which the planes were found (x first) may stand, and the
   * octant chain from the starting octant 0 is 0, 1, 3. The ray never enters
   * octant 1 and skips octant 2.
   */
  lemma TruncatedOrderSkipsOctant()
    ensures AbsMetric(RayO, CrossY.coord) < AbsMetric(RayO, CrossX.coord)
    ensures CompareTaggedAsWritten(RayO, CrossX, CrossY) == 0
    ensures CompareTaggedAsWritten(RayO, CrossY, CrossX) == 0
    ensures Subspaces([0, CrossX.tag, CrossY.tag]) == [0, 1, 3]
  {
    ExampleDistances();
    SubspacesOf3(0, 0, 1);
  }

  /** With the comparison by sign, the nearer y crossing comes first and the chain is 0, 2, 3. */
  lemma SortedOrderVisitsOctant()
    ensures CompareTagged(RayO, CrossY, CrossX) < 0 && CompareTagged(RayO, CrossX, CrossY) > 0
    ensures Subspaces([0, CrossY.tag, CrossX.tag]) == [0, 2, 3]
  {
    ExampleDistances();
    SubspacesOf3(0, 1, 0);
  }
}
