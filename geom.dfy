// Points, boxes and the integer-grid primitives shared by construction,
// mutation and queries of the voxel octree.

module VoxGeom {

  /** Number of dimensions (VOX_N) and of subspaces around a center (VOX_NS). */
  const N: nat := 3
  const NS: nat := 8

  /** A grid point: the minimal corner of a voxel. */
  datatype Dot = Dot(x: int, y: int, z: int) {
    function At(k: nat): int
      requires k < N
    {
      if k == 0 then x else if k == 1 then y else z
    }

    /** The dot with coordinate k replaced by a. */
    function With(k: nat, a: int): (r: Dot)
      requires k < N
      ensures r.At(k) == a
      ensures forall j :: 0 <= j < N && j != k ==> r.At(j) == At(j)
    {
      if k == 0 then Dot(a, y, z) else if k == 1 then Dot(x, a, z) else Dot(x, y, a)
    }
  }

  /** A point of space (a vox_dot read as exact reals): ray origins, hits, ball centers. */
  datatype RDot = RDot(x: real, y: real, z: real) {
    function At(k: nat): real
      requires k < N
    {
      if k == 0 then x else if k == 1 then y else z
    }
  }

  /** A grid dot as a point of space. */
  function ToReal(p: Dot): (r: RDot)
    ensures forall k :: 0 <= k < N ==> r.At(k) == p.At(k) as real
  {
    RDot(p.x as real, p.y as real, p.z as real)
  }

  /** An axis-aligned box on the grid; a voxel p occupies [p, p + voxel size). */
  datatype Box = Box(min: Dot, max: Dot)

  /** The voxel size must be positive on every axis. */
  predicate PositiveSize(vs: Dot) {
    vs.x > 0 && vs.y > 0 && vs.z > 0
  }

  /** Component-wise sum of two dots (vox_sum_vector). */
  function SumVector(a: Dot, b: Dot): (r: Dot)
    ensures forall k :: 0 <= k < N ==> r.At(k) == a.At(k) + b.At(k)
  {
    Dot(a.x + b.x, a.y + b.y, a.z + b.z)
  }

  /** Index of a subspace from the three "not below the center" bits; bit k is axis k. */
  function IdxOf(b0: bool, b1: bool, b2: bool): int {
    (if b0 then 1 else 0) + (if b1 then 2 else 0) + (if b2 then 4 else 0)
  }

  /** Bit k of a subspace index. */
  predicate Bit(i: int, k: nat)
    requires k < N
  {
    (if k == 0 then i else if k == 1 then i / 2 else i / 4) % 2 == 1
  }

  /**
   * get_subspace_idx: bit k of the index is set iff p[k] >= center[k]. Points
   * of space (the ray search) and grid dots (the tree) share this one
   * definition; see SubspaceIdx.
   */
  function RSubspaceIdx(center: RDot, p: RDot): (r: int)
    ensures 0 <= r < NS
    ensures forall k :: 0 <= k < N ==> (Bit(r, k) <==> p.At(k) >= center.At(k))
  {
    IdxOf(p.x >= center.x, p.y >= center.y, p.z >= center.z)
  }

  /**
   * get_subspace_idx on grid dots: the index of the dots as points of space.
   * (The SIMD variant used when sorting under SSE sets the complementary bits;
   * see SimdSubspaceIdx.)
   */
  function SubspaceIdx(center: Dot, p: Dot): (r: int)
    ensures 0 <= r < NS
    ensures forall k :: 0 <= k < N ==> (Bit(r, k) <==> p.At(k) >= center.At(k))
  {
    RSubspaceIdx(ToReal(center), ToReal(p))
  }

  /** get_subspace_idx_simd: bit k is the sign bit of dot[k] - center[k]. */
  function SimdSubspaceIdx(center: Dot, p: Dot): (r: int)
    ensures 0 <= r < NS
    ensures forall k :: 0 <= k < N ==> (Bit(r, k) <==> p.At(k) < center.At(k))
  {
    IdxOf(p.x - center.x < 0, p.y - center.y < 0, p.z - center.z < 0)
  }

  /** The two conventions number the same octants, one the mirror of the other. */
  lemma SimdIsComplement(center: Dot, p: Dot)
    ensures SimdSubspaceIdx(center, p) == 7 - SubspaceIdx(center, p)
  {
  }

  /** Two dots share a subspace iff they lie on the same side of the center on every axis. */
  lemma SameSubspace(center: Dot, p: Dot, q: Dot)
    ensures SubspaceIdx(center, p) == SubspaceIdx(center, q) <==>
            forall k :: 0 <= k < N ==> (p.At(k) >= center.At(k) <==> q.At(k) >= center.At(k))
  {
    var i, j := SubspaceIdx(center, p), SubspaceIdx(center, q);
    if forall k :: 0 <= k < N ==> (p.At(k) >= center.At(k) <==> q.At(k) >= center.At(k)) {
      assert p.At(0) >= center.At(0) <==> q.At(0) >= center.At(0);
      assert p.At(1) >= center.At(1) <==> q.At(1) >= center.At(1);
      assert p.At(2) >= center.At(2) <==> q.At(2) >= center.At(2);
    }
  }

  // ---------------------------------------------------------------- the grid

  /** A dot is aligned when every coordinate is a multiple of the voxel size. */
  predicate Aligned(p: Dot, vs: Dot)
    requires PositiveSize(vs)
  {
    p.x % vs.x == 0 && p.y % vs.y == 0 && p.z % vs.z == 0
  }

  /** Floor of a division by a positive divisor (Dafny's / is Euclidean). */
  function FloorDiv(a: int, b: int): (q: int)
    requires b > 0
    ensures q * b <= a < q * b + b
  {
    a / b
  }

  /** Ceiling of a division by a positive divisor. */
  function CeilDiv(a: int, b: int): (q: int)
    requires b > 0
    ensures q * b - b < a <= q * b
  {
    -((-a) / b)
  }

  /** A voxel lies in a box: min <= v < max on every axis (voxel_in_box). */
  predicate VoxelInBox(box: Box, v: Dot) {
    box.min.x <= v.x < box.max.x &&
    box.min.y <= v.y < box.max.y &&
    box.min.z <= v.z < box.max.z
  }

  /** The whole voxel [v, v + vs) lies inside the box. */
  predicate VoxelWithin(box: Box, v: Dot, vs: Dot) {
    box.min.x <= v.x && v.x + vs.x <= box.max.x &&
    box.min.y <= v.y && v.y + vs.y <= box.max.y &&
    box.min.z <= v.z && v.z + vs.z <= box.max.z
  }

  /** A box on the grid with at least one voxel in it. */
  predicate GridBox(box: Box, vs: Dot)
    requires PositiveSize(vs)
  {
    Aligned(box.min, vs) && Aligned(box.max, vs) &&
    box.min.x < box.max.x && box.min.y < box.max.y && box.min.z < box.max.z
  }

  /** Number of voxels along axis k of a grid box (get_dimensions). */
  function Dim(box: Box, vs: Dot, k: nat): int
    requires PositiveSize(vs) && k < N
  {
    (box.max.At(k) - box.min.At(k)) / vs.At(k)
  }

  /** Number of voxels a box can hold. */
  function Capacity(box: Box, vs: Dot): int
    requires PositiveSize(vs)
  {
    Dim(box, vs, 0) * (Dim(box, vs, 1) * Dim(box, vs, 2))
  }

  /** dense_set_p: n voxels fill the box exactly. */
  predicate DenseSetP(box: Box, n: nat, vs: Dot)
    requires PositiveSize(vs)
  {
    n == Capacity(box, vs)
  }

  /** The box grown so that it also holds voxel v (update_bounding_box). */
  function Grow(box: Box, v: Dot, vs: Dot): (r: Box)
    ensures VoxelWithin(r, v, vs)
    ensures forall w :: VoxelWithin(box, w, vs) ==> VoxelWithin(r, w, vs)
  {
    var top := SumVector(v, vs);
    Box(Dot(if v.x < box.min.x then v.x else box.min.x,
            if v.y < box.min.y then v.y else box.min.y,
            if v.z < box.min.z then v.z else box.min.z),
        Dot(if top.x > box.max.x then top.x else box.max.x,
            if top.y > box.max.y then top.y else box.max.y,
            if top.z > box.max.z then top.z else box.max.z))
  }

  /** A box already holding the voxel does not grow. */
  lemma GrowSame(box: Box, v: Dot, vs: Dot)
    requires VoxelWithin(box, v, vs)
    ensures Grow(box, v, vs) == box
  {
  }

  /** A voxel lying wholly inside a box has its corner in the box. */
  lemma WithinInBox(box: Box, v: Dot, vs: Dot)
    requires PositiveSize(vs) && VoxelWithin(box, v, vs)
    ensures VoxelInBox(box, v)
  {
  }

  /**
   * closest_vertex: the vertex of the box nearest to v, chosen axis by axis
   * (ties go to the minimal corner). Only the ensures clauses are relied on
   * elsewhere: the body, through Nearer, is a stand-in for the source's own
   * computation, which is not part of this model.
   */
  function ClosestVertex(box: Box, v: Dot): (c: Dot)
    ensures forall k :: 0 <= k < N ==> c.At(k) == box.min.At(k) || c.At(k) == box.max.At(k)
    ensures forall k :: 0 <= k < N && v.At(k) < box.min.At(k) <= box.max.At(k) ==> c.At(k) == box.min.At(k)
    ensures forall k :: 0 <= k < N && v.At(k) >= box.max.At(k) && box.min.At(k) < box.max.At(k) ==>
              c.At(k) == box.max.At(k)
  {
    Dot(Nearer(box.min.x, box.max.x, v.x), Nearer(box.min.y, box.max.y, v.y),
        Nearer(box.min.z, box.max.z, v.z))
  }

  /** The nearer of lo and hi to a, lo on a tie: part of the stand-in body of ClosestVertex. */
  function Nearer(lo: int, hi: int, a: int): int {
    var dl := if a < lo then lo - a else a - lo;
    var dh := if a < hi then hi - a else a - hi;
    if dl <= dh then lo else hi
  }

  /** Midpoint of a box, rounded down (the source takes the exact float midpoint). */
  function Mid(box: Box): Dot {
    Dot((box.min.x + box.max.x) / 2, (box.min.y + box.max.y) / 2, (box.min.z + box.max.z) / 2)
  }

  /**
   * The assertion of the dense-leaf split: with the center at the closest
   * vertex, every voxel of a non-degenerate box falls in the subspace of the box
   * midpoint, and a voxel outside the box falls in another one.
   */
  lemma {:induction false} VertexSplit(box: Box, v: Dot, w: Dot, vs: Dot)
    requires PositiveSize(vs)
    requires box.min.x < box.max.x && box.min.y < box.max.y && box.min.z < box.max.z
    requires !VoxelInBox(box, v)
    requires VoxelInBox(box, w)
    ensures SubspaceIdx(ClosestVertex(box, v), w) == SubspaceIdx(ClosestVertex(box, v), Mid(box))
    ensures SubspaceIdx(ClosestVertex(box, v), v) != SubspaceIdx(ClosestVertex(box, v), Mid(box))
  {
    var c := ClosestVertex(box, v);
    var m := Mid(box);
    MidInside(box);
    forall k | 0 <= k < N
      ensures w.At(k) >= c.At(k) <==> m.At(k) >= c.At(k)
    {
    }
    SameSubspace(c, w, m);
    assert !(box.min.At(0) <= v.At(0) < box.max.At(0)) || !(box.min.At(1) <= v.At(1) < box.max.At(1))
        || !(box.min.At(2) <= v.At(2) < box.max.At(2));
    var k :| 0 <= k < N && !(box.min.At(k) <= v.At(k) < box.max.At(k));
    assert (v.At(k) >= c.At(k)) != (m.At(k) >= c.At(k));
    SameSubspace(c, v, m);
  }

  /** The midpoint of a box with extent on every axis lies in the box. */
  lemma MidInside(box: Box)
    requires box.min.x < box.max.x && box.min.y < box.max.y && box.min.z < box.max.z
    ensures forall k :: 0 <= k < N ==> box.min.At(k) <= Mid(box).At(k) < box.max.At(k)
  {
    HalfInside(box.min.x, box.max.x);
    HalfInside(box.min.y, box.max.y);
    HalfInside(box.min.z, box.max.z);
  }

  lemma HalfInside(a: int, b: int)
    requires a < b
    ensures a <= (a + b) / 2 < b
  {
  }
}
