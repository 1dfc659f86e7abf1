// The node of the voxel octree, the voxels it stands for and the invariant
// that construction and mutation maintain.

module VoxNode {
  import opened VoxGeom
  import opened VoxSeqs
  import opened VoxGrid

  /**
   * Capacity of a sparse leaf (VOX_MAX_DOTS). The header that defines it is
   * not part of this model; no property below depends on the value beyond its
   * being positive.
   */
  const MaxDots: nat := 16

  /**
   * A node: absent (NULL), a sparse leaf with its list of voxels, a dense leaf
   * that is completely full, or an inner node with a center and 8 children.
   * Every present node carries its bounding box and voxel count (dots_num);
   * for a sparse leaf the count is the length of its list.
   */
  datatype Node =
    | Empty
    | Sparse(box: Box, dots: seq<Dot>)
    | Dense(box: Box, count: nat)
    | Inner(box: Box, count: nat, center: Dot, children: seq<Node>)

  /** dots_num of a present node. */
  function DotsNum(t: Node): nat {
    match t
    case Empty => 0
    case Sparse(_, dots) => |dots|
    case Dense(_, count) => count
    case Inner(_, count, _, _) => count
  }

  /**
   * The voxels of a tree in the order flatten_tree writes them: a sparse leaf's
   * list, a dense leaf's grid steps, or the children 0..7 one after another.
   */
  function Flatten(t: Node, vs: Dot): seq<Dot>
    requires PositiveSize(vs)
    decreases t, 1
  {
    match t
    case Empty => []
    case Sparse(_, dots) => dots
    case Dense(box, _) => if GridBox(box, vs) then GridSeq(box, vs) else []
    case Inner(_, _, _, cs) => FlattenKids(cs, |cs|, vs)
  }

  /** The voxels of the first k children, concatenated. */
  function FlattenKids(cs: seq<Node>, k: nat, vs: Dot): seq<Dot>
    requires PositiveSize(vs) && k <= |cs|
    decreases cs, 0, k
  {
    if k == 0 then [] else FlattenKids(cs, k - 1, vs) + Flatten(cs[k - 1], vs)
  }

  /** Every dot of s is an aligned voxel lying wholly inside box. */
  ghost predicate AllWithin(s: seq<Dot>, box: Box, vs: Dot)
    requires PositiveSize(vs)
  {
    forall p :: p in s ==> Aligned(p, vs) && VoxelWithin(box, p, vs)
  }

  /**
   * The tree invariant: counts agree with the voxels, no voxel is stored twice,
   * every voxel lies in its node's box, a sparse leaf holds 1..MaxDots voxels,
   * a dense leaf is a full grid box, and child i of an inner node holds only
   * voxels of subspace i of its center.
   */
  ghost predicate Valid(t: Node, vs: Dot)
    requires PositiveSize(vs)
    decreases t
  {
    match t
    case Empty => true
    case Sparse(box, dots) =>
      0 < |dots| <= MaxDots && NoDup(dots) && AllWithin(dots, box, vs)
    case Dense(box, count) =>
      GridBox(box, vs) && count == Capacity(box, vs)
    case Inner(box, count, center, cs) =>
      && |cs| == NS
      && (forall i :: 0 <= i < NS ==> Valid(cs[i], vs))
      && (forall i, v :: 0 <= i < NS && v in Flatten(cs[i], vs) ==> SubspaceIdx(center, v) == i)
      && count == |Flatten(t, vs)| && count > 0
      && NoDup(Flatten(t, vs))
      && AllWithin(Flatten(t, vs), box, vs)
  }

  /** vox_voxels_in_tree: the count of a present node, 0 for an absent one. */
  function VoxelsInTree(t: Node): (n: nat)
    ensures t.Empty? ==> n == 0
  {
    DotsNum(t)
  }

  /** vox_bounding_box: the box of a present node. */
  function BoundingBox(t: Node, vs: Dot): (b: Box)
    requires PositiveSize(vs) && !t.Empty?
    ensures Valid(t, vs) ==> AllWithin(Flatten(t, vs), b, vs)
  {
    ValidShape(t, vs);
    t.box
  }

  // ------------------------------------------------------------ lemmas

  /**
   * In a valid tree the count is the number of voxels, no voxel repeats and all
   * voxels lie in the box; a present node holds at least one voxel.
   */
  lemma ValidShape(t: Node, vs: Dot)
    requires PositiveSize(vs)
    ensures Valid(t, vs) ==> DotsNum(t) == |Flatten(t, vs)| && NoDup(Flatten(t, vs))
    ensures Valid(t, vs) && !t.Empty? ==> DotsNum(t) > 0 && AllWithin(Flatten(t, vs), t.box, vs)
  {
    if Valid(t, vs) && t.Dense? {
      GridSeqShape(t.box, vs);
      DimNonNeg(t.box, vs);
      forall p | p in Flatten(t, vs) ensures Aligned(p, vs) && VoxelWithin(t.box, p, vs) {
        GridWithin(t.box, vs, p);
      }
    }
  }

  lemma VoxelsInTreeCount(t: Node, vs: Dot)
    requires PositiveSize(vs) && Valid(t, vs)
    ensures VoxelsInTree(t) == |Flatten(t, vs)|
    ensures VoxelsInTree(t) == |Elements(Flatten(t, vs))|
  {
    ValidShape(t, vs);
    NoDupCard(Flatten(t, vs));
  }

  lemma {:induction false} FlattenKidsMember(cs: seq<Node>, k: nat, vs: Dot, v: Dot)
    requires PositiveSize(vs) && k <= |cs|
    ensures v in FlattenKids(cs, k, vs) <==> exists i :: 0 <= i < k && v in Flatten(cs[i], vs)
    decreases k
  {
    if k > 0 {
      FlattenKidsMember(cs, k - 1, vs, v);
    }
  }

  /** Children before i are untouched by replacing child i. */
  lemma {:induction false} FlattenKidsPrefix(cs: seq<Node>, k: nat, i: nat, c: Node, vs: Dot)
    requires PositiveSize(vs) && k <= i < |cs|
    ensures FlattenKids(cs[i := c], k, vs) == FlattenKids(cs, k, vs)
    decreases k
  {
    if k > 0 {
      FlattenKidsPrefix(cs, k - 1, i, c, vs);
    }
  }

  /**
   * When every child holds only voxels of its own subspace, a voxel occurs in
   * the first k children as often as in the child of its subspace, if that one
   * is among them, and not at all otherwise.
   */
  lemma {:induction false} KidsCount(cs: seq<Node>, k: nat, center: Dot, vs: Dot, x: Dot)
    requires PositiveSize(vs) && |cs| == NS && k <= NS
    requires forall i, v :: 0 <= i < NS && v in Flatten(cs[i], vs) ==> SubspaceIdx(center, v) == i
    ensures multiset(FlattenKids(cs, k, vs))[x] ==
            if SubspaceIdx(center, x) < k then multiset(Flatten(cs[SubspaceIdx(center, x)], vs))[x] else 0
    decreases k
  {
    if k > 0 {
      KidsCount(cs, k - 1, center, vs, x);
      var last := Flatten(cs[k - 1], vs);
      assert multiset(FlattenKids(cs, k, vs)) == multiset(FlattenKids(cs, k - 1, vs)) + multiset(last);
      if SubspaceIdx(center, x) != k - 1 {
        assert x !in last;
      }
    }
  }

  /** Children that sort by subspace and repeat no voxel repeat none together. */
  lemma KidsNoDup(cs: seq<Node>, center: Dot, vs: Dot)
    requires PositiveSize(vs) && |cs| == NS
    requires forall i :: 0 <= i < NS ==> Valid(cs[i], vs)
    requires forall i, v :: 0 <= i < NS && v in Flatten(cs[i], vs) ==> SubspaceIdx(center, v) == i
    ensures NoDup(FlattenKids(cs, NS, vs))
  {
    forall x ensures multiset(FlattenKids(cs, NS, vs))[x] <= 1 {
      KidsCount(cs, NS, center, vs, x);
      ValidShape(cs[SubspaceIdx(center, x)], vs);
    }
  }

  /**
   * Replacing child i of a valid inner node by a valid node c that holds only
   * voxels of subspace i changes the node's voxels by exactly those of the two
   * children; given the new count and a box that holds every voxel involved,
   * the node stays valid.
   */
  lemma InnerReplace(t: Node, i: nat, c: Node, box: Box, count: nat, vs: Dot)
    requires PositiveSize(vs) && t.Inner? && Valid(t, vs) && i < NS
    requires Valid(c, vs) && forall v :: v in Flatten(c, vs) ==> SubspaceIdx(t.center, v) == i
    requires forall v :: v in Flatten(t, vs) ==> VoxelWithin(box, v, vs)
    requires forall v :: v in Flatten(c, vs) ==> VoxelWithin(box, v, vs)
    requires count + |Flatten(t.children[i], vs)| == |Flatten(t, vs)| + |Flatten(c, vs)| && count > 0
    ensures Valid(Inner(box, count, t.center, t.children[i := c]), vs)
    ensures multiset(Flatten(Inner(box, count, t.center, t.children[i := c]), vs)) + multiset(Flatten(t.children[i], vs))
         == multiset(Flatten(t, vs)) + multiset(Flatten(c, vs))
  {
    var cs := t.children[i := c];
    var t' := Inner(box, count, t.center, cs);
    ReplaceSorted(t.children, cs, i, c, t.center, vs);
    ReplaceVoxels(t.children, cs, i, c, t.center, vs);
    var f, f0, fi, fc := Flatten(t', vs), Flatten(t, vs), Flatten(t.children[i], vs), Flatten(c, vs);
    assert multiset(f) + multiset(fi) == multiset(f0) + multiset(fc);
    KidsNoDup(cs, t.center, vs);
    assert |multiset(f) + multiset(fi)| == |multiset(f0) + multiset(fc)|;
    assert |f| + |fi| == |f0| + |fc|;
    ValidShape(c, vs);
    ValidShape(t, vs);
    forall v | v in f ensures Aligned(v, vs) && VoxelWithin(box, v, vs) {
      assert v in multiset(f0) + multiset(fc);
    }
    InnerValid(box, count, t.center, cs, vs);
  }

  /** The invariant of an inner node, from its parts. */
  lemma InnerValid(box: Box, count: nat, center: Dot, cs: seq<Node>, vs: Dot)
    requires PositiveSize(vs) && |cs| == NS
    requires forall i :: 0 <= i < NS ==> Valid(cs[i], vs)
    requires forall i, v :: 0 <= i < NS && v in Flatten(cs[i], vs) ==> SubspaceIdx(center, v) == i
    requires count == |FlattenKids(cs, NS, vs)| && count > 0
    requires forall v :: v in FlattenKids(cs, NS, vs) ==> Aligned(v, vs) && VoxelWithin(box, v, vs)
    ensures Valid(Inner(box, count, center, cs), vs)
  {
    KidsNoDup(cs, center, vs);
  }

  /**
   * The children cs' that replace child i of cs by c, which holds only voxels
   * of subspace i, still sort by subspace, and are valid when c is.
   */
  lemma ReplaceSorted(cs: seq<Node>, cs': seq<Node>, i: nat, c: Node, center: Dot, vs: Dot)
    requires PositiveSize(vs) && |cs| == NS && i < NS && cs' == cs[i := c]
    requires forall j, v :: 0 <= j < NS && v in Flatten(cs[j], vs) ==> SubspaceIdx(center, v) == j
    requires forall v :: v in Flatten(c, vs) ==> SubspaceIdx(center, v) == i
    ensures forall j, v :: 0 <= j < NS && v in Flatten(cs'[j], vs) ==> SubspaceIdx(center, v) == j
    ensures (forall j :: 0 <= j < NS ==> Valid(cs[j], vs)) && Valid(c, vs) ==>
              forall j :: 0 <= j < NS ==> Valid(cs'[j], vs)
  {
    forall j, v | 0 <= j < NS && v in Flatten(cs'[j], vs) ensures SubspaceIdx(center, v) == j {
      if j != i { assert cs'[j] == cs[j]; }
    }
  }

  /**
   * Those children hold the voxels of cs with the voxels of child i traded for
   * those of c.
   */
  lemma ReplaceVoxels(cs: seq<Node>, cs': seq<Node>, i: nat, c: Node, center: Dot, vs: Dot)
    requires PositiveSize(vs) && |cs| == NS && i < NS && cs' == cs[i := c]
    requires forall j, v :: 0 <= j < NS && v in Flatten(cs[j], vs) ==> SubspaceIdx(center, v) == j
    requires forall j, v :: 0 <= j < NS && v in Flatten(cs'[j], vs) ==> SubspaceIdx(center, v) == j
    ensures multiset(FlattenKids(cs', NS, vs)) + multiset(Flatten(cs[i], vs))
         == multiset(FlattenKids(cs, NS, vs)) + multiset(Flatten(c, vs))
  {
    var f, f0, fi, fc := FlattenKids(cs', NS, vs), FlattenKids(cs, NS, vs), Flatten(cs[i], vs), Flatten(c, vs);
    forall x ensures multiset(f)[x] + multiset(fi)[x] == multiset(f0)[x] + multiset(fc)[x] {
      ReplaceCount(cs, cs', i, c, center, vs, x);
    }
    assert multiset(f) + multiset(fi) == multiset(f0) + multiset(fc);
  }

  /** ReplaceVoxels for the multiplicity of one voxel x. */
  lemma ReplaceCount(cs: seq<Node>, cs': seq<Node>, i: nat, c: Node, center: Dot, vs: Dot, x: Dot)
    requires PositiveSize(vs) && |cs| == NS && i < NS && cs' == cs[i := c]
    requires forall j, v :: 0 <= j < NS && v in Flatten(cs[j], vs) ==> SubspaceIdx(center, v) == j
    requires forall j, v :: 0 <= j < NS && v in Flatten(cs'[j], vs) ==> SubspaceIdx(center, v) == j
    ensures multiset(FlattenKids(cs', NS, vs))[x] + multiset(Flatten(cs[i], vs))[x]
         == multiset(FlattenKids(cs, NS, vs))[x] + multiset(Flatten(c, vs))[x]
  {
    assert cs'[i] == c;
    KidsCount(cs', NS, center, vs, x);
    KidsCount(cs, NS, center, vs, x);
    var j := SubspaceIdx(center, x);
    if j != i {
      assert cs'[j] == cs[j];
      assert x !in Flatten(cs'[i], vs) && x !in Flatten(cs[i], vs);
    }
  }

  /** In a valid inner node a voxel can only be in the child of its subspace. */
  lemma InnerLocate(t: Node, vs: Dot, v: Dot)
    requires PositiveSize(vs) && t.Inner? && Valid(t, vs)
    ensures v in Flatten(t, vs) <==> v in Flatten(t.children[SubspaceIdx(t.center, v)], vs)
  {
    FlattenKidsMember(t.children, NS, vs, v);
  }
}
