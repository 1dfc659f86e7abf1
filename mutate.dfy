// vox_insert_voxel and vox_delete_voxel: adding and removing one voxel while
// keeping the tree invariant. A node is a value here; where the source
// rewrites *tree_ptr, the methods return the node that takes its place
// together with the 0/1 result.

module VoxMutate {
  import opened VoxGeom
  import opened VoxSeqs
  import opened VoxGrid
  import opened VoxNode
  import opened VoxSplit
  import opened VoxBuild
  import opened VoxFlatten

  /** 0 for an absent node, 1 for a present one: the first measure of insertion. */
  function Stage(t: Node): nat {
    if t.Empty? then 0 else 1
  }

  /** The voxels of a tree after v was added (res == 1) or found (res == 0). */
  ghost function Added(t: Node, v: Dot, res: int, vs: Dot): multiset<Dot>
    requires PositiveSize(vs)
  {
    multiset(Flatten(t, vs)) + if res == 1 then multiset{v} else multiset{}
  }

  // ------------------------------------------------------------ insertion

  /**
   * vox_insert_voxel_: add the aligned voxel v. The result is 1 exactly when v
   * was not in the tree; the new tree is valid, holds the old voxels and v,
   * counts one more voxel when v was added, and is the old tree when it was not.
   */
  method InsertAligned(t: Node, v: Dot, vs: Dot) returns (t': Node, res: int)
    requires PositiveSize(vs) && Valid(t, vs) && Aligned(v, vs)
    ensures Valid(t', vs) && !t'.Empty?
    ensures res == 0 || res == 1
    ensures res == 1 <==> v !in Flatten(t, vs)
    ensures multiset(Flatten(t', vs)) == Added(t, v, res, vs)
    ensures DotsNum(t') == DotsNum(t) + res
    ensures res == 0 ==> t' == t
    decreases Stage(t), t, 1
  {
    match t
    case Empty =>
      t' := Singleton(v, vs);
      res := 1;
    case Dense(_, _) =>
      t', res := InsertDense(t, v, vs);
    case Sparse(_, _) =>
      t', res := InsertSparse(t, v, vs);
    case Inner(_, _, _, _) =>
      t', res := InsertInner(t, v, vs);
  }

  /** vox_make_tree on a one-voxel set: the tree of v alone. */
  method Singleton(v: Dot, vs: Dot) returns (t: Node)
    requires PositiveSize(vs) && Aligned(v, vs)
    ensures Valid(t, vs) && !t.Empty? && DotsNum(t) == 1
    ensures multiset(Flatten(t, vs)) == multiset{v}
    ensures VoxelWithin(t.box, v, vs)
  {
    var a := new Dot[1];
    a[0] := v;
    assert a[0..1] == [v];
    DistinctNoDup([v]);
    t := MakeTree(a, 0, 1, vs);
    ValidShape(t, vs);
    assert v in multiset(Flatten(t, vs));
  }

  /**
   * A dense leaf already holds every aligned voxel of its box. A voxel outside
   * it turns a leaf of fewer than MaxDots voxels into the tree vox_make_tree
   * builds for its voxels and v; a larger leaf goes under a new inner node
   * centered at the box vertex closest to v, next to a leaf holding v.
   */
  method InsertDense(t: Node, v: Dot, vs: Dot) returns (t': Node, res: int)
    requires PositiveSize(vs) && t.Dense? && Valid(t, vs) && Aligned(v, vs)
    ensures Valid(t', vs) && !t'.Empty?
    ensures res == 0 || res == 1
    ensures res == 1 <==> v !in Flatten(t, vs)
    ensures multiset(Flatten(t', vs)) == Added(t, v, res, vs)
    ensures DotsNum(t') == DotsNum(t) + res
    ensures res == 0 ==> t' == t
    decreases 1, t, 0
  {
    GridMember(t.box, vs, v);
    if VoxelInBox(t.box, v) {
      return t, 0;
    }
    res := 1;
    if t.count < MaxDots {
      t' := Append(t, v, vs);
    } else {
      var c := ClosestVertex(t.box, v);
      var idx := SubspaceIdx(c, Mid(t.box));
      var idx2 := SubspaceIdx(c, v);
      MidInside(t.box);
      VertexSplit(t.box, v, Mid(t.box), vs);
      assert idx != idx2;
      var children := seq(NS, _ => Empty)[idx := t];
      var leaf, _ := InsertAligned(children[idx2], v, vs);
      var cs := children[idx2 := leaf];
      assert cs[idx] == t && cs[idx2] == leaf;
      assert forall i :: 0 <= i < NS && i != idx && i != idx2 ==> cs[i] == Empty;
      t' := Inner(Grow(t.box, v, vs), t.count + 1, c, cs);
      DenseSplitValid(t, v, leaf, c, cs, vs);
    }
  }

  /**
   * Flatten the leaf into a fresh array, put v after its voxels and build the
   * tree of them all (the downgrade of a small dense leaf, and the overflow of
   * a full sparse leaf).
   */
  method Append(t: Node, v: Dot, vs: Dot) returns (t': Node)
    requires PositiveSize(vs) && Valid(t, vs) && !t.Empty? && Aligned(v, vs)
    requires v !in Flatten(t, vs)
    ensures Valid(t', vs) && !t'.Empty?
    ensures multiset(Flatten(t', vs)) == multiset(Flatten(t, vs)) + multiset{v}
    ensures DotsNum(t') == DotsNum(t) + 1
  {
    ValidShape(t, vs);
    var n := DotsNum(t);
    var a := new Dot[n + 1];
    var count := FlattenTree(t, a, 0, vs);
    ghost var s := Flatten(t, vs);
    ghost var before := a[..];
    a[count] := v;
    PlacedAppend(before, a[..], s, v);
    NoDupAppend(s, v);
    t' := MakeTree(a, 0, n + 1, vs);
  }

  /** A flattened run with v written right after it reads as the run followed by v. */
  lemma PlacedAppend(before: seq<Dot>, after: seq<Dot>, s: seq<Dot>, v: Dot)
    requires Placed(before, 0, s) && |before| == |s| + 1 && after == before[|s| := v]
    ensures after[0..|s| + 1] == s + [v]
  {
    assert after[0..|s|] == before[0..|s|];
  }

  /**
   * The inner node that replaces a full dense leaf: the leaf in the subspace of
   * the box midpoint, the leaf of v in the subspace of v, every other child
   * absent, the box grown to v.
   */
  lemma DenseSplitValid(t: Node, v: Dot, leaf: Node, c: Dot, cs: seq<Node>, vs: Dot)
    requires PositiveSize(vs) && t.Dense? && Valid(t, vs) && !VoxelInBox(t.box, v)
    requires Valid(leaf, vs) && multiset(Flatten(leaf, vs)) == multiset{v} && Aligned(v, vs)
    requires c == ClosestVertex(t.box, v)
    requires |cs| == NS && cs[SubspaceIdx(c, Mid(t.box))] == t && cs[SubspaceIdx(c, v)] == leaf
    requires forall i :: 0 <= i < NS && i != SubspaceIdx(c, Mid(t.box)) && i != SubspaceIdx(c, v) ==> cs[i] == Empty
    ensures Valid(Inner(Grow(t.box, v, vs), t.count + 1, c, cs), vs)
    ensures multiset(Flatten(Inner(Grow(t.box, v, vs), t.count + 1, c, cs), vs)) == multiset(Flatten(t, vs)) + multiset{v}
  {
    var box := Grow(t.box, v, vs);
    DenseSplitSorted(t, v, leaf, c, cs, vs);
    DenseSplitVoxels(t, v, leaf, c, cs, vs);
    var f := FlattenKids(cs, NS, vs);
    ValidShape(t, vs);
    assert |f| == |multiset(f)| == t.count + 1;
    forall w | w in f ensures Aligned(w, vs) && VoxelWithin(box, w, vs) {
      assert w in multiset(f);
    }
    InnerValid(box, t.count + 1, c, cs, vs);
  }

  /** Those children are valid and each holds only voxels of its own subspace. */
  lemma DenseSplitSorted(t: Node, v: Dot, leaf: Node, c: Dot, cs: seq<Node>, vs: Dot)
    requires PositiveSize(vs) && t.Dense? && Valid(t, vs) && !VoxelInBox(t.box, v)
    requires Valid(leaf, vs) && multiset(Flatten(leaf, vs)) == multiset{v}
    requires c == ClosestVertex(t.box, v)
    requires |cs| == NS && cs[SubspaceIdx(c, Mid(t.box))] == t && cs[SubspaceIdx(c, v)] == leaf
    requires forall i :: 0 <= i < NS && i != SubspaceIdx(c, Mid(t.box)) && i != SubspaceIdx(c, v) ==> cs[i] == Empty
    ensures forall i :: 0 <= i < NS ==> Valid(cs[i], vs)
    ensures forall i, w :: 0 <= i < NS && w in Flatten(cs[i], vs) ==> SubspaceIdx(c, w) == i
  {
    var idx, idx2 := SubspaceIdx(c, Mid(t.box)), SubspaceIdx(c, v);
    ValidShape(t, vs);
    forall w | w in Flatten(leaf, vs) ensures SubspaceIdx(c, w) == idx2 {
      assert w in multiset(Flatten(leaf, vs));
    }
    forall w | w in Flatten(t, vs) ensures SubspaceIdx(c, w) == idx {
      WithinInBox(t.box, w, vs);
      VertexSplit(t.box, v, w, vs);
    }
  }

  /** Those children hold the voxels of the dense leaf and v. */
  lemma DenseSplitVoxels(t: Node, v: Dot, leaf: Node, c: Dot, cs: seq<Node>, vs: Dot)
    requires PositiveSize(vs) && t.Dense? && GridBox(t.box, vs) && !VoxelInBox(t.box, v)
    requires multiset(Flatten(leaf, vs)) == multiset{v}
    requires c == ClosestVertex(t.box, v)
    requires |cs| == NS && cs[SubspaceIdx(c, Mid(t.box))] == t && cs[SubspaceIdx(c, v)] == leaf
    requires forall i, w :: 0 <= i < NS && w in Flatten(cs[i], vs) ==> SubspaceIdx(c, w) == i
    requires forall i :: 0 <= i < NS && i != SubspaceIdx(c, Mid(t.box)) && i != SubspaceIdx(c, v) ==> cs[i] == Empty
    ensures multiset(FlattenKids(cs, NS, vs)) == multiset(Flatten(t, vs)) + multiset{v}
  {
    var idx, idx2 := SubspaceIdx(c, Mid(t.box)), SubspaceIdx(c, v);
    MidInside(t.box);
    VertexSplit(t.box, v, Mid(t.box), vs);
    var f := FlattenKids(cs, NS, vs);
    forall x ensures multiset(f)[x] == (multiset(Flatten(t, vs)) + multiset{v})[x] {
      KidsCount(cs, NS, c, vs, x);
      var j := SubspaceIdx(c, x);
      if j == idx2 {
        assert x !in Flatten(t, vs);
      } else if j == idx {
        assert x != v;
      } else {
        assert x != v && x !in Flatten(t, vs);
      }
    }
  }

  /**
   * A sparse leaf is scanned for v; a new voxel is appended in place while the
   * leaf has room, the box growing to hold it, and otherwise the leaf and v
   * go to vox_make_tree.
   */
  method InsertSparse(t: Node, v: Dot, vs: Dot) returns (t': Node, res: int)
    requires PositiveSize(vs) && t.Sparse? && Valid(t, vs) && Aligned(v, vs)
    ensures Valid(t', vs) && !t'.Empty?
    ensures res == 0 || res == 1
    ensures res == 1 <==> v !in Flatten(t, vs)
    ensures multiset(Flatten(t', vs)) == Added(t, v, res, vs)
    ensures DotsNum(t') == DotsNum(t) + res
    ensures res == 0 ==> t' == t
    ensures res == 1 && |t.dots| < MaxDots ==> t' == Sparse(Grow(t.box, v, vs), t.dots + [v])
  {
    var dots := t.dots;
    var i := Find(dots, v);
    if i < |dots| {
      return t, 0;
    }
    res := 1;
    if |dots| < MaxDots {
      var box := Grow(t.box, v, vs);
      t' := Sparse(box, dots + [v]);
      NoDupAppend(dots, v);
      forall p | p in dots + [v] ensures Aligned(p, vs) && VoxelWithin(box, p, vs) {
        if p != v { assert p in dots; }
      }
    } else {
      t' := Append(t, v, vs);
    }
  }

  /**
   * An inner node passes v to the child of its subspace and grows its box to
   * hold v; its count goes up when the child took v.
   */
  method InsertInner(t: Node, v: Dot, vs: Dot) returns (t': Node, res: int)
    requires PositiveSize(vs) && t.Inner? && Valid(t, vs) && Aligned(v, vs)
    ensures Valid(t', vs) && !t'.Empty?
    ensures res == 0 || res == 1
    ensures res == 1 <==> v !in Flatten(t, vs)
    ensures multiset(Flatten(t', vs)) == Added(t, v, res, vs)
    ensures DotsNum(t') == DotsNum(t) + res
    ensures res == 0 ==> t' == t
    ensures t'.Inner? && t'.box == Grow(t.box, v, vs) && t'.center == t.center && |t'.children| == NS
    ensures forall j :: 0 <= j < NS && j != SubspaceIdx(t.center, v) ==> t'.children[j] == t.children[j]
    ensures var idx := SubspaceIdx(t.center, v);
            multiset(Flatten(t'.children[idx], vs)) == Added(t.children[idx], v, res, vs)
    decreases 1, t, 0
  {
    var idx := SubspaceIdx(t.center, v);
    var box := Grow(t.box, v, vs);
    var child := t.children[idx];
    var child', r := InsertAligned(child, v, vs);
    t' := Inner(box, t.count + r, t.center, t.children[idx := child']);
    res := r;
    InnerLocate(t, vs, v);
    InsertInnerValid(t, v, child', r, vs);
    if r == 0 {
      ValidShape(t, vs);
      GrowSame(t.box, v, vs);
      assert t.children[idx := child] == t.children;
    }
  }

  /** The invariant and the voxels of an inner node whose child took v. */
  lemma InsertInnerValid(t: Node, v: Dot, c: Node, r: int, vs: Dot)
    requires PositiveSize(vs) && t.Inner? && Valid(t, vs) && Aligned(v, vs)
    requires Valid(c, vs) && (r == 0 || r == 1)
    requires multiset(Flatten(c, vs)) == Added(t.children[SubspaceIdx(t.center, v)], v, r, vs)
    requires DotsNum(c) == DotsNum(t.children[SubspaceIdx(t.center, v)]) + r
    requires r == 1 <==> v !in Flatten(t.children[SubspaceIdx(t.center, v)], vs)
    ensures var idx := SubspaceIdx(t.center, v);
            var t' := Inner(Grow(t.box, v, vs), t.count + r, t.center, t.children[idx := c]);
            Valid(t', vs) && multiset(Flatten(t', vs)) == Added(t, v, r, vs)
  {
    var idx := SubspaceIdx(t.center, v);
    var old_ := t.children[idx];
    var box := Grow(t.box, v, vs);
    ValidShape(t, vs);
    ChildGrows(t, v, c, r, vs);
    ValidShape(c, vs);
    ValidShape(old_, vs);
    assert |Flatten(c, vs)| == |Flatten(old_, vs)| + r;
    InnerReplace(t, idx, c, box, t.count + r, vs);
    var t' := Inner(box, t.count + r, t.center, t.children[idx := c]);
    MultisetCancel(multiset(Flatten(t', vs)), multiset(Flatten(old_, vs)), multiset(Flatten(t, vs)),
                   if r == 1 then multiset{v} else multiset{});
  }

  /** The voxels of the new child lie in its subspace and in the grown box. */
  lemma ChildGrows(t: Node, v: Dot, c: Node, r: int, vs: Dot)
    requires PositiveSize(vs) && t.Inner? && Valid(t, vs) && Aligned(v, vs)
    requires multiset(Flatten(c, vs)) == Added(t.children[SubspaceIdx(t.center, v)], v, r, vs)
    ensures forall w :: w in Flatten(c, vs) ==>
              SubspaceIdx(t.center, w) == SubspaceIdx(t.center, v) && VoxelWithin(Grow(t.box, v, vs), w, vs)
  {
    var idx := SubspaceIdx(t.center, v);
    var old_ := t.children[idx];
    var box := Grow(t.box, v, vs);
    ValidShape(t, vs);
    FlattenKidsMember(t.children, NS, vs, v);
    forall w | w in Flatten(c, vs) ensures SubspaceIdx(t.center, w) == idx && VoxelWithin(box, w, vs) {
      assert w in multiset(Flatten(c, vs));
      if w != v {
        assert w in Flatten(old_, vs);
        FlattenKidsMember(t.children, NS, vs, w);
      }
    }
  }

  /** From a + b == c + (b + e), a == c + e. */
  lemma MultisetCancel<T>(a: multiset<T>, b: multiset<T>, c: multiset<T>, e: multiset<T>)
    requires a + b == c + (b + e)
    ensures a == c + e
  {
    forall x ensures a[x] == (c + e)[x] {
      assert (a + b)[x] == (c + (b + e))[x];
    }
  }

  /**
   * vox_insert_voxel: the point is first moved to the voxel that holds it
   * (vox_align_floor), which is then inserted.
   */
  method InsertVoxel(t: Node, p: RDot, vs: Dot) returns (t': Node, res: int)
    requires PositiveSize(vs) && Valid(t, vs)
    ensures Valid(t', vs) && !t'.Empty?
    ensures res == 0 || res == 1
    ensures res == 1 <==> AlignFloor(p, vs) !in Flatten(t, vs)
    ensures multiset(Flatten(t', vs)) == Added(t, AlignFloor(p, vs), res, vs)
    ensures DotsNum(t') == DotsNum(t) + res
    ensures res == 0 ==> t' == t
  {
    var v := VoxAlignFloor(p, vs);
    t', res := InsertAligned(t, v, vs);
  }

  // ------------------------------------------------------------ deletion

  /**
   * vox_delete_voxel_: remove the aligned voxel v. The result is 1 exactly when
   * v was in the tree; the new tree is valid, holds the old voxels but v, and
   * is the old tree when v was not there. A node whose last voxel goes away
   * becomes absent. Sparse leaves and inner nodes keep their boxes; a dense leaf is
   * rebuilt from what is left and gets the box of those voxels.
   */
  method DeleteAligned(t: Node, v: Dot, vs: Dot) returns (t': Node, res: int)
    requires PositiveSize(vs) && Valid(t, vs) && Aligned(v, vs)
    ensures Valid(t', vs)
    ensures res == 0 || res == 1
    ensures res == 1 <==> v in Flatten(t, vs)
    ensures multiset(Flatten(t', vs)) == multiset(Flatten(t, vs)) - multiset{v}
    ensures DotsNum(t') == DotsNum(t) - res
    ensures t'.Empty? <==> DotsNum(t') == 0
    ensures res == 0 ==> t' == t
    decreases t, 1
  {
    ValidShape(t, vs);
    if t.Empty? || !VoxelInBox(t.box, v) {
      if v in Flatten(t, vs) {
        WithinInBox(t.box, v, vs);
      }
      assert v !in multiset(Flatten(t, vs));
      return t, 0;
    }
    match t
    case Sparse(_, _) =>
      t', res := DeleteSparse(t, v, vs);
    case Dense(_, _) =>
      t' := DeleteDense(t, v, vs);
      res := 1;
    case Inner(_, _, _, _) =>
      t', res := DeleteInner(t, v, vs);
  }

  /** A sparse leaf is scanned for v, which the memmove closes over. */
  method DeleteSparse(t: Node, v: Dot, vs: Dot) returns (t': Node, res: int)
    requires PositiveSize(vs) && t.Sparse? && Valid(t, vs)
    ensures Valid(t', vs)
    ensures res == 0 || res == 1
    ensures res == 1 <==> v in Flatten(t, vs)
    ensures multiset(Flatten(t', vs)) == multiset(Flatten(t, vs)) - multiset{v}
    ensures DotsNum(t') == DotsNum(t) - res
    ensures t'.Empty? <==> DotsNum(t') == 0
    ensures res == 0 ==> t' == t
    ensures res == 1 && |t.dots| > 1 ==>
              exists i :: 0 <= i < |t.dots| && t.dots[i] == v && t' == Sparse(t.box, RemoveAt(t.dots, i))
  {
    var dots := t.dots;
    var i := Find(dots, v);
    if i == |dots| {
      assert v !in multiset(dots);
      return t, 0;
    }
    res := 1;
    var rest := RemoveAt(dots, i);
    if |rest| == 0 {
      t' := Empty;
    } else {
      t' := Sparse(t.box, rest);
      SparseRemoveValid(t, i, vs);
    }
  }

  /** What is left of a sparse leaf once one voxel is taken out is still a valid sparse leaf. */
  lemma SparseRemoveValid(t: Node, i: nat, vs: Dot)
    requires PositiveSize(vs) && t.Sparse? && Valid(t, vs) && 1 < |t.dots| && i < |t.dots|
    ensures Valid(Sparse(t.box, RemoveAt(t.dots, i)), vs)
  {
    NoDupWithin(RemoveAt(t.dots, i), t.dots);
  }

  /** The scan of a leaf's voxels for v: the first index holding it, or the length when none does. */
  method Find(s: seq<Dot>, v: Dot) returns (i: nat)
    ensures i <= |s|
    ensures i < |s| ==> s[i] == v
    ensures forall j :: 0 <= j < i ==> s[j] != v
  {
    i := 0;
    while i < |s| && s[i] != v
      invariant i <= |s|
      invariant forall j :: 0 <= j < i ==> s[j] != v
    {
      i := i + 1;
    }
  }

  /**
   * A dense leaf holding v is flattened into a fresh array, v is found and
   * closed over by the memmove, and the rest goes to vox_make_tree.
   */
  method DeleteDense(t: Node, v: Dot, vs: Dot) returns (t': Node)
    requires PositiveSize(vs) && t.Dense? && Valid(t, vs) && Aligned(v, vs) && VoxelInBox(t.box, v)
    ensures v in Flatten(t, vs)
    ensures Valid(t', vs)
    ensures multiset(Flatten(t', vs)) == multiset(Flatten(t, vs)) - multiset{v}
    ensures DotsNum(t') == DotsNum(t) - 1
    ensures t'.Empty? <==> DotsNum(t') == 0
  {
    ValidShape(t, vs);
    GridMember(t.box, vs, v);
    var a := Flattened(t, vs);
    var m := Remove(a, v, Flatten(t, vs));
    t' := MakeTree(a, 0, m, vs);
  }

  /**
   * The scan of the flattened voxels for v and the memmove over it: the first
   * m = n - 1 entries hold the voxels but v, in their order.
   */
  method Remove(a: array<Dot>, v: Dot, ghost s: seq<Dot>) returns (m: nat)
    requires a[..] == s && v in s && NoDup(s)
    modifies a
    ensures m == |s| - 1
    ensures multiset(a[0..m]) == multiset(s) - multiset{v}
    ensures NoDup(a[0..m]) && forall p :: p in a[0..m] ==> p in s
  {
    var i := Find(a[..], v);
    assert i < |s|;
    m := a.Length - 1;
    Close(a, i, s);
    assert a[0..m] == RemoveAt(s, i);
    NoDupWithin(RemoveAt(s, i), s);
  }

  /** A fresh array holding the voxels of a present node, as flatten_tree writes them. */
  method Flattened(t: Node, vs: Dot) returns (a: array<Dot>)
    requires PositiveSize(vs) && Valid(t, vs)
    ensures fresh(a) && a[..] == Flatten(t, vs) && a.Length == DotsNum(t)
  {
    ValidShape(t, vs);
    a := new Dot[DotsNum(t)];
    var count := FlattenTree(t, a, 0, vs);
    assert a[..] == a[0..count];
  }

  /** memmove (a + i, a + i + 1, n - i - 1): the first n - 1 entries lose entry i. */
  method Close(a: array<Dot>, i: nat, ghost s: seq<Dot>)
    requires a[..] == s && i < |s|
    modifies a
    ensures a[..|s| - 1] == RemoveAt(s, i)
  {
    var j := i;
    while j < a.Length - 1
      invariant i <= j <= a.Length - 1 && a.Length == |s|
      invariant forall k :: 0 <= k < i ==> a[k] == s[k]
      invariant forall k :: i <= k < j ==> a[k] == s[k + 1]
      invariant forall k :: j <= k < a.Length ==> a[k] == s[k]
    {
      a[j] := a[j + 1];
      j := j + 1;
    }
    assert forall k :: 0 <= k < |s| - 1 ==> a[k] == RemoveAt(s, i)[k];
  }

  /**
   * An inner node passes the deletion to the child of v's subspace; when the
   * child gave v up, the count drops, and a node left with none becomes absent.
   */
  method DeleteInner(t: Node, v: Dot, vs: Dot) returns (t': Node, res: int)
    requires PositiveSize(vs) && t.Inner? && Valid(t, vs) && Aligned(v, vs)
    ensures Valid(t', vs)
    ensures res == 0 || res == 1
    ensures res == 1 <==> v in Flatten(t, vs)
    ensures multiset(Flatten(t', vs)) == multiset(Flatten(t, vs)) - multiset{v}
    ensures DotsNum(t') == DotsNum(t) - res
    ensures t'.Empty? <==> DotsNum(t') == 0
    ensures res == 0 ==> t' == t
    ensures !t'.Empty? ==> t'.Inner? && t'.box == t.box && t'.center == t.center && |t'.children| == NS
    ensures !t'.Empty? ==> forall j :: 0 <= j < NS && j != SubspaceIdx(t.center, v) ==> t'.children[j] == t.children[j]
    ensures !t'.Empty? ==> var idx := SubspaceIdx(t.center, v);
              multiset(Flatten(t'.children[idx], vs)) == multiset(Flatten(t.children[idx], vs)) - multiset{v}
    decreases t, 0
  {
    var idx := SubspaceIdx(t.center, v);
    var child := t.children[idx];
    var child', r := DeleteAligned(child, v, vs);
    res := r;
    InnerLocate(t, vs, v);
    ValidShape(t, vs);
    if r == 0 {
      assert v !in multiset(Flatten(t, vs));
      return t, 0;
    }
    if t.count - 1 == 0 {
      t' := Empty;
      LastVoxel(Flatten(t, vs), v);
    } else {
      var cs := t.children[idx := child'];
      assert cs[idx] == child' && forall j :: 0 <= j < NS && j != idx ==> cs[j] == t.children[j];
      t' := Inner(t.box, t.count - 1, t.center, cs);
      DeleteInnerValid(t, v, child', vs);
    }
  }

  /** A one-voxel sequence holding v is v alone. */
  lemma LastVoxel(s: seq<Dot>, v: Dot)
    requires |s| == 1 && v in s
    ensures multiset(s) - multiset{v} == multiset{}
  {
    assert s == [v];
  }

  /** The invariant and the voxels of an inner node whose child gave v up. */
  lemma DeleteInnerValid(t: Node, v: Dot, c: Node, vs: Dot)
    requires PositiveSize(vs) && t.Inner? && Valid(t, vs) && t.count > 1
    requires Valid(c, vs)
    requires v in Flatten(t.children[SubspaceIdx(t.center, v)], vs)
    requires multiset(Flatten(c, vs)) == multiset(Flatten(t.children[SubspaceIdx(t.center, v)], vs)) - multiset{v}
    ensures var idx := SubspaceIdx(t.center, v);
            var t' := Inner(t.box, t.count - 1, t.center, t.children[idx := c]);
            Valid(t', vs) && multiset(Flatten(t', vs)) == multiset(Flatten(t, vs)) - multiset{v}
  {
    var idx := SubspaceIdx(t.center, v);
    var old_ := t.children[idx];
    ChildShrinks(t, idx, c, vs);
    assert v in multiset(Flatten(old_, vs));
    assert multiset(Flatten(old_, vs)) == multiset(Flatten(c, vs)) + multiset{v};
    assert |Flatten(c, vs)| == |Flatten(old_, vs)| - 1;
    ValidShape(t, vs);
    InnerReplace(t, idx, c, t.box, t.count - 1, vs);
    var t' := Inner(t.box, t.count - 1, t.center, t.children[idx := c]);
    CancelSub(multiset(Flatten(t', vs)), multiset(Flatten(old_, vs)), multiset(Flatten(t, vs)),
              multiset(Flatten(c, vs)), v);
  }

  /** A child whose voxels are among those of child idx keeps to subspace idx and to the box. */
  lemma ChildShrinks(t: Node, idx: nat, c: Node, vs: Dot)
    requires PositiveSize(vs) && t.Inner? && Valid(t, vs) && idx < NS
    requires multiset(Flatten(c, vs)) <= multiset(Flatten(t.children[idx], vs))
    ensures forall w :: w in Flatten(c, vs) ==> SubspaceIdx(t.center, w) == idx && VoxelWithin(t.box, w, vs)
  {
    ValidShape(t, vs);
    forall w | w in Flatten(c, vs) ensures SubspaceIdx(t.center, w) == idx && VoxelWithin(t.box, w, vs) {
      assert w in multiset(Flatten(c, vs));
      assert w in Flatten(t.children[idx], vs);
      FlattenKidsMember(t.children, NS, vs, w);
    }
  }

  /** a + b == c + d with b holding one v more than d leaves a == c - {v}. */
  lemma CancelSub(a: multiset<Dot>, b: multiset<Dot>, c: multiset<Dot>, d: multiset<Dot>, v: Dot)
    requires a + b == c + d && b == d + multiset{v}
    ensures a == c - multiset{v}
  {
    forall x ensures a[x] == (c - multiset{v})[x] {
      assert (a + b)[x] == (c + d)[x];
    }
  }

  /**
   * vox_delete_voxel: the point is first moved to the voxel that holds it
   * (vox_align_floor), which is then removed.
   */
  method DeleteVoxel(t: Node, p: RDot, vs: Dot) returns (t': Node, res: int)
    requires PositiveSize(vs) && Valid(t, vs)
    ensures Valid(t', vs)
    ensures res == 0 || res == 1
    ensures res == 1 <==> AlignFloor(p, vs) in Flatten(t, vs)
    ensures multiset(Flatten(t', vs)) == multiset(Flatten(t, vs)) - multiset{AlignFloor(p, vs)}
    ensures DotsNum(t') == DotsNum(t) - res
    ensures t'.Empty? <==> DotsNum(t') == 0
    ensures res == 0 ==> t' == t
  {
    var v := VoxAlignFloor(p, vs);
    t', res := DeleteAligned(t, v, vs);
  }
}
