// flatten_tree, which writes the voxels of a tree into an array, and
// vox_rebuild_tree, which builds a fresh tree from them.

module VoxFlatten {
  import opened VoxGeom
  import opened VoxSeqs
  import opened VoxGrid
  import opened VoxNode
  import opened VoxSplit
  import opened VoxBuild

  /** The slice of s from start on holds u. */
  ghost predicate Placed(s: seq<Dot>, start: nat, u: seq<Dot>) {
    start + |u| <= |s| && s[start..start + |u|] == u
  }

  /** s and t agree outside [lo, hi). */
  ghost predicate Outside(s: seq<Dot>, t: seq<Dot>, lo: nat, hi: nat) {
    lo <= hi <= |s| == |t| && s[..lo] == t[..lo] && s[hi..] == t[hi..]
  }

  /** s is s0 with u written from start on. */
  ghost predicate Written(s: seq<Dot>, s0: seq<Dot>, start: nat, u: seq<Dot>) {
    Placed(s, start, u) && Outside(s, s0, start, start + |u|)
  }

  /**
   * flatten_tree: write the voxels of the tree into a from index start on, in
   * the order of Flatten, and return their number. Nothing else of a changes.
   */
  method FlattenTree(t: Node, a: array<Dot>, start: nat, vs: Dot) returns (count: nat)
    requires PositiveSize(vs) && Valid(t, vs)
    requires start + |Flatten(t, vs)| <= a.Length
    modifies a
    ensures count == |Flatten(t, vs)|
    ensures Written(a[..], old(a[..]), start, Flatten(t, vs))
    decreases t, 2
  {
    match t
    case Empty =>
      count := 0;
    case Sparse(_, dots) =>
      count := CopyDots(dots, a, start);
    case Dense(box, _) =>
      count := FlattenDense(box, a, start, vs);
    case Inner(_, _, _, cs) =>
      count := FlattenChildren(t, a, start, vs);
  }

  /** The loop of an inner node: its children one after another, in index order. */
  method FlattenChildren(t: Node, a: array<Dot>, start: nat, vs: Dot) returns (count: nat)
    requires PositiveSize(vs) && t.Inner? && |t.children| == NS
    requires forall i :: 0 <= i < NS ==> Valid(t.children[i], vs)
    requires start + |FlattenKids(t.children, NS, vs)| <= a.Length
    modifies a
    ensures count == |FlattenKids(t.children, NS, vs)|
    ensures Written(a[..], old(a[..]), start, FlattenKids(t.children, NS, vs))
    decreases t, 1
  {
    ghost var s0 := a[..];
    var cs := t.children;
    count := 0;
    for i := 0 to NS
      invariant count == |FlattenKids(cs, i, vs)|
      invariant Written(a[..], s0, start, FlattenKids(cs, i, vs))
    {
      count := FlattenKid(t, i, a, start, count, vs, s0);
    }
  }

  /** One turn of that loop: child i goes right after the voxels of children 0 to i - 1. */
  method FlattenKid(t: Node, i: nat, a: array<Dot>, start: nat, count: nat, vs: Dot, ghost s0: seq<Dot>)
    returns (count': nat)
    requires PositiveSize(vs) && t.Inner? && |t.children| == NS && i < NS
    requires forall j :: 0 <= j < NS ==> Valid(t.children[j], vs)
    requires start + |FlattenKids(t.children, NS, vs)| <= a.Length
    requires count == |FlattenKids(t.children, i, vs)|
    requires Written(a[..], s0, start, FlattenKids(t.children, i, vs))
    modifies a
    ensures count' == |FlattenKids(t.children, i + 1, vs)|
    ensures Written(a[..], s0, start, FlattenKids(t.children, i + 1, vs))
    decreases t, 0
  {
    var cs := t.children;
    KidsLength(cs, i + 1, NS, vs);
    ghost var before := a[..];
    var sub := FlattenTree(cs[i], a, start + count, vs);
    Extend(s0, before, a[..], start, FlattenKids(cs, i, vs), Flatten(cs[i], vs));
    count' := count + sub;
  }

  /**
   * Writing w right after u, when nothing else changes, leaves u + w in place,
   * and the part outside both stays as it was at the start.
   */
  lemma Extend(s0: seq<Dot>, before: seq<Dot>, after: seq<Dot>, start: nat, u: seq<Dot>, w: seq<Dot>)
    requires Written(before, s0, start, u) && Written(after, before, start + |u|, w)
    ensures Written(after, s0, start, u + w)
  {
    var mid := start + |u|;
    var hi := mid + |w|;
    assert after[start..hi] == after[start..mid] + after[mid..hi];
    assert after[start..mid] == after[..mid][start..] == before[..mid][start..] == before[start..mid];
    assert after[..start] == after[..mid][..start];
    assert before[..start] == before[..mid][..start];
    assert after[hi..] == before[hi..] == before[mid..][|w|..];
    assert s0[hi..] == s0[mid..][|w|..];
  }

  /** The memcpy of a sparse leaf's voxels. */
  method CopyDots(dots: seq<Dot>, a: array<Dot>, start: nat) returns (count: nat)
    requires start + |dots| <= a.Length
    modifies a
    ensures count == |dots|
    ensures Written(a[..], old(a[..]), start, dots)
  {
    ghost var s0 := a[..];
    for i := 0 to |dots|
      invariant Written(a[..], s0, start, dots[..i])
    {
      ghost var before := a[..];
      a[start + i] := dots[i];
      WriteOne(before, a[..], start + i, dots[i]);
      Extend(s0, before, a[..], start, dots[..i], [dots[i]]);
      assert dots[..i] + [dots[i]] == dots[..i + 1];
    }
    assert dots[..|dots|] == dots;
    count := |dots|;
  }

  /** Storing d at index j places [d] there and changes nothing else. */
  lemma WriteOne(before: seq<Dot>, after: seq<Dot>, j: nat, d: Dot)
    requires j < |before| && after == before[j := d]
    ensures Written(after, before, j, [d])
  {
    assert after[j..j + 1] == [d];
  }

  /**
   * The triple loop of a dense leaf: x outermost, z innermost, each coordinate
   * stepping by the voxel size from the box's minimal corner. The loop over x
   * is FlattenBlock, the one over y FlattenLayer and the one over z FlattenLine.
   */
  method FlattenDense(box: Box, a: array<Dot>, start: nat, vs: Dot) returns (count: nat)
    requires PositiveSize(vs) && GridBox(box, vs)
    requires start + |GridSeq(box, vs)| <= a.Length
    modifies a
    ensures count == |GridSeq(box, vs)|
    ensures Written(a[..], old(a[..]), start, GridSeq(box, vs))
  {
    DimNonNeg(box, vs);
    var nx, ny, nz := Dim(box, vs, 0), Dim(box, vs, 1), Dim(box, vs, 2);
    assert GridSeq(box, vs) == Block(box.min.x, vs.x, nx, box.min.y, vs.y, ny, box.min.z, vs.z, nz);
    count := FlattenBlock(box.min.x, nx, box.min.y, ny, box.min.z, nz, a, start, vs);
  }

  /** The loop over x: nx layers, each written by FlattenLayer. */
  method FlattenBlock(x0: int, nx: nat, y0: int, ny: nat, z0: int, nz: nat, a: array<Dot>, start: nat, vs: Dot)
    returns (count: nat)
    requires PositiveSize(vs)
    requires start + |Block(x0, vs.x, nx, y0, vs.y, ny, z0, vs.z, nz)| <= a.Length
    modifies a
    ensures count == |Block(x0, vs.x, nx, y0, vs.y, ny, z0, vs.z, nz)|
    ensures Written(a[..], old(a[..]), start, Block(x0, vs.x, nx, y0, vs.y, ny, z0, vs.z, nz))
  {
    ghost var s0 := a[..];
    count := 0;
    var cx := x0;
    for i := 0 to nx
      invariant cx == x0 + i * vs.x
      invariant count == |Block(x0, vs.x, i, y0, vs.y, ny, z0, vs.z, nz)|
      invariant Written(a[..], s0, start, Block(x0, vs.x, i, y0, vs.y, ny, z0, vs.z, nz))
    {
      count := LayerInto(x0, nx, i, cx, y0, ny, z0, nz, a, start, count, vs, s0);
      cx := cx + vs.x;
    }
  }

  /** One turn of the loop over x: the layer at cx goes right after the first i layers. */
  method LayerInto(x0: int, nx: nat, i: nat, cx: int, y0: int, ny: nat, z0: int, nz: nat,
                   a: array<Dot>, start: nat, count: nat, vs: Dot, ghost s0: seq<Dot>)
    returns (count': nat)
    requires PositiveSize(vs) && i < nx && cx == x0 + i * vs.x
    requires start + |Block(x0, vs.x, nx, y0, vs.y, ny, z0, vs.z, nz)| <= a.Length
    requires count == |Block(x0, vs.x, i, y0, vs.y, ny, z0, vs.z, nz)|
    requires Written(a[..], s0, start, Block(x0, vs.x, i, y0, vs.y, ny, z0, vs.z, nz))
    modifies a
    ensures cx + vs.x == x0 + (i + 1) * vs.x
    ensures count' == |Block(x0, vs.x, i + 1, y0, vs.y, ny, z0, vs.z, nz)|
    ensures Written(a[..], s0, start, Block(x0, vs.x, i + 1, y0, vs.y, ny, z0, vs.z, nz))
  {
    BlockStep(x0, vs.x, i, nx, cx, y0, vs.y, ny, z0, vs.z, nz);
    ghost var before := a[..];
    var sub := FlattenLayer(cx, y0, ny, z0, nz, a, start + count, vs);
    Extend(s0, before, a[..], start, Block(x0, vs.x, i, y0, vs.y, ny, z0, vs.z, nz),
           Layer(cx, y0, vs.y, ny, z0, vs.z, nz));
    count' := count + sub;
  }

  /** The loop over y at abscissa x: ny rows, each written by FlattenLine. */
  method FlattenLayer(x: int, y0: int, ny: nat, z0: int, nz: nat, a: array<Dot>, start: nat, vs: Dot)
    returns (count: nat)
    requires PositiveSize(vs)
    requires start + |Layer(x, y0, vs.y, ny, z0, vs.z, nz)| <= a.Length
    modifies a
    ensures count == |Layer(x, y0, vs.y, ny, z0, vs.z, nz)|
    ensures Written(a[..], old(a[..]), start, Layer(x, y0, vs.y, ny, z0, vs.z, nz))
  {
    ghost var s0 := a[..];
    count := 0;
    var cy := y0;
    for j := 0 to ny
      invariant cy == y0 + j * vs.y
      invariant count == |Layer(x, y0, vs.y, j, z0, vs.z, nz)|
      invariant Written(a[..], s0, start, Layer(x, y0, vs.y, j, z0, vs.z, nz))
    {
      ghost var done := Layer(x, y0, vs.y, j, z0, vs.z, nz);
      LayerStep(x, y0, vs.y, j, ny, cy, z0, vs.z, nz);
      ghost var before := a[..];
      var sub := FlattenLine(x, cy, z0, nz, a, start + count, vs);
      Extend(s0, before, a[..], start, done, Line(x, cy, z0, vs.z, nz));
      count := count + sub;
      cy := cy + vs.y;
    }
  }

  /** The innermost loop: nz voxels along z at (x, y). */
  method FlattenLine(x: int, y: int, z0: int, nz: nat, a: array<Dot>, start: nat, vs: Dot)
    returns (count: nat)
    requires PositiveSize(vs)
    requires start + nz <= a.Length
    modifies a
    ensures count == nz
    ensures Written(a[..], old(a[..]), start, Line(x, y, z0, vs.z, nz))
  {
    ghost var s0 := a[..];
    ghost var line := Line(x, y, z0, vs.z, nz);
    count := 0;
    var cz := z0;
    for k := 0 to nz
      invariant count == k && cz == z0 + k * vs.z
      invariant Written(a[..], s0, start, line[..k])
    {
      ghost var before := a[..];
      a[start + count] := Dot(x, y, cz);
      MulSucc(k, vs.z);
      WriteOne(before, a[..], start + k, line[k]);
      Extend(s0, before, a[..], start, line[..k], [line[k]]);
      assert line[..k] + [line[k]] == line[..k + 1];
      count := count + 1;
      cz := cz + vs.z;
    }
    assert line[..nz] == line;
  }

  /** One more layer of the block still fits in the whole block. */
  lemma BlockFits(x0: int, dx: int, i: nat, nx: nat, y0: int, dy: int, ny: nat, z0: int, dz: int, nz: nat)
    requires i < nx
    ensures |Block(x0, dx, i + 1, y0, dy, ny, z0, dz, nz)| <= |Block(x0, dx, nx, y0, dy, ny, z0, dz, nz)|
  {
    BlockLength(x0, dx, i + 1, y0, dy, ny, z0, dz, nz);
    BlockLength(x0, dx, nx, y0, dy, ny, z0, dz, nz);
    MulLe(i + 1, nx, ny * nz);
  }

  /** The layer at cx extends the first i layers by one, and still fits in the block. */
  lemma BlockStep(x0: int, dx: int, i: nat, nx: nat, cx: int, y0: int, dy: int, ny: nat, z0: int, dz: int, nz: nat)
    requires i < nx && cx == x0 + i * dx
    ensures Block(x0, dx, i + 1, y0, dy, ny, z0, dz, nz)
            == Block(x0, dx, i, y0, dy, ny, z0, dz, nz) + Layer(cx, y0, dy, ny, z0, dz, nz)
    ensures |Block(x0, dx, i + 1, y0, dy, ny, z0, dz, nz)| <= |Block(x0, dx, nx, y0, dy, ny, z0, dz, nz)|
    ensures cx + dx == x0 + (i + 1) * dx
  {
    BlockFits(x0, dx, i, nx, y0, dy, ny, z0, dz, nz);
    MulSucc(i, dx);
  }

  /** The row at cy extends the first j rows by one, and still fits in the layer. */
  lemma LayerStep(x: int, y0: int, dy: int, j: nat, ny: nat, cy: int, z0: int, dz: int, nz: nat)
    requires j < ny && cy == y0 + j * dy
    ensures Layer(x, y0, dy, j + 1, z0, dz, nz) == Layer(x, y0, dy, j, z0, dz, nz) + Line(x, cy, z0, dz, nz)
    ensures |Layer(x, y0, dy, j + 1, z0, dz, nz)| <= |Layer(x, y0, dy, ny, z0, dz, nz)|
    ensures cy + dy == y0 + (j + 1) * dy
  {
    LayerFits(x, y0, dy, j, ny, z0, dz, nz);
    MulSucc(j, dy);
  }

  /** One more row of the layer still fits in the whole layer. */
  lemma LayerFits(x: int, y0: int, dy: int, j: nat, ny: nat, z0: int, dz: int, nz: nat)
    requires j < ny
    ensures |Layer(x, y0, dy, j + 1, z0, dz, nz)| <= |Layer(x, y0, dy, ny, z0, dz, nz)|
  {
    LayerLength(x, y0, dy, j + 1, z0, dz, nz);
    LayerLength(x, y0, dy, ny, z0, dz, nz);
    MulLe(j + 1, ny, nz);
  }

  lemma MulSucc(i: int, d: int)
    ensures (i + 1) * d == i * d + d
  {
  }

  /** a * d <= b * d for a <= b and d >= 0. */
  lemma MulLe(a: int, b: int, d: int)
    requires a <= b && d >= 0
    ensures a * d <= b * d
  {
    assert b * d - a * d == (b - a) * d;
  }

  /** The first i children hold at most as many voxels as the first k, for i <= k. */
  lemma {:induction false} KidsLength(cs: seq<Node>, i: nat, k: nat, vs: Dot)
    requires PositiveSize(vs) && i <= k <= |cs|
    ensures |FlattenKids(cs, i, vs)| <= |FlattenKids(cs, k, vs)|
    decreases k
  {
    if i < k {
      KidsLength(cs, i, k - 1, vs);
    }
  }

  /**
   * vox_rebuild_tree: flatten the tree into a fresh array of dots_num entries
   * (flatten_tree writes exactly that many) and build a new tree from them. The
   * new tree holds the same voxels, and is the tree vox_make_tree builds for
   * them.
   */
  method RebuildTree(t: Node, vs: Dot) returns (r: Node)
    requires PositiveSize(vs) && Valid(t, vs)
    ensures Valid(r, vs) && DotsNum(r) == DotsNum(t)
    ensures multiset(Flatten(r, vs)) == multiset(Flatten(t, vs))
    ensures r.Empty? <==> t.Empty?
    ensures !t.Empty? ==> |Flatten(t, vs)| > 0 && r.box == BoxOf(Flatten(t, vs), vs)
  {
    if t.Empty? {
      return Empty;
    }
    ValidShape(t, vs);
    var n := DotsNum(t);
    var a := new Dot[n];
    var num := FlattenTree(t, a, 0, vs);
    assert a[0..n] == Flatten(t, vs);
    r := MakeTree(a, 0, n, vs);
  }
}
