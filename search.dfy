// Queries on the voxel octree: the nearest hit of a ray (recording the nodes
// it passes through, with an optional level of detail), the retry of that
// search from the nodes of an earlier path, and collision with a ball.
//
// The queries were written for the node layout without dense leaves: a leaf
// holds a list of voxels and an inner node eight children. Their contracts ask
// for that shape (Shaped).

module VoxSearch {
  import opened VoxGeom
  import opened VoxNode
  import opened VoxRay

  /**
   * Bounds on recursion (VOX_MAX_DEPTH, VOX_MAX_DEPTH_LOCAL). The header that
   * defines them is not part of this model; only their being positive matters.
   */
  const MaxDepth: nat := 20
  const MaxDepthLocal: nat := 10

  /** A tree in the layout the queries read: no dense leaves, eight children per inner node. */
  ghost predicate Shaped(t: Node)
    decreases t
  {
    match t
    case Empty => true
    case Sparse(_, _) => true
    case Dense(_, _) => false
    case Inner(_, _, _, cs) => |cs| == NS && forall i :: 0 <= i < |cs| ==> Shaped(cs[i])
  }

  /** Number of inner nodes on the longest path from t down. */
  function Height(t: Node): nat
    decreases t, 1
  {
    match t
    case Inner(_, _, _, cs) => 1 + KidsHeight(cs, |cs|)
    case _ => 0
  }

  /** The largest height among the first k children. */
  function KidsHeight(cs: seq<Node>, k: nat): (h: nat)
    requires k <= |cs|
    ensures forall i :: 0 <= i < k ==> Height(cs[i]) <= h
    decreases cs, 0, k
  {
    if k == 0 then 0
    else
      var h := KidsHeight(cs, k - 1);
      var c := Height(cs[k - 1]);
      if h < c then c else h
  }

  /** p lies in the box of some voxel of t. */
  ghost predicate HitsVoxel(t: Node, p: RDot, vs: Dot)
    requires PositiveSize(vs)
  {
    exists v :: v in Flatten(t, vs) && InRBox(VoxMin(v), VoxMax(v, vs), p)
  }

  /** A voxel box hit in a child is a voxel box hit in its parent. */
  lemma ChildHit(t: Node, i: nat, p: RDot, vs: Dot)
    requires PositiveSize(vs) && t.Inner? && i < |t.children|
    requires HitsVoxel(t.children[i], p, vs)
    ensures HitsVoxel(t, p, vs)
  {
    var v :| v in Flatten(t.children[i], vs) && InRBox(VoxMin(v), VoxMax(v, vs), p);
    FlattenKidsMember(t.children, |t.children|, vs, v);
  }

  /** The node box as a box of space. */
  function NodeHit(g: Geometry, t: Node, o: RDot, d: RDot): Option<RDot>
    requires !t.Empty?
  {
    g.hitBox(ToReal(t.box.min), ToReal(t.box.max), o, d)
  }

  /**
   * vox_ray_tree_intersection: the nearest voxel of t the ray from origin along
   * dir meets, searched from recursion depth depth. On success the result is
   * the depth of the leaf (or depth lod, where the search stops at the entry
   * point of the node box) and res the hit point; on failure the result is 0
   * and res is not written. path[depth - 1] records t and the deeper entries
   * the nodes visited below it.
   */
  method RayTreeIntersection(g: Geometry, t: Node, origin: RDot, dir: RDot, res0: RDot,
                             depth: nat, lod: nat, path: array<Node>, vs: Dot)
    returns (interp: nat, res: RDot)
    requires Sound(g) && PositiveSize(vs) && Shaped(t)
    requires 1 <= depth && depth + Height(t) < MaxDepth <= path.Length
    modifies path
    ensures path[depth - 1] == t
    ensures forall j :: 0 <= j < depth - 1 ==> path[j] == old(path[j])
    ensures interp == 0 || depth <= interp <= depth + Height(t)
    ensures interp == 0 ==> res == res0
    ensures interp != 0 ==> OnRay(origin, dir, res)
    ensures interp != 0 && interp != lod ==> HitsVoxel(t, res, vs)
    ensures t.Empty? ==> interp == 0
    ensures !t.Empty? && NodeHit(g, t, origin, dir).None? ==> interp == 0
    ensures !t.Empty? && NodeHit(g, t, origin, dir).Some? && depth == lod ==>
              interp == depth && res == NodeHit(g, t, origin, dir).value
    ensures t.Sparse? && depth != lod && NodeHit(g, t, origin, dir).Some? ==>
              var hits := Hits(g, t.dots, vs, origin, dir);
              (interp != 0 <==> |hits| > 0) && (interp != 0 ==> interp == depth && res == ClosestInSet(hits, origin))
    decreases t, 1
  {
    path[depth - 1] := t;
    if t.Empty? {
      return 0, res0;
    }
    var hit := NodeHit(g, t, origin, dir);
    if hit.None? {
      return 0, res0;
    }
    var inter := hit.value;
    HitBoxPoint(g, ToReal(t.box.min), ToReal(t.box.max), origin, dir);
    if depth == lod {
      return depth, inter;
    }
    if t.Sparse? {
      interp, res := LeafSearch(g, t, origin, dir, res0, depth, vs);
      return;
    }
    var pi, count := Crossings(g, t.box, t.center, inter, origin, dir);
    interp, res := SearchChildren(g, t, pi[..count], origin, dir, res0, depth, lod, path, vs);
  }

  /**
   * The loop of the inner case: search the child of each crossing's subspace
   * in turn, with the crossing as the new origin, and stop at the first success.
   */
  method SearchChildren(g: Geometry, t: Node, cross: seq<Tagged>, origin: RDot, dir: RDot, res0: RDot,
                        depth: nat, lod: nat, path: array<Node>, vs: Dot)
    returns (interp: nat, res: RDot)
    requires Sound(g) && PositiveSize(vs) && Shaped(t) && t.Inner?
    requires 1 <= depth && depth + Height(t) < MaxDepth <= path.Length
    requires forall j :: 0 <= j < |cross| ==> cross[j].tag < 8 && OnRay(origin, dir, cross[j].coord)
    modifies path
    ensures forall j :: 0 <= j < depth ==> path[j] == old(path[j])
    ensures interp == 0 || depth < interp <= depth + Height(t)
    ensures interp == 0 ==> res == res0
    ensures interp != 0 ==> OnRay(origin, dir, res)
    ensures interp != 0 && interp != lod ==> HitsVoxel(t, res, vs)
    decreases t, 0
  {
    var i := 0;
    while i < |cross|
      invariant 0 <= i <= |cross|
      invariant forall j :: 0 <= j < depth ==> path[j] == old(path[j])
    {
      var child := t.children[cross[i].tag as int];
      assert Height(child) < Height(t);
      interp, res := RayTreeIntersection(g, child, cross[i].coord, dir, res0, depth + 1, lod, path, vs);
      if interp != 0 {
        OnRayTrans(origin, dir, cross[i].coord, res);
        if interp != lod {
          ChildHit(t, cross[i].tag as int, res, vs);
        }
        return;
      }
      i := i + 1;
    }
    return 0, res0;
  }

  /** The leaf case: the nearest of the hit points of the leaf's voxel boxes. */
  method LeafSearch(g: Geometry, t: Node, origin: RDot, dir: RDot, res0: RDot, depth: nat, vs: Dot)
    returns (interp: nat, res: RDot)
    requires Sound(g) && PositiveSize(vs) && t.Sparse? && 1 <= depth
    ensures var hits := Hits(g, t.dots, vs, origin, dir);
            (interp != 0 <==> |hits| > 0) &&
            (interp != 0 ==> interp == depth && res == ClosestInSet(hits, origin)) &&
            (interp == 0 ==> res == res0)
    ensures interp != 0 ==> OnRay(origin, dir, res) && HitsVoxel(t, res, vs)
    ensures interp == 0 || interp == depth
  {
    var hits := LeafHits(g, t.dots, vs, origin, dir);
    if |hits| == 0 {
      return 0, res0;
    }
    res := ClosestInSet(hits, origin);
    HitsSound(g, t.dots, vs, origin, dir, res);
    return depth, res;
  }

  /**
   * vox_local_rays_tree_intersection: retry the search from the nodes of an
   * earlier path of length n, starting with path[n - depth] and moving one node
   * up at a time, for at most MaxDepthLocal levels. The result is the level d
   * whose search succeeded, or 0.
   */
  method LocalRays(g: Geometry, path: seq<Node>, origin: RDot, dir: RDot, res0: RDot,
                   depth: nat, n: nat, lod: nat, vs: Dot)
    returns (r: nat, res: RDot)
    requires Sound(g) && PositiveSize(vs) && 1 <= depth && n <= |path|
    requires forall j :: 0 <= j < n ==> Shaped(path[j]) && 1 + Height(path[j]) < MaxDepth
    ensures r == 0 || (depth <= r <= n && r <= MaxDepthLocal)
    ensures r == 0 ==> res == res0
    ensures r != 0 ==> OnRay(origin, dir, res)
    ensures r != 0 && lod == 0 ==> HitsVoxel(path[n - r], res, vs)
    ensures depth > n || depth > MaxDepthLocal ==> r == 0
    decreases n + 1 - depth
  {
    if depth <= n && depth <= MaxDepthLocal {
      var found;
      found, res := SearchFrom(g, path[n - depth], origin, dir, res0, lod, vs);
      if found {
        return depth, res;
      }
      r, res := LocalRays(g, path, origin, dir, res0, depth + 1, n, lod, vs);
    } else {
      return 0, res0;
    }
  }

  /** One try of LocalRays: a search from t at depth 1, recording the path in a scratch array. */
  method SearchFrom(g: Geometry, t: Node, origin: RDot, dir: RDot, res0: RDot, lod: nat, vs: Dot)
    returns (found: bool, res: RDot)
    requires Sound(g) && PositiveSize(vs) && Shaped(t) && 1 + Height(t) < MaxDepth
    ensures !found ==> res == res0
    ensures found ==> OnRay(origin, dir, res)
    ensures found && lod == 0 ==> HitsVoxel(t, res, vs)
    ensures t.Empty? ==> !found
  {
    var ignored := new Node[MaxDepth](_ => Empty);
    var interp;
    interp, res := RayTreeIntersection(g, t, origin, dir, res0, 1, lod, ignored, vs);
    found := interp != 0;
  }

  /** The box of voxel v meets the ball. */
  predicate VoxelMeetsBall(v: Dot, vs: Dot, c: RDot, r: real) {
    BoxBallMeets(VoxMin(v), VoxMax(v, vs), c, r)
  }

  /**
   * vox_tree_ball_collidep: prune a node whose box misses the ball; in a leaf
   * test each voxel box, in an inner node each child.
   */
  function BallCollide(t: Node, c: RDot, r: real, vs: Dot): (b: bool)
    requires PositiveSize(vs) && Shaped(t)
    ensures b ==> !t.Empty? && BoxBallMeets(ToReal(t.box.min), ToReal(t.box.max), c, r)
    decreases t, 1
  {
    match t
    case Empty => false
    case Dense(_, _) => false
    case Sparse(box, dots) =>
      BoxBallMeets(ToReal(box.min), ToReal(box.max), c, r) && LeafCollide(dots, |dots|, c, r, vs)
    case Inner(box, _, _, cs) =>
      BoxBallMeets(ToReal(box.min), ToReal(box.max), c, r) && KidsCollide(cs, |cs|, c, r, vs)
  }

  /** Some of the first k voxels of a leaf meets the ball. */
  function LeafCollide(dots: seq<Dot>, k: nat, c: RDot, r: real, vs: Dot): (b: bool)
    requires k <= |dots|
    ensures b <==> exists i :: 0 <= i < k && VoxelMeetsBall(dots[i], vs, c, r)
  {
    if k == 0 then false else LeafCollide(dots, k - 1, c, r, vs) || VoxelMeetsBall(dots[k - 1], vs, c, r)
  }

  /** Some of the first k children collides with the ball. */
  function KidsCollide(cs: seq<Node>, k: nat, c: RDot, r: real, vs: Dot): (b: bool)
    requires PositiveSize(vs) && k <= |cs| && forall i :: 0 <= i < |cs| ==> Shaped(cs[i])
    ensures b <==> exists i :: 0 <= i < k && BallCollide(cs[i], c, r, vs)
    decreases cs, 0, k
  {
    if k == 0 then false else KidsCollide(cs, k - 1, c, r, vs) || BallCollide(cs[k - 1], c, r, vs)
  }

  /** A collision is reported only for a voxel whose box meets the ball. */
  lemma {:induction false} BallCollideSound(t: Node, c: RDot, r: real, vs: Dot)
    requires PositiveSize(vs) && Shaped(t) && BallCollide(t, c, r, vs)
    ensures exists v :: v in Flatten(t, vs) && VoxelMeetsBall(v, vs, c, r)
    decreases t
  {
    match t
    case Sparse(_, dots) =>
      var i :| 0 <= i < |dots| && VoxelMeetsBall(dots[i], vs, c, r);
      assert dots[i] in Flatten(t, vs);
    case Inner(_, _, _, cs) =>
      var i :| 0 <= i < |cs| && BallCollide(cs[i], c, r, vs);
      BallCollideSound(cs[i], c, r, vs);
      var v :| v in Flatten(cs[i], vs) && VoxelMeetsBall(v, vs, c, r);
      FlattenKidsMember(cs, |cs|, vs, v);
  }

  /**
   * Pruning loses nothing: on a tree whose boxes hold their voxels, the ball
   * collides with the tree iff it meets the box of one of its voxels.
   */
  lemma {:induction false} BallCollideExact(t: Node, c: RDot, r: real, vs: Dot)
    requires PositiveSize(vs) && Valid(t, vs) && Shaped(t)
    ensures BallCollide(t, c, r, vs) <==> exists v :: v in Flatten(t, vs) && VoxelMeetsBall(v, vs, c, r)
    decreases t
  {
    if v :| v in Flatten(t, vs) && VoxelMeetsBall(v, vs, c, r) {
      assert VoxelWithin(t.box, v, vs);
      VoxelBoxWithin(t.box, v, vs);
      BoxBallGrow(VoxMin(v), VoxMax(v, vs), ToReal(t.box.min), ToReal(t.box.max), c, r);
      match t
      case Sparse(_, dots) =>
        var i :| 0 <= i < |dots| && dots[i] == v;
      case Inner(_, _, _, cs) =>
        FlattenKidsMember(cs, |cs|, vs, v);
        var i :| 0 <= i < |cs| && v in Flatten(cs[i], vs);
        BallCollideExact(cs[i], c, r, vs);
    }
    if BallCollide(t, c, r, vs) {
      BallCollideSound(t, c, r, vs);
    }
  }
}
