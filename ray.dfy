// Geometry of the queries: points along a ray, the two metrics, the documented
// contracts of the ray and ball primitives, and the pieces of ray traversal
// that both search variants share (the leaf scan, the plane crossings, their
// ordering and the conversion of crossings into subspace indices).

module VoxRay {
  import opened VoxGeom
  import opened VoxSeqs

  datatype Option<T> = None | Some(value: T)

  // ------------------------------------------------------------------ rays

  /** The point reached from o after s steps of direction d. */
  function Along(o: RDot, d: RDot, s: real): RDot {
    RDot(o.x + s * d.x, o.y + s * d.y, o.z + s * d.z)
  }

  /** p lies on the ray that starts at o and goes along d. */
  ghost predicate OnRay(o: RDot, d: RDot, p: RDot) {
    exists s :: 0.0 <= s && Along(o, d, s) == p
  }

  lemma AlongAdd(o: RDot, d: RDot, s: real, u: real)
    ensures Along(Along(o, d, s), d, u) == Along(o, d, s + u)
  {
    assert (s + u) * d.x == s * d.x + u * d.x;
    assert (s + u) * d.y == s * d.y + u * d.y;
    assert (s + u) * d.z == s * d.z + u * d.z;
  }

  /** A ray restarted at one of its points stays on the original ray. */
  lemma OnRayTrans(o: RDot, d: RDot, p: RDot, q: RDot)
    requires OnRay(o, d, p) && OnRay(p, d, q)
    ensures OnRay(o, d, q)
  {
    var s :| 0.0 <= s && Along(o, d, s) == p;
    var u :| 0.0 <= u && Along(p, d, u) == q;
    AlongAdd(o, d, s, u);
  }

  // ----------------------------------------------------------------- boxes

  /** The closed box [mn, mx] holds p. */
  predicate InRBox(mn: RDot, mx: RDot, p: RDot) {
    mn.x <= p.x <= mx.x && mn.y <= p.y <= mx.y && mn.z <= p.z <= mx.z
  }

  /** dot_betweenp: p lies strictly inside the box (mn, mx). */
  predicate Between(mn: RDot, mx: RDot, p: RDot) {
    mn.x < p.x < mx.x && mn.y < p.y < mx.y && mn.z < p.z < mx.z
  }

  /** The box [a, b] lies inside the box [mn, mx]. */
  predicate RBoxWithin(a: RDot, b: RDot, mn: RDot, mx: RDot) {
    mn.x <= a.x && b.x <= mx.x && mn.y <= a.y && b.y <= mx.y && mn.z <= a.z && b.z <= mx.z
  }

  /** A box that is not empty on any axis. */
  predicate RBoxProper(mn: RDot, mx: RDot) {
    mn.x <= mx.x && mn.y <= mx.y && mn.z <= mx.z
  }

  /** Lower and upper corner of the box of voxel v. */
  function VoxMin(v: Dot): RDot {
    ToReal(v)
  }

  function VoxMax(v: Dot, vs: Dot): RDot {
    ToReal(SumVector(v, vs))
  }

  /** A voxel lying wholly inside a node box has its real box inside the node's. */
  lemma VoxelBoxWithin(box: Box, v: Dot, vs: Dot)
    requires VoxelWithin(box, v, vs)
    ensures RBoxWithin(VoxMin(v), VoxMax(v, vs), ToReal(box.min), ToReal(box.max))
  {
  }

  // --------------------------------------------------------------- metrics

  function Abs(a: real): (r: real)
    ensures 0.0 <= r && (r == 0.0 <==> a == 0.0)
  {
    if a < 0.0 then -a else a
  }

  /** vox_abs_metric (calc_abs_metric): sum of absolute coordinate differences. */
  function AbsMetric(a: RDot, b: RDot): (m: real)
    ensures 0.0 <= m
    ensures m == 0.0 <==> a == b
  {
    Abs(a.x - b.x) + Abs(a.y - b.y) + Abs(a.z - b.z)
  }

  lemma AbsMetricSymmetric(a: RDot, b: RDot)
    ensures AbsMetric(a, b) == AbsMetric(b, a)
  {
  }

  lemma AbsMetricTriangle(a: RDot, b: RDot, c: RDot)
    ensures AbsMetric(a, c) <= AbsMetric(a, b) + AbsMetric(b, c)
  {
  }

  function Sq(a: real): real {
    a * a
  }

  lemma SqPositive(a: real)
    ensures 0.0 <= Sq(a)
    ensures a != 0.0 ==> 0.0 < Sq(a)
  {
    if a < 0.0 {
      calc {
        Sq(a);
        (-a) * (-a);
        > { MulPos(-a, -a); }
        0.0;
      }
    } else if a > 0.0 {
      calc {
        Sq(a);
        a * a;
        > { MulPos(a, a); }
        0.0;
      }
    }
  }

  lemma MulPos(a: real, b: real)
    requires 0.0 < a && 0.0 < b
    ensures 0.0 < a * b
  {
  }

  lemma SqNeg(a: real)
    ensures Sq(-a) == Sq(a)
  {
    calc {
      Sq(-a);
      (-a) * (-a);
      a * a;
    }
  }

  /** The square grows with the absolute value. */
  lemma SqMono(a: real, b: real)
    requires Abs(a) <= Abs(b)
    ensures Sq(a) <= Sq(b)
  {
    var u, w := Abs(a), Abs(b);
    if a < 0.0 {
      SqNeg(a);
    }
    if b < 0.0 {
      SqNeg(b);
    }
    calc {
      Sq(u);
      u * u;
      <= { MulLeft(u, u, w); }
      u * w;
      <= { MulRight(u, w, w); }
      w * w;
      Sq(w);
    }
  }

  lemma MulLeft(c: real, x: real, y: real)
    requires 0.0 <= c && x <= y
    ensures c * x <= c * y
  {
  }

  lemma MulRight(x: real, y: real, c: real)
    requires 0.0 <= c && x <= y
    ensures x * c <= y * c
  {
  }

  /** vox_sqr_metric: the square of the Euclidean distance. */
  function SqrMetric(a: RDot, b: RDot): (m: real)
    ensures 0.0 <= m
    ensures m == 0.0 <==> a == b
  {
    SqPositive(a.x - b.x);
    SqPositive(a.y - b.y);
    SqPositive(a.z - b.z);
    Sq(a.x - b.x) + Sq(a.y - b.y) + Sq(a.z - b.z)
  }

  lemma SqrMetricSymmetric(a: RDot, b: RDot)
    ensures SqrMetric(a, b) == SqrMetric(b, a)
  {
    SqNeg(a.x - b.x);
    SqNeg(a.y - b.y);
    SqNeg(a.z - b.z);
    assert b.x - a.x == -(a.x - b.x) && b.y - a.y == -(a.y - b.y) && b.z - a.z == -(a.z - b.z);
  }

  // ------------------------------------------------------ ray primitives

  /**
   * The ray primitives whose bodies lie outside this model, as parameters:
   * hitBox(mn, mx, origin, dir) is hit_box on the box [mn, mx], and
   * hitPlane(origin, dir, planedot, k) is hit_plane on the plane through
   * planedot perpendicular to axis k.
   */
  datatype Geometry = Geometry(
    hitBox: (RDot, RDot, RDot, RDot) -> Option<RDot>,
    hitPlane: (RDot, RDot, RDot, nat) -> Option<RDot>)

  /**
   * hit_box succeeds iff the ray meets the closed box, and then yields a point
   * of the ray inside the box.
   */
  ghost predicate HitBoxContract(g: Geometry) {
    forall mn, mx, o, d ::
      && (g.hitBox(mn, mx, o, d).Some? ==>
            OnRay(o, d, g.hitBox(mn, mx, o, d).value) && InRBox(mn, mx, g.hitBox(mn, mx, o, d).value))
      && (g.hitBox(mn, mx, o, d).None? ==>
            forall s :: 0.0 <= s ==> !InRBox(mn, mx, Along(o, d, s)))
  }

  /** hit_plane succeeds only with a point of the ray lying on the plane. */
  ghost predicate HitPlaneContract(g: Geometry) {
    forall o, d, c, k: nat :: k < N && g.hitPlane(o, d, c, k).Some? ==>
      OnRay(o, d, g.hitPlane(o, d, c, k).value) && g.hitPlane(o, d, c, k).value.At(k) == c.At(k)
  }

  ghost predicate Sound(g: Geometry) {
    HitBoxContract(g) && HitPlaneContract(g)
  }

  /** The point hit_box yields: on the ray and inside the box. */
  lemma HitBoxPoint(g: Geometry, mn: RDot, mx: RDot, o: RDot, d: RDot)
    requires Sound(g) && g.hitBox(mn, mx, o, d).Some?
    ensures OnRay(o, d, g.hitBox(mn, mx, o, d).value)
    ensures InRBox(mn, mx, g.hitBox(mn, mx, o, d).value)
  {
  }

  /**
   * A ray that meets a box meets every box around it; read backwards, the
   * early return on a missed node box loses no voxel of the node.
   */
  lemma MissPrunes(g: Geometry, a: RDot, b: RDot, mn: RDot, mx: RDot, o: RDot, d: RDot)
    requires Sound(g) && RBoxWithin(a, b, mn, mx)
    requires g.hitBox(a, b, o, d).Some?
    ensures g.hitBox(mn, mx, o, d).Some?
  {
    var p := g.hitBox(a, b, o, d).value;
    assert OnRay(o, d, p) && InRBox(a, b, p);
    var s :| 0.0 <= s && Along(o, d, s) == p;
    assert InRBox(mn, mx, Along(o, d, s));
  }

  /**
   * hit_plane_within_box: the crossing of the ray with the plane, kept only
   * when it lies within the box [mn, mx].
   */
  function HitPlaneWithinBox(g: Geometry, o: RDot, d: RDot, c: RDot, k: nat, mn: RDot, mx: RDot)
    : (r: Option<RDot>)
    requires Sound(g) && k < N
    ensures r.Some? ==> OnRay(o, d, r.value) && r.value.At(k) == c.At(k) && InRBox(mn, mx, r.value)
    ensures r.None? ==> g.hitPlane(o, d, c, k).None? || !InRBox(mn, mx, g.hitPlane(o, d, c, k).value)
  {
    var h := g.hitPlane(o, d, c, k);
    if h.Some? && InRBox(mn, mx, h.value) then h else None
  }

  // ---------------------------------------------------------- ball primitive

  function Clamp(lo: real, hi: real, a: real): real {
    if a < lo then lo else if a > hi then hi else a
  }

  /** The point of the box [mn, mx] nearest to c. */
  function NearestInBox(mn: RDot, mx: RDot, c: RDot): RDot {
    RDot(Clamp(mn.x, mx.x, c.x), Clamp(mn.y, mx.y, c.y), Clamp(mn.z, mx.z, c.z))
  }

  /**
   * box_ball_interp: the point of the box nearest to the center lies within the
   * radius.
   */
  predicate BoxBallMeets(mn: RDot, mx: RDot, c: RDot, r: real) {
    0.0 <= r && SqrMetric(NearestInBox(mn, mx, c), c) <= r * r
  }

  /** The solid ball of center c and radius r holds q. */
  predicate InBall(c: RDot, r: real, q: RDot) {
    0.0 <= r && SqrMetric(q, c) <= r * r
  }

  /** Clamping to [lo, hi] moves a no farther from a than any point of [lo, hi]. */
  lemma ClampNearest(lo: real, hi: real, a: real, b: real)
    requires lo <= b <= hi
    ensures Sq(Clamp(lo, hi, a) - a) <= Sq(b - a)
  {
    SqMono(Clamp(lo, hi, a) - a, b - a);
  }

  /** box_ball_interp holds iff the solid box and the solid ball overlap. */
  lemma BoxBallOverlap(mn: RDot, mx: RDot, c: RDot, r: real)
    requires RBoxProper(mn, mx)
    ensures BoxBallMeets(mn, mx, c, r) <==> exists q :: InRBox(mn, mx, q) && InBall(c, r, q)
  {
    var n := NearestInBox(mn, mx, c);
    assert InRBox(mn, mx, n);
    if q :| InRBox(mn, mx, q) && InBall(c, r, q) {
      ClampNearest(mn.x, mx.x, c.x, q.x);
      ClampNearest(mn.y, mx.y, c.y, q.y);
      ClampNearest(mn.z, mx.z, c.z, q.z);
      assert SqrMetric(n, c) <= SqrMetric(q, c);
    }
  }

  /** A ball meeting a box meets every box that contains it. */
  lemma BoxBallGrow(a: RDot, b: RDot, mn: RDot, mx: RDot, c: RDot, r: real)
    requires RBoxProper(a, b) && RBoxWithin(a, b, mn, mx)
    requires BoxBallMeets(a, b, c, r)
    ensures BoxBallMeets(mn, mx, c, r)
  {
    BoxBallOverlap(a, b, c, r);
    var q :| InRBox(a, b, q) && InBall(c, r, q);
    assert InRBox(mn, mx, q);
    BoxBallOverlap(mn, mx, c, r);
  }

  // ------------------------------------------------------------ leaf scan

  /**
   * The position closest_in_set settles on: of the points of s nearest to o by
   * the abs metric, the first.
   */
  function ClosestIndex(s: seq<RDot>, o: RDot): (i: nat)
    requires |s| > 0
    ensures i < |s|
    ensures forall j :: 0 <= j < |s| ==> AbsMetric(o, s[i]) <= AbsMetric(o, s[j])
    ensures forall j :: 0 <= j < i ==> AbsMetric(o, s[i]) < AbsMetric(o, s[j])
  {
    if |s| == 1 then 0
    else
      var i := ClosestIndex(s[..|s| - 1], o);
      assert s[..|s| - 1][i] == s[i];
      assert forall j :: 0 <= j < |s| - 1 ==> s[..|s| - 1][j] == s[j];
      if AbsMetric(o, s[|s| - 1]) < AbsMetric(o, s[i]) then |s| - 1 else i
  }

  /** closest_in_set with the abs metric: a point of s no farther from o than any other. */
  function ClosestInSet(s: seq<RDot>, o: RDot): (p: RDot)
    requires |s| > 0
    ensures p in s
    ensures forall q :: q in s ==> AbsMetric(o, p) <= AbsMetric(o, q)
  {
    s[ClosestIndex(s, o)]
  }

  /** hit_box on the box of voxel v. */
  function VoxelHit(g: Geometry, v: Dot, vs: Dot, o: RDot, d: RDot): Option<RDot> {
    g.hitBox(VoxMin(v), VoxMax(v, vs), o, d)
  }

  /** The hit points of the voxel boxes the ray meets, in the order of dots. */
  function Hits(g: Geometry, dots: seq<Dot>, vs: Dot, o: RDot, d: RDot): seq<RDot> {
    if |dots| == 0 then []
    else
      var h := VoxelHit(g, dots[|dots| - 1], vs, o, d);
      Hits(g, dots[..|dots| - 1], vs, o, d) + if h.Some? then [h.value] else []
  }

  /** The loop of the leaf case: collect the hit points of the leaf's voxels. */
  method LeafHits(g: Geometry, dots: seq<Dot>, vs: Dot, o: RDot, d: RDot) returns (hits: seq<RDot>)
    ensures hits == Hits(g, dots, vs, o, d)
  {
    hits := [];
    for i := 0 to |dots|
      invariant hits == Hits(g, dots[..i], vs, o, d)
    {
      assert dots[..i + 1][..i] == dots[..i];
      var h := VoxelHit(g, dots[i], vs, o, d);
      if h.Some? {
        hits := hits + [h.value];
      }
    }
    assert dots[..|dots|] == dots;
  }

  /** Every collected hit is a point of the ray inside the box of a voxel of the leaf. */
  lemma {:induction false} HitsSound(g: Geometry, dots: seq<Dot>, vs: Dot, o: RDot, d: RDot, p: RDot)
    requires Sound(g) && p in Hits(g, dots, vs, o, d)
    ensures OnRay(o, d, p)
    ensures exists v :: v in dots && InRBox(VoxMin(v), VoxMax(v, vs), p)
    decreases |dots|
  {
    var last := dots[|dots| - 1];
    var h := VoxelHit(g, last, vs, o, d);
    if p in Hits(g, dots[..|dots| - 1], vs, o, d) {
      HitsSound(g, dots[..|dots| - 1], vs, o, d, p);
      var v :| v in dots[..|dots| - 1] && InRBox(VoxMin(v), VoxMax(v, vs), p);
      assert v in dots;
    } else {
      assert h.Some? && p == h.value;
      HitBoxPoint(g, VoxMin(last), VoxMax(last, vs), o, d);
      assert last in dots;
    }
  }

  /** No hit is collected iff the ray misses the box of every voxel of the leaf. */
  lemma {:induction false} HitsEmpty(g: Geometry, dots: seq<Dot>, vs: Dot, o: RDot, d: RDot)
    ensures |Hits(g, dots, vs, o, d)| == 0 <==> forall v :: v in dots ==> VoxelHit(g, v, vs, o, d).None?
    decreases |dots|
  {
    if |dots| > 0 {
      var init := dots[..|dots| - 1];
      HitsEmpty(g, init, vs, o, d);
      assert dots == init + [dots[|dots| - 1]];
      assert forall v :: v in dots <==> v in init || v == dots[|dots| - 1];
    }
  }

  // ----------------------------------------------------------- crossings

  /** A tagged_coord: a plane number or subspace index, and a point. */
  datatype Tagged = Tagged(tag: bv32, coord: RDot)

  function Tags(s: seq<Tagged>): (r: seq<bv32>)
    ensures |r| == |s| && forall i :: 0 <= i < |s| ==> r[i] == s[i].tag
  {
    seq(|s|, i requires 0 <= i < |s| => s[i].tag)
  }

  /**
   * What gen_subspaces makes of a tag sequence: the first tag is kept, and each
   * later plane number k becomes the previous index with bit k flipped.
   * Shifting by 32 or more is undefined in C, hence the bound.
   */
  function Subspaces(s: seq<bv32>): (r: seq<bv32>)
    requires forall i :: 1 <= i < |s| ==> s[i] < 32
    ensures |r| == |s|
    ensures |s| > 0 ==> r[0] == s[0]
  {
    if |s| <= 1 then s
    else
      var p := Subspaces(s[..|s| - 1]);
      p + [Flip(s[|s| - 1], p[|p| - 1])]
  }

  /** The subspace index reached from prev by crossing plane k: bit k flipped. */
  function Flip(k: bv32, prev: bv32): bv32
    requires k < 32
  {
    (1 << k) ^ prev
  }

  /** Extending the tag sequence extends the index sequence by one step. */
  lemma SubspacesSnoc(s: seq<bv32>, i: nat)
    requires 1 <= i < |s| && forall j :: 1 <= j < |s| ==> s[j] < 32
    ensures Subspaces(s[..i + 1]) == Subspaces(s[..i]) + [Flip(s[i], Subspaces(s[..i])[i - 1])]
  {
    assert s[..i + 1][..i] == s[..i];
  }

  /** Index i of the result depends only on the first i + 1 tags. */
  lemma {:induction false} SubspacesPrefix(s: seq<bv32>, i: nat)
    requires i < |s| && forall j :: 1 <= j < |s| ==> s[j] < 32
    ensures Subspaces(s)[..i + 1] == Subspaces(s[..i + 1])
    decreases |s|
  {
    if i + 1 < |s| {
      var init := s[..|s| - 1];
      SubspacesPrefix(init, i);
      assert init[..i + 1] == s[..i + 1];
      assert Subspaces(s)[..|s| - 1] == Subspaces(init);
    } else {
      assert s[..i + 1] == s;
    }
  }

  /** Each later index is the previous one with the bit of its plane flipped. */
  lemma SubspacesStep(s: seq<bv32>, i: nat)
    requires 1 <= i < |s| && forall j :: 1 <= j < |s| ==> s[j] < 32
    ensures Subspaces(s)[i] == Flip(s[i], Subspaces(s)[i - 1])
  {
    SubspacesPrefix(s, i);
    SubspacesPrefix(s, i - 1);
    SubspacesSnoc(s, i);
    var r := Subspaces(s);
    assert r[..i + 1][i] == r[i] && r[..i][i - 1] == r[i - 1];
  }

  /** A word with exactly one of the three low bits set. */
  predicate OneBit(x: bv32) {
    x == 1 || x == 2 || x == 4
  }

  /** Crossing one of the N planes keeps a subspace index below 8 and flips one of its bits. */
  lemma FlipSmall(k: bv32, prev: bv32)
    requires k < 3 && prev < 8
    ensures Flip(k, prev) < 8 && OneBit(Flip(k, prev) ^ prev)
  {
  }

  /**
   * Starting from a subspace index below 8, plane numbers below N give
   * subspace indices below 8, each differing from the previous one in exactly
   * one bit.
   */
  lemma {:induction false} SubspacesRange(s: seq<bv32>)
    requires |s| > 0 && s[0] < 8 && forall j :: 1 <= j < |s| ==> s[j] < 3
    ensures forall i :: 0 <= i < |s| ==> Subspaces(s)[i] < 8
    ensures forall i :: 1 <= i < |s| ==> OneBit(Subspaces(s)[i] ^ Subspaces(s)[i - 1])
    decreases |s|
  {
    if |s| > 1 {
      var init := s[..|s| - 1];
      SubspacesRange(init);
      var r := Subspaces(s);
      assert r[..|s| - 1] == Subspaces(init);
      forall i | 1 <= i < |s|
        ensures r[i] < 8 && OneBit(r[i] ^ r[i - 1])
      {
        if i < |s| - 1 {
          assert r[i] == Subspaces(init)[i] && r[i - 1] == Subspaces(init)[i - 1];
        } else {
          assert r[i - 1] == Subspaces(init)[i - 1];
          SubspacesStep(s, i);
          FlipSmall(s[i], r[i - 1]);
        }
      }
    }
  }

  /** gen_subspaces: turn plane numbers 1..n-1 into subspace indices, in place. */
  method GenSubspaces(a: array<Tagged>, n: nat)
    requires n <= a.Length
    requires forall i :: 1 <= i < n ==> a[i].tag < 32
    modifies a
    ensures Tags(a[..n]) == Subspaces(old(Tags(a[..n])))
    ensures forall i :: 0 <= i < a.Length ==> a[i].coord == old(a[i].coord)
    ensures forall i :: n <= i < a.Length ==> a[i] == old(a[i])
  {
    ghost var s0 := a[..];
    if n == 0 {
      return;
    }
    var i := 1;
    assert Tags(s0[..n])[..1] == Tags(a[..1]);
    while i < n
      invariant 1 <= i <= n
      invariant Chained(a[..], s0, n, i)
    {
      ghost var s := a[..];
      a[i] := a[i].(tag := Flip(a[i].tag, a[i - 1].tag));
      ChainStep(s, a[..], s0, n, i);
      i := i + 1;
    }
    assert Tags(s0[..n])[..n] == Tags(s0[..n]);
  }

  /**
   * The state of gen_subspaces after i steps: positions before i hold the
   * subspace indices, the rest is as it was, and no point has moved.
   */
  ghost predicate Chained(s: seq<Tagged>, s0: seq<Tagged>, n: nat, i: nat)
    requires 1 <= i <= n <= |s0|
  {
    && |s| == |s0|
    && (forall j :: 1 <= j < n ==> s0[j].tag < 32)
    && Tags(s[..i]) == Subspaces(Tags(s0[..n])[..i])
    && (forall j :: i <= j < |s| ==> s[j] == s0[j])
    && (forall j :: 0 <= j < |s| ==> s[j].coord == s0[j].coord)
  }

  lemma ChainStep(s: seq<Tagged>, t: seq<Tagged>, s0: seq<Tagged>, n: nat, i: nat)
    requires 1 <= i < n <= |s0| && Chained(s, s0, n, i)
    requires t == s[i := s[i].(tag := Flip(s[i].tag, s[i - 1].tag))]
    ensures Chained(t, s0, n, i + 1)
  {
    var u := Tags(s0[..n]);
    SubspacesSnoc(u, i);
    assert u[..i + 1][..i] == u[..i];
    assert Tags(t[..i + 1]) == Tags(s[..i]) + [t[i].tag];
  }

  /**
   * compare_tagged as written: the float difference of the two distances,
   * converted to int, which truncates toward zero.
   */
  function CompareTaggedAsWritten(o: RDot, c1: Tagged, c2: Tagged): (r: int)
    ensures r > 0 ==> AbsMetric(o, c1.coord) > AbsMetric(o, c2.coord)
    ensures r < 0 ==> AbsMetric(o, c1.coord) < AbsMetric(o, c2.coord)
  {
    Trunc(AbsMetric(o, c1.coord) - AbsMetric(o, c2.coord))
  }

  /** C's conversion of a floating value to int: truncation toward zero. */
  function Trunc(x: real): (r: int)
    ensures 0.0 <= x ==> r as real <= x < r as real + 1.0
    ensures x < 0.0 ==> r as real - 1.0 < x <= r as real
  {
    if 0.0 <= x then x.Floor else -((-x).Floor)
  }

  /**
   * The comparison qsort_r is meant to sort by: negative, zero or positive as
   * c1 is nearer to, as near as, or farther from o than c2.
   */
  function CompareTagged(o: RDot, c1: Tagged, c2: Tagged): (r: int)
    ensures r < 0 <==> AbsMetric(o, c1.coord) < AbsMetric(o, c2.coord)
    ensures r == 0 <==> AbsMetric(o, c1.coord) == AbsMetric(o, c2.coord)
    ensures r > 0 <==> AbsMetric(o, c1.coord) > AbsMetric(o, c2.coord)
  {
    var diff := AbsMetric(o, c1.coord) - AbsMetric(o, c2.coord);
    if diff < 0.0 then -1 else if diff > 0.0 then 1 else 0
  }

  /** The corrected comparison is antisymmetric, as qsort_r needs. */
  lemma CompareTaggedAntisymmetric(o: RDot, c1: Tagged, c2: Tagged)
    ensures CompareTagged(o, c1, c2) == -CompareTagged(o, c2, c1)
  {
  }

  lemma SubspacesOf3(a: bv32, b: bv32, c: bv32)
    requires b < 32 && c < 32
    ensures Subspaces([a, b, c]) == [a, Flip(b, a), Flip(c, Flip(b, a))]
  {
    assert [a, b, c][..2] == [a, b];
    assert [a, b][..1] == [a];
  }

  /** The nearest of a list of crossings comes first. */
  ghost predicate SortedByDistance(a: seq<Tagged>, o: RDot) {
    forall i, j :: 0 <= i < j < |a| ==> AbsMetric(o, a[i].coord) <= AbsMetric(o, a[j].coord)
  }

  /**
   * qsort_r over a[lo..hi) with the corrected comparison, written as an
   * insertion sort: the slice is permuted into order of distance from o.
   */
  method SortCrossings(a: array<Tagged>, lo: nat, hi: nat, o: RDot)
    requires lo <= hi <= a.Length
    modifies a
    ensures multiset(a[..]) == multiset(old(a[..]))
    ensures forall j :: 0 <= j < a.Length && !(lo <= j < hi) ==> a[j] == old(a[j])
    ensures SortedByDistance(a[lo..hi], o)
  {
    if hi - lo < 2 {
      return;
    }
    ghost var s0 := a[..];
    var i := lo + 1;
    while i < hi
      invariant lo < i <= hi
      invariant SortedRun(a[..], s0, lo, i - 1, o)
    {
      InsertOne(a, lo, i, hi, o, s0);
      i := i + 1;
    }
    SortedRunSlice(a[..], s0, lo, hi, o);
  }

  /**
   * s is a permutation of s0 that differs from it only in [lo, i], and
   * s[lo..i] is in order of distance from o.
   */
  ghost predicate SortedRun(s: seq<Tagged>, s0: seq<Tagged>, lo: nat, i: nat, o: RDot) {
    && lo <= i < |s| == |s0|
    && multiset(s) == multiset(s0)
    && (forall m :: 0 <= m < |s| && !(lo <= m <= i) ==> s[m] == s0[m])
    && (forall p, q :: lo <= p < q <= i ==> AbsMetric(o, s[p].coord) <= AbsMetric(o, s[q].coord))
  }

  /** A run that reaches hi - 1 is the sorted slice the contract of SortCrossings asks for. */
  lemma SortedRunSlice(s: seq<Tagged>, s0: seq<Tagged>, lo: nat, hi: nat, o: RDot)
    requires lo < hi && SortedRun(s, s0, lo, hi - 1, o)
    ensures multiset(s) == multiset(s0)
    ensures forall j :: 0 <= j < |s| && !(lo <= j < hi) ==> s[j] == s0[j]
    ensures SortedByDistance(s[lo..hi], o)
  {
  }

  /**
   * One step of the insertion sort: sink a[i] into the sorted run a[lo..i);
   * the run then reaches i, and a is still a permutation of s0 changed only
   * in [lo, i].
   */
  method InsertOne(a: array<Tagged>, lo: nat, i: nat, hi: nat, o: RDot, ghost s0: seq<Tagged>)
    requires lo < i < hi <= a.Length
    requires SortedRun(a[..], s0, lo, i - 1, o)
    modifies a
    ensures SortedRun(a[..], s0, lo, i, o)
  {
    SinkStart(a[..], s0, lo, i, o);
    Sink(a, s0, lo, i, i, o);
  }

  /**
   * The inner loop of the insertion, one comparison per call: while a[j - 1]
   * is farther than a[j], swap them and go on from j - 1.
   */
  method Sink(a: array<Tagged>, ghost s0: seq<Tagged>, lo: nat, i: nat, j: nat, o: RDot)
    requires Sinking(a[..], s0, lo, i, j, o)
    modifies a
    ensures SortedRun(a[..], s0, lo, i, o)
    decreases j
  {
    if j > lo && CompareTagged(o, a[j - 1], a[j]) > 0 {
      SwapDown(a, s0, lo, i, j, o);
      Sink(a, s0, lo, i, j - 1, o);
    } else {
      SinkEnd(a[..], s0, lo, i, j, o);
    }
  }

  /**
   * The state of InsertOne: s is a permutation of s0 that differs from it
   * only in [lo, i], and s[lo..i] is in order but for the element at j,
   * which is no farther than those after it.
   */
  ghost predicate Sinking(s: seq<Tagged>, s0: seq<Tagged>, lo: nat, i: nat, j: nat, o: RDot) {
    && lo <= j <= i < |s| == |s0|
    && multiset(s) == multiset(s0)
    && (forall m :: 0 <= m < |s| && !(lo <= m <= i) ==> s[m] == s0[m])
    && SortedBut(s, lo, i, j, o) && BelowRest(s, i, j, o)
  }

  lemma SinkStart(s: seq<Tagged>, s0: seq<Tagged>, lo: nat, i: nat, o: RDot)
    requires lo < i < |s| && SortedRun(s, s0, lo, i - 1, o)
    ensures Sinking(s, s0, lo, i, i, o)
  {
  }

  lemma SinkMove(s: seq<Tagged>, t: seq<Tagged>, s0: seq<Tagged>, lo: nat, i: nat, j: nat, o: RDot)
    requires Sinking(s, s0, lo, i, j, o) && lo < j && t == s[j - 1 := s[j]][j := s[j - 1]]
    requires AbsMetric(o, s[j - 1].coord) > AbsMetric(o, s[j].coord)
    ensures Sinking(t, s0, lo, i, j - 1, o)
  {
    SinkStep(s, t, lo, i, j, o);
  }

  lemma SinkEnd(s: seq<Tagged>, s0: seq<Tagged>, lo: nat, i: nat, j: nat, o: RDot)
    requires Sinking(s, s0, lo, i, j, o)
    requires j == lo || AbsMetric(o, s[j - 1].coord) <= AbsMetric(o, s[j].coord)
    ensures SortedRun(s, s0, lo, i, o)
  {
    SinkDone(s, lo, i, j, o);
  }

  /** Swap a[j - 1] and a[j]: the farther one moves up and the gap one place down. */
  method SwapDown(a: array<Tagged>, ghost s0: seq<Tagged>, lo: nat, i: nat, j: nat, o: RDot)
    requires Sinking(a[..], s0, lo, i, j, o) && lo < j
    requires AbsMetric(o, a[j - 1].coord) > AbsMetric(o, a[j].coord)
    modifies a
    ensures Sinking(a[..], s0, lo, i, j - 1, o)
  {
    ghost var s := a[..];
    a[j - 1], a[j] := a[j], a[j - 1];
    assert a[..] == s[j - 1 := s[j]][j := s[j - 1]];
    SinkMove(s, a[..], s0, lo, i, j, o);
  }

  /** The run s[lo..i] is in order of distance, except possibly at position j. */
  ghost predicate SortedBut(s: seq<Tagged>, lo: nat, i: nat, j: nat, o: RDot)
    requires i < |s|
  {
    forall p, q :: lo <= p < q <= i && p != j && q != j ==> AbsMetric(o, s[p].coord) <= AbsMetric(o, s[q].coord)
  }

  /** The element at j is no farther than any after it, up to i. */
  ghost predicate BelowRest(s: seq<Tagged>, i: nat, j: nat, o: RDot)
    requires j <= i < |s|
  {
    forall q :: j < q <= i ==> AbsMetric(o, s[j].coord) <= AbsMetric(o, s[q].coord)
  }

  /** Swapping a farther s[j - 1] past s[j] moves the gap one place down. */
  lemma SinkStep(s: seq<Tagged>, t: seq<Tagged>, lo: nat, i: nat, j: nat, o: RDot)
    requires lo < j <= i < |s| && t == s[j - 1 := s[j]][j := s[j - 1]]
    requires AbsMetric(o, s[j - 1].coord) > AbsMetric(o, s[j].coord)
    requires SortedBut(s, lo, i, j, o) && BelowRest(s, i, j, o)
    ensures SortedBut(t, lo, i, j - 1, o) && BelowRest(t, i, j - 1, o)
    ensures multiset(t) == multiset(s)
  {
    assert t == s[j - 1 := s[j]][j := s[j - 1]];
    forall p, q | lo <= p < q <= i && p != j - 1 && q != j - 1
      ensures AbsMetric(o, t[p].coord) <= AbsMetric(o, t[q].coord)
    {
      if q == j {
        assert t[q] == s[j - 1] && t[p] == s[p];
      } else if p == j {
        assert t[p] == s[j - 1] && t[q] == s[q];
      } else {
        assert t[p] == s[p] && t[q] == s[q];
      }
    }
  }

  /** When the gap has reached lo or an element no farther, the run is sorted. */
  lemma SinkDone(s: seq<Tagged>, lo: nat, i: nat, j: nat, o: RDot)
    requires lo <= j <= i < |s|
    requires SortedBut(s, lo, i, j, o) && BelowRest(s, i, j, o)
    requires j == lo || AbsMetric(o, s[j - 1].coord) <= AbsMetric(o, s[j].coord)
    ensures forall p, q :: lo <= p < q <= i ==> AbsMetric(o, s[p].coord) <= AbsMetric(o, s[q].coord)
  {
    forall p, q | lo <= p < q <= i
      ensures AbsMetric(o, s[p].coord) <= AbsMetric(o, s[q].coord)
    {
      if q == j && p < j - 1 {
        assert AbsMetric(o, s[p].coord) <= AbsMetric(o, s[j - 1].coord);
      }
    }
  }

  /**
   * The crossings of an inner node, as vox_ray_tree_intersection lays them out
   * in plane_inter: the entry point tagged with its subspace, then the crossings
   * of the three center planes that lie strictly inside the node box, sorted by
   * distance from the origin; finally the tags are turned into subspace
   * indices.
   */
  method Crossings(g: Geometry, box: Box, center: Dot, inter: RDot, o: RDot, d: RDot)
    returns (pi: array<Tagged>, count: nat)
    requires Sound(g) && OnRay(o, d, inter)
    ensures fresh(pi) && pi.Length == N + 1 && 1 <= count <= N + 1
    ensures pi[0] == Tagged(RSubspaceIdx(ToReal(center), inter) as bv32, inter)
    ensures forall i :: 0 <= i < count ==> pi[i].tag < 8 && OnRay(o, d, pi[i].coord)
    ensures forall i :: 1 <= i < count ==> OneBit(pi[i].tag ^ pi[i - 1].tag)
    ensures forall i :: 1 <= i < count ==> Between(ToReal(box.min), ToReal(box.max), pi[i].coord)
    ensures SortedByDistance(pi[1..count], o)
  {
    var planes, n := PlaneCrossings(g, box, center, inter, o, d);
    pi := planes;
    count := n;
    ghost var before := pi[..];
    SortCrossings(pi, 1, count, o);
    SortedKeeps(before, pi[..], count, o, d, ToReal(box.min), ToReal(box.max));
    assert pi[1..count] == pi[..][1..count];
    Chain(pi, count, o, d, ToReal(box.min), ToReal(box.max));
  }

  /** gen_subspaces on the ordered crossings, with what it establishes. */
  method Chain(pi: array<Tagged>, count: nat, o: RDot, d: RDot, mn: RDot, mx: RDot)
    requires 1 <= count <= pi.Length
    requires pi[0].tag < 8 && OnRay(o, d, pi[0].coord)
    requires forall i :: 1 <= i < count ==> Crossing(pi[i], o, d, mn, mx)
    requires SortedByDistance(pi[1..count], o)
    modifies pi
    ensures pi[0] == old(pi[0])
    ensures forall i :: 0 <= i < count ==> pi[i].tag < 8 && OnRay(o, d, pi[i].coord)
    ensures forall i :: 1 <= i < count ==> OneBit(pi[i].tag ^ pi[i - 1].tag)
    ensures forall i :: 1 <= i < count ==> Between(mn, mx, pi[i].coord)
    ensures SortedByDistance(pi[1..count], o)
  {
    ghost var sorted := pi[..];
    assert sorted[1..count] == pi[1..count];
    GenSubspaces(pi, count);
    ChainFacts(sorted, pi[..], count, o, d, mn, mx);
    assert pi[1..count] == pi[..][1..count];
  }

  /**
   * After gen_subspaces the chain of crossings keeps its points, and its tags are
   * subspace indices below 8, one bit apart.
   */
  lemma ChainFacts(s: seq<Tagged>, r: seq<Tagged>, count: nat, o: RDot, d: RDot, mn: RDot, mx: RDot)
    requires 1 <= count <= |s| == |r|
    requires s[0].tag < 8 && OnRay(o, d, s[0].coord)
    requires forall i :: 1 <= i < count ==> Crossing(s[i], o, d, mn, mx)
    requires SortedByDistance(s[1..count], o)
    requires forall i :: 1 <= i < count ==> s[i].tag < 32
    requires Tags(r[..count]) == Subspaces(Tags(s[..count]))
    requires forall i :: 0 <= i < |s| ==> r[i].coord == s[i].coord
    ensures forall i :: 0 <= i < count ==> r[i].tag < 8 && OnRay(o, d, r[i].coord)
    ensures forall i :: 1 <= i < count ==> OneBit(r[i].tag ^ r[i - 1].tag)
    ensures forall i :: 1 <= i < count ==> Between(mn, mx, r[i].coord)
    ensures SortedByDistance(r[1..count], o)
  {
    ChainTags(s, r, count);
    ChainCoords(s, r, count, o, d, mn, mx);
  }

  /** The tags of the chain are subspace indices, one bit apart. */
  lemma ChainTags(s: seq<Tagged>, r: seq<Tagged>, count: nat)
    requires 1 <= count <= |s| == |r|
    requires s[0].tag < 8 && forall i :: 1 <= i < count ==> s[i].tag < 3
    requires Tags(r[..count]) == Subspaces(Tags(s[..count]))
    ensures forall i :: 0 <= i < count ==> r[i].tag < 8
    ensures forall i :: 1 <= i < count ==> OneBit(r[i].tag ^ r[i - 1].tag)
  {
    var t := Tags(s[..count]);
    var u := Subspaces(t);
    SubspacesRange(t);
    forall i | 0 <= i < count
      ensures r[i].tag == u[i]
    {
      assert Tags(r[..count])[i] == r[i].tag;
    }
  }

  /** The coordinates are untouched, so what held of them still holds. */
  lemma ChainCoords(s: seq<Tagged>, r: seq<Tagged>, count: nat, o: RDot, d: RDot, mn: RDot, mx: RDot)
    requires 1 <= count <= |s| == |r|
    requires OnRay(o, d, s[0].coord)
    requires forall i :: 1 <= i < count ==> Crossing(s[i], o, d, mn, mx)
    requires SortedByDistance(s[1..count], o)
    requires forall i :: 0 <= i < |s| ==> r[i].coord == s[i].coord
    ensures forall i :: 0 <= i < count ==> OnRay(o, d, r[i].coord)
    ensures forall i :: 1 <= i < count ==> Between(mn, mx, r[i].coord)
    ensures SortedByDistance(r[1..count], o)
  {
    assert forall i :: 1 <= i < count ==> s[1..count][i - 1] == s[i] && r[1..count][i - 1] == r[i];
  }

  /** The crossings of one node before ordering: the entry point, then the in-box plane crossings. */
  method PlaneCrossings(g: Geometry, box: Box, center: Dot, inter: RDot, o: RDot, d: RDot)
    returns (pi: array<Tagged>, count: nat)
    requires Sound(g) && OnRay(o, d, inter)
    ensures fresh(pi) && pi.Length == N + 1 && 1 <= count <= N + 1
    ensures pi[0] == Tagged(RSubspaceIdx(ToReal(center), inter) as bv32, inter)
    ensures forall i :: 1 <= i < count ==> Crossing(pi[i], o, d, ToReal(box.min), ToReal(box.max))
  {
    pi := new Tagged[N + 1](_ => Tagged(0, inter));
    pi[0] := Tagged(RSubspaceIdx(ToReal(center), inter) as bv32, inter);
    count := 1;
    for k := 0 to N
      invariant 1 <= count <= k + 1
      invariant pi[0] == Tagged(RSubspaceIdx(ToReal(center), inter) as bv32, inter)
      invariant forall i :: 1 <= i < count ==> Crossing(pi[i], o, d, ToReal(box.min), ToReal(box.max))
    {
      var h := g.hitPlane(o, d, ToReal(center), k);
      if h.Some? && Between(ToReal(box.min), ToReal(box.max), h.value) {
        pi[count] := Tagged(k as bv32, h.value);
        count := count + 1;
      }
    }
  }

  /** A plane crossing kept by the inner case: a plane number, a point of the ray strictly inside the box. */
  ghost predicate Crossing(c: Tagged, o: RDot, d: RDot, mn: RDot, mx: RDot) {
    c.tag < 3 && OnRay(o, d, c.coord) && Between(mn, mx, c.coord)
  }

  /** Sorting the crossings after the entry point keeps every crossing a crossing. */
  lemma SortedKeeps(before: seq<Tagged>, after: seq<Tagged>, count: nat, o: RDot, d: RDot, mn: RDot, mx: RDot)
    requires 1 <= count <= |before| == |after|
    requires multiset(after) == multiset(before)
    requires forall j :: 0 <= j < |before| && !(1 <= j < count) ==> after[j] == before[j]
    requires forall i :: 1 <= i < count ==> Crossing(before[i], o, d, mn, mx)
    ensures after[0] == before[0]
    ensures forall i :: 1 <= i < count ==> Crossing(after[i], o, d, mn, mx)
  {
    SliceFrame(after, before, 1, count);
    forall i | 1 <= i < count
      ensures Crossing(after[i], o, d, mn, mx)
    {
      assert after[i] in multiset(after[1..count]);
      assert after[i] in multiset(before[1..count]);
      var j :| 1 <= j < count && before[j] == after[i];
    }
  }
}
