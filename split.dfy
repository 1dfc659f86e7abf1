// What vox_make_tree computes before it splits a set of voxels: the bounding
// box (calc_bounding_box), the centroid (calc_avg) and its alignment to the
// grid (vox_align_ceil, and vox_align_floor used by insertion and deletion),
// together with the fact that makes the split always progress.

module VoxSplit {
  import opened VoxGeom
  import opened VoxSeqs
  import opened VoxGrid

  // ------------------------------------------------------- bounding box

  /** The least coordinate k of a non-empty sequence of dots. */
  function MinAt(s: seq<Dot>, k: nat): int
    requires |s| > 0 && k < N
    decreases |s|
  {
    if |s| == 1 then s[0].At(k)
    else
      var m := MinAt(s[..|s| - 1], k);
      if s[|s| - 1].At(k) < m then s[|s| - 1].At(k) else m
  }

  /** The greatest coordinate k of a non-empty sequence of dots. */
  function MaxAt(s: seq<Dot>, k: nat): int
    requires |s| > 0 && k < N
    decreases |s|
  {
    if |s| == 1 then s[0].At(k)
    else
      var m := MaxAt(s[..|s| - 1], k);
      if s[|s| - 1].At(k) > m then s[|s| - 1].At(k) else m
  }

  /** MinAt is a lower bound on axis k that some dot attains. */
  lemma {:induction false} MinAtBound(s: seq<Dot>, k: nat)
    requires |s| > 0 && k < N
    ensures forall p :: p in s ==> MinAt(s, k) <= p.At(k)
    ensures exists p :: p in s && p.At(k) == MinAt(s, k)
    decreases |s|
  {
    if |s| > 1 {
      var init := s[..|s| - 1];
      assert s == init + [s[|s| - 1]];
      MinAtBound(init, k);
      var p :| p in init && p.At(k) == MinAt(init, k);
      var w := if s[|s| - 1].At(k) < MinAt(init, k) then s[|s| - 1] else p;
      assert w in s && w.At(k) == MinAt(s, k);
      forall q | q in s ensures MinAt(s, k) <= q.At(k) {
        assert q in init || q == s[|s| - 1];
      }
    } else {
      assert s[0] in s;
    }
  }

  /** MaxAt is an upper bound on axis k that some dot attains. */
  lemma {:induction false} MaxAtBound(s: seq<Dot>, k: nat)
    requires |s| > 0 && k < N
    ensures forall p :: p in s ==> p.At(k) <= MaxAt(s, k)
    ensures exists p :: p in s && p.At(k) == MaxAt(s, k)
    decreases |s|
  {
    if |s| > 1 {
      var init := s[..|s| - 1];
      assert s == init + [s[|s| - 1]];
      MaxAtBound(init, k);
      var p :| p in init && p.At(k) == MaxAt(init, k);
      var w := if s[|s| - 1].At(k) > MaxAt(init, k) then s[|s| - 1] else p;
      assert w in s && w.At(k) == MaxAt(s, k);
      forall q | q in s ensures q.At(k) <= MaxAt(s, k) {
        assert q in init || q == s[|s| - 1];
      }
    } else {
      assert s[0] in s;
    }
  }

  /**
   * The box of a non-empty set of voxels: the least corner, and the greatest
   * corner plus one voxel size.
   */
  function BoxOf(s: seq<Dot>, vs: Dot): Box
    requires |s| > 0
  {
    Box(Dot(MinAt(s, 0), MinAt(s, 1), MinAt(s, 2)),
        Dot(MaxAt(s, 0) + vs.x, MaxAt(s, 1) + vs.y, MaxAt(s, 2) + vs.z))
  }

  /** The corners of BoxOf, axis by axis. */
  lemma BoxOfAt(s: seq<Dot>, vs: Dot, k: nat)
    requires |s| > 0 && k < N
    ensures BoxOf(s, vs).min.At(k) == MinAt(s, k)
    ensures BoxOf(s, vs).max.At(k) == MaxAt(s, k) + vs.At(k)
  {
  }

  /** The box holds every voxel of the set wholly. */
  lemma BoxOfWithin(s: seq<Dot>, vs: Dot)
    requires |s| > 0
    ensures forall p :: p in s ==> VoxelWithin(BoxOf(s, vs), p, vs)
  {
    MinAtBound(s, 0); MinAtBound(s, 1); MinAtBound(s, 2);
    MaxAtBound(s, 0); MaxAtBound(s, 1); MaxAtBound(s, 2);
    forall p | p in s ensures VoxelWithin(BoxOf(s, vs), p, vs) {
      assert MinAt(s, 0) <= p.x && MinAt(s, 1) <= p.y && MinAt(s, 2) <= p.z;
      assert p.x <= MaxAt(s, 0) && p.y <= MaxAt(s, 1) && p.z <= MaxAt(s, 2);
    }
  }

  /**
   * The box is tight: on axis k some voxel touches the minimal face and some
   * voxel the maximal one.
   */
  lemma BoxOfTight(s: seq<Dot>, vs: Dot, k: nat)
    requires |s| > 0 && k < N
    ensures exists p :: p in s && p.At(k) == BoxOf(s, vs).min.At(k)
    ensures exists p :: p in s && p.At(k) + vs.At(k) == BoxOf(s, vs).max.At(k)
  {
    BoxOfAt(s, vs, k);
    MinAtBound(s, k);
    MaxAtBound(s, k);
  }

  /** On each axis the box of aligned voxels has aligned faces one voxel or more apart. */
  lemma BoxOfGridAt(s: seq<Dot>, vs: Dot, k: nat)
    requires PositiveSize(vs) && |s| > 0 && k < N
    requires forall p :: p in s ==> Aligned(p, vs)
    ensures BoxOf(s, vs).min.At(k) % vs.At(k) == 0 && BoxOf(s, vs).max.At(k) % vs.At(k) == 0
    ensures BoxOf(s, vs).min.At(k) < BoxOf(s, vs).max.At(k)
  {
    BoxOfAt(s, vs, k);
    MinAtBound(s, k);
    MaxAtBound(s, k);
    var d, lo, hi := vs.At(k), MinAt(s, k), MaxAt(s, k);
    var p :| p in s && p.At(k) == lo;
    var q :| q in s && q.At(k) == hi;
    AlignedCoord(p, vs, k);
    AlignedCoord(q, vs, k);
    assert lo <= s[0].At(k) <= hi;
    NextAligned(hi, d);
  }

  lemma AlignedCoord(p: Dot, vs: Dot, k: nat)
    requires PositiveSize(vs) && Aligned(p, vs) && k < N
    ensures p.At(k) % vs.At(k) == 0
  {
  }

  lemma NextAligned(a: int, d: int)
    requires d > 0 && a % d == 0
    ensures (a + d) % d == 0
  {
    DivExact(a / d + 1, d);
    assert a + d == (a / d + 1) * d;
  }

  /** The box of aligned voxels is a grid box. */
  lemma BoxOfGrid(s: seq<Dot>, vs: Dot)
    requires PositiveSize(vs) && |s| > 0
    requires forall p :: p in s ==> Aligned(p, vs)
    ensures GridBox(BoxOf(s, vs), vs)
  {
    BoxOfGridAt(s, vs, 0);
    BoxOfGridAt(s, vs, 1);
    BoxOfGridAt(s, vs, 2);
  }

  /** How the extremes of a prefix change when one more dot is seen. */
  lemma ExtremesStep(before: seq<Dot>, after: seq<Dot>, x: Dot, k: nat)
    requires |before| > 0 && k < N
    requires after == before + [x] || (after == before == [x])
    ensures MinAt(before, k) <= MaxAt(before, k)
    ensures MinAt(after, k) == if x.At(k) < MinAt(before, k) then x.At(k) else MinAt(before, k)
    ensures MaxAt(after, k) == if x.At(k) > MaxAt(before, k) then x.At(k) else MaxAt(before, k)
  {
    MinAtBound(before, k);
    MaxAtBound(before, k);
    assert MinAt(before, k) <= before[0].At(k) <= MaxAt(before, k);
    if after != before {
      assert after[..|after| - 1] == before;
    }
  }

  /** The dots calc_bounding_box has taken into account after i steps. */
  function Seen(i: nat): nat {
    if i == 0 then 1 else i
  }

  /**
   * calc_bounding_box: one pass over the set, adjusting the minimum or else the
   * maximum on each axis, then the maximum moved up by one voxel size.
   */
  method CalcBoundingBox(a: array<Dot>, lo: nat, n: nat, vs: Dot) returns (box: Box)
    requires 0 < n && lo + n <= a.Length
    ensures box == BoxOf(a[lo..lo + n], vs)
  {
    ghost var s := a[lo..lo + n];
    var mn, mx := a[lo], a[lo];
    var i := 0;
    while i < n
      invariant 0 <= i <= n
      invariant forall k :: 0 <= k < N ==> mn.At(k) == MinAt(s[..Seen(i)], k) && mx.At(k) == MaxAt(s[..Seen(i)], k)
    {
      ghost var before, after := s[..Seen(i)], s[..i + 1];
      assert after == before + [s[i]] || after == before == [s[i]];
      var j := 0;
      while j < N
        invariant 0 <= j <= N
        invariant forall k :: 0 <= k < j ==> mn.At(k) == MinAt(after, k) && mx.At(k) == MaxAt(after, k)
        invariant forall k :: j <= k < N ==> mn.At(k) == MinAt(before, k) && mx.At(k) == MaxAt(before, k)
      {
        ExtremesStep(before, after, s[i], j);
        if a[lo + i].At(j) < mn.At(j) {
          mn := mn.With(j, a[lo + i].At(j));
        } else if a[lo + i].At(j) > mx.At(j) {
          mx := mx.With(j, a[lo + i].At(j));
        }
        j := j + 1;
      }
      i := i + 1;
    }
    box := Box(mn, SumVector(mx, vs));
    assert s[..Seen(n)] == s;
    assert mn.At(0) == MinAt(s, 0) && mn.At(1) == MinAt(s, 1) && mn.At(2) == MinAt(s, 2);
    assert mx.At(0) == MaxAt(s, 0) && mx.At(1) == MaxAt(s, 1) && mx.At(2) == MaxAt(s, 2);
  }

  // ----------------------------------------------------------- centroid

  /** Sum of coordinate k over a sequence of dots. */
  function SumAt(s: seq<Dot>, k: nat): int
    requires k < N
    decreases |s|
  {
    if |s| == 0 then 0 else SumAt(s[..|s| - 1], k) + s[|s| - 1].At(k)
  }

  /** The mean of a non-empty set of voxels, taken exactly. */
  function Centroid(s: seq<Dot>): RDot
    requires |s| > 0
  {
    var n := |s| as real;
    RDot(SumAt(s, 0) as real / n, SumAt(s, 1) as real / n, SumAt(s, 2) as real / n)
  }

  /** calc_avg: sum the voxels one by one, then divide every axis by n. */
  method CalcAvg(a: array<Dot>, lo: nat, n: nat) returns (res: RDot)
    requires 0 < n && lo + n <= a.Length
    ensures res == Centroid(a[lo..lo + n])
  {
    var sum := Dot(0, 0, 0);
    var i := 0;
    while i < n
      invariant 0 <= i <= n
      invariant forall k :: 0 <= k < N ==> sum.At(k) == SumAt(a[lo..lo + i], k)
    {
      assert a[lo..lo + i + 1][..i] == a[lo..lo + i];
      sum := SumVector(a[lo + i], sum);
      i := i + 1;
    }
    var m := n as real;
    res := RDot(sum.x as real / m, sum.y as real / m, sum.z as real / m);
    ghost var s := a[lo..lo + n];
    assert a[lo..lo + i] == s;
    assert sum.At(0) == SumAt(s, 0) && sum.At(1) == SumAt(s, 1) && sum.At(2) == SumAt(s, 2);
  }

  // ---------------------------------------------------------- alignment

  /** Least integer not below x. */
  function Ceil(x: real): (c: int)
    ensures (c - 1) as real < x <= c as real
  {
    -((-x).Floor)
  }

  /** a / d * d == a for a positive d. */
  lemma DivMul(a: real, d: real)
    requires d > 0.0
    ensures (a / d) * d == a
  {
  }

  /** Multiplying by a positive number keeps the order. */
  lemma MulMono(x: real, y: real, d: real)
    requires d > 0.0 && x <= y
    ensures x * d <= y * d
  {
  }

  lemma MulStrict(x: real, y: real, d: real)
    requires d > 0.0 && x < y
    ensures x * d < y * d
  {
  }

  /** One coordinate of vox_align_ceil: the least multiple of d not below a. */
  function CeilAlign(a: real, d: int): (c: int)
    requires d > 0
    ensures c % d == 0
    ensures (c - d) as real < a <= c as real
  {
    var q := Ceil(a / d as real);
    DivExact(q, d);
    ScaledBounds((q - 1) as real, a, q as real, d);
    CastMul(q - 1, d);
    CastMul(q, d);
    q * d
  }

  /** One coordinate of vox_align_floor: the greatest multiple of d not above a. */
  function FloorAlign(a: real, d: int): (c: int)
    requires d > 0
    ensures c % d == 0
    ensures c as real <= a < (c + d) as real
  {
    var q := (a / d as real).Floor;
    DivExact(q, d);
    ScaledBounds(q as real, a, (q + 1) as real, d);
    CastMul(q, d);
    CastMul(q + 1, d);
    q * d
  }

  /** Bounds on a / d scale to bounds on a. */
  lemma ScaledBounds(lo: real, a: real, hi: real, d: int)
    requires d > 0
    ensures lo < a / d as real ==> lo * d as real < a
    ensures lo <= a / d as real ==> lo * d as real <= a
    ensures a / d as real < hi ==> a < hi * d as real
    ensures a / d as real <= hi ==> a <= hi * d as real
  {
    var e := d as real;
    DivMul(a, e);
    if lo < a / e { MulStrict(lo, a / e, e); }
    if lo <= a / e { MulMono(lo, a / e, e); }
    if a / e < hi { MulStrict(a / e, hi, e); }
    if a / e <= hi { MulMono(a / e, hi, e); }
  }

  /** The real of a product of integers is the product of their reals. */
  lemma CastMul(q: int, d: int)
    ensures (q * d) as real == q as real * d as real
    ensures ((q + 1) * d) as real == (q * d + d) as real
  {
  }

  /** vox_align_ceil as a function: every coordinate rounded up to the grid. */
  function AlignCeil(p: RDot, vs: Dot): (c: Dot)
    requires PositiveSize(vs)
    ensures Aligned(c, vs)
    ensures forall k :: 0 <= k < N ==> (c.At(k) - vs.At(k)) as real < p.At(k) <= c.At(k) as real
  {
    Dot(CeilAlign(p.x, vs.x), CeilAlign(p.y, vs.y), CeilAlign(p.z, vs.z))
  }

  /**
   * vox_align_floor as a function: the voxel that holds the point, that is,
   * every coordinate rounded down to the grid.
   */
  function AlignFloor(p: RDot, vs: Dot): (c: Dot)
    requires PositiveSize(vs)
    ensures Aligned(c, vs)
    ensures forall k :: 0 <= k < N ==> c.At(k) as real <= p.At(k) < (c.At(k) + vs.At(k)) as real
  {
    Dot(FloorAlign(p.x, vs.x), FloorAlign(p.y, vs.y), FloorAlign(p.z, vs.z))
  }

  /** vox_align_ceil: the loop over the axes, each rounded up. */
  method VoxAlignCeil(p: RDot, vs: Dot) returns (c: Dot)
    requires PositiveSize(vs)
    ensures c == AlignCeil(p, vs)
  {
    c := Dot(0, 0, 0);
    for i := 0 to N
      invariant forall k :: 0 <= k < i ==> c.At(k) == CeilAlign(p.At(k), vs.At(k))
    {
      c := c.With(i, CeilAlign(p.At(i), vs.At(i)));
    }
    assert c.At(0) == CeilAlign(p.x, vs.x) && c.At(1) == CeilAlign(p.y, vs.y) && c.At(2) == CeilAlign(p.z, vs.z);
  }

  /** vox_align_floor: the loop over the axes, each rounded down. */
  method VoxAlignFloor(p: RDot, vs: Dot) returns (c: Dot)
    requires PositiveSize(vs)
    ensures c == AlignFloor(p, vs)
  {
    c := Dot(0, 0, 0);
    for i := 0 to N
      invariant forall k :: 0 <= k < i ==> c.At(k) == FloorAlign(p.At(k), vs.At(k))
    {
      c := c.With(i, FloorAlign(p.At(i), vs.At(i)));
    }
    assert c.At(0) == FloorAlign(p.x, vs.x) && c.At(1) == FloorAlign(p.y, vs.y) && c.At(2) == FloorAlign(p.z, vs.z);
  }

  /** The center of subdivision of an inner node: the centroid aligned up. */
  function Center(s: seq<Dot>, vs: Dot): Dot
    requires PositiveSize(vs) && |s| > 0
  {
    AlignCeil(Centroid(s), vs)
  }

  // ------------------------------------------------- the split progresses

  /** Every coordinate k bounded above by b means the sum is at most b * |s|. */
  lemma {:induction false} SumBelow(s: seq<Dot>, k: nat, b: int)
    requires k < N && forall p :: p in s ==> p.At(k) <= b
    ensures SumAt(s, k) <= b * |s|
    decreases |s|
  {
    if |s| > 0 {
      assert forall p :: p in s[..|s| - 1] ==> p in s;
      SumBelow(s[..|s| - 1], k, b);
      var n := |s| - 1;
      assert b * (n + 1) == b * n + b;
    }
  }

  /**
   * Every coordinate k bounded below by b means the sum is at least b * |s|,
   * with equality only when every coordinate k is b.
   */
  lemma {:induction false} SumAbove(s: seq<Dot>, k: nat, b: int)
    requires k < N && forall p :: p in s ==> p.At(k) >= b
    ensures SumAt(s, k) >= b * |s|
    ensures SumAt(s, k) == b * |s| ==> forall p :: p in s ==> p.At(k) == b
    decreases |s|
  {
    if |s| > 0 {
      var init, last := s[..|s| - 1], s[|s| - 1];
      assert forall p :: p in init ==> p in s;
      SumAbove(init, k, b);
      AddStep(SumAt(init, k), last.At(k), b, |init|);
      if SumAt(s, k) == b * |s| {
        forall p | p in s ensures p.At(k) == b {
          if p != last {
            assert s == init + [last];
            assert p in init;
          }
        }
      }
    }
  }

  /** Adding one more term of at least b to a sum of n terms of at least b. */
  lemma AddStep(sum: int, x: int, b: int, n: nat)
    requires sum >= b * n && x >= b
    ensures sum + x >= b * (n + 1)
    ensures sum + x == b * (n + 1) ==> sum == b * n && x == b
  {
    assert b * (n + 1) == b * n + b;
  }

  /** The real bounds on the mean, read back as integer bounds on the sum. */
  lemma MeanBounds(sum: int, n: int, lo: int, hi: int)
    requires n > 0
    requires lo as real < sum as real / n as real <= hi as real
    ensures lo * n < sum <= hi * n
  {
    DivMul(sum as real, n as real);
    MulStrict(lo as real, sum as real / n as real, n as real);
    MulMono(sum as real / n as real, hi as real, n as real);
  }

  /**
   * On one axis: if every voxel lies on the same side of the aligned-up mean,
   * every voxel lies exactly on it.
   */
  lemma AxisPinned(s: seq<Dot>, k: nat, c: int, d: int)
    requires k < N && d > 0 && |s| > 0 && c % d == 0
    requires forall p :: p in s ==> p.At(k) % d == 0
    requires (c - d) * |s| < SumAt(s, k) <= c * |s|
    requires (forall p :: p in s ==> p.At(k) >= c) || (forall p :: p in s ==> p.At(k) < c)
    ensures forall p :: p in s ==> p.At(k) == c
  {
    if forall p :: p in s ==> p.At(k) < c {
      forall p | p in s ensures p.At(k) <= c - d {
        AlignedStep(p.At(k), c, d);
      }
      SumBelow(s, k, c - d);
      assert false;
    } else {
      SumAbove(s, k, c);
    }
  }

  /**
   * The split of vox_make_tree always divides: around the aligned-up centroid
   * of two or more distinct aligned voxels, no subspace receives them all.
   * This is the assertion new_offset - offset != n.
   */
  lemma CenterSplits(s: seq<Dot>, vs: Dot, idx: int)
    requires PositiveSize(vs) && |s| > 1 && NoDup(s)
    requires forall p :: p in s ==> Aligned(p, vs)
    ensures exists p :: p in s && SubspaceIdx(Center(s, vs), p) != idx
  {
    var c := Center(s, vs);
    if forall p :: p in s ==> SubspaceIdx(c, p) == idx {
      forall k | 0 <= k < N ensures forall p :: p in s ==> p.At(k) == c.At(k) {
        var d := vs.At(k);
        MeanBounds(SumAt(s, k), |s|, c.At(k) - d, c.At(k));
        forall p | p in s ensures p.At(k) % d == 0 && (p.At(k) >= c.At(k) <==> s[0].At(k) >= c.At(k)) {
          SameSubspace(c, p, s[0]);
        }
        AxisPinned(s, k, c.At(k), d);
      }
      assert s[0] in s && s[1] in s;
      SameDot(s[0], c);
      SameDot(s[1], c);
      NoDupIndex(s, 0, 1);
      assert false;
    }
  }

  /** Dots that agree on every axis are equal. */
  lemma SameDot(p: Dot, q: Dot)
    requires forall k :: 0 <= k < N ==> p.At(k) == q.At(k)
    ensures p == q
  {
    assert p.At(0) == q.At(0) && p.At(1) == q.At(1) && p.At(2) == q.At(2);
  }
}
