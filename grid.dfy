// The voxels of a dense leaf: every grid step inside its box, enumerated in
// the order of the triple loop that flattens a dense leaf (x outermost, z innermost).

module VoxGrid {
  import opened VoxGeom
  import opened VoxSeqs

  /** Row of nz voxels along z at (x, y). */
  function Line(x: int, y: int, z0: int, dz: int, nz: nat): (r: seq<Dot>)
    ensures |r| == nz
  {
    seq(nz, k => Dot(x, y, z0 + k * dz))
  }

  /** ny rows stacked along y at abscissa x. */
  function Layer(x: int, y0: int, dy: int, ny: nat, z0: int, dz: int, nz: nat): seq<Dot>
    decreases ny
  {
    if ny == 0 then [] else Layer(x, y0, dy, ny - 1, z0, dz, nz) + Line(x, y0 + (ny - 1) * dy, z0, dz, nz)
  }

  /** nx layers stacked along x. */
  function Block(x0: int, dx: int, nx: nat, y0: int, dy: int, ny: nat, z0: int, dz: int, nz: nat): seq<Dot>
    decreases nx
  {
    if nx == 0 then []
    else Block(x0, dx, nx - 1, y0, dy, ny, z0, dz, nz) + Layer(x0 + (nx - 1) * dx, y0, dy, ny, z0, dz, nz)
  }

  /** The voxels of a grid box, in flattening order. */
  function GridSeq(box: Box, vs: Dot): seq<Dot>
    requires PositiveSize(vs) && GridBox(box, vs)
  {
    DimNonNeg(box, vs);
    Block(box.min.x, vs.x, Dim(box, vs, 0), box.min.y, vs.y, Dim(box, vs, 1),
          box.min.z, vs.z, Dim(box, vs, 2))
  }

  // ------------------------------------------------------------ arithmetic

  lemma DimNonNeg(box: Box, vs: Dot)
    requires PositiveSize(vs) && GridBox(box, vs)
    ensures Dim(box, vs, 0) >= 1 && Dim(box, vs, 1) >= 1 && Dim(box, vs, 2) >= 1
  {
    forall k | 0 <= k < N ensures Dim(box, vs, k) >= 1 {
      AlignedAt(box.min, vs, k);
      AlignedAt(box.max, vs, k);
      StepsBetween(box.min.At(k), box.max.At(k), vs.At(k));
    }
  }

  /** Two distinct multiples of d are at least one step of d apart. */
  lemma StepsBetween(lo: int, hi: int, d: int)
    requires d > 0 && lo < hi && lo == (lo / d) * d && hi == (hi / d) * d
    ensures (hi - lo) / d >= 1
  {
    var a, b := lo / d, hi / d;
    MulLess(a, b, d);
    assert hi - lo == (b - a) * d;
    DivExact(b - a, d);
  }

  lemma AlignedAt(p: Dot, vs: Dot, k: nat)
    requires PositiveSize(vs) && Aligned(p, vs) && k < N
    ensures vs.At(k) > 0 && p.At(k) == (p.At(k) / vs.At(k)) * vs.At(k)
  {
  }

  /** (i * d) / d == i for a positive d. */
  lemma DivExact(i: int, d: int)
    requires d > 0
    ensures (i * d) / d == i && (i * d) % d == 0
  {
    var q, r := (i * d) / d, (i * d) % d;
    assert q * d + r == i * d;
    MulLess(q, i, d);
    assert (q + 1) * d == q * d + d;
    MulLess(i, q + 1, d);
  }

  /** a * d < b * d iff a < b, for a positive d. */
  lemma MulLess(a: int, b: int, d: int)
    requires d > 0
    ensures a * d < b * d <==> a < b
    ensures a * d <= b * d <==> a <= b
  {
    assert b * d - a * d == (b - a) * d;
    if a < b { assert (b - a) * d > 0; }
    if a > b { assert (a - b) * d > 0; }
  }

  /** a lies on the lattice a0, a0 + d, ..., a0 + (n - 1) * d. */
  predicate OnAxis(a: int, a0: int, d: int, n: nat)
    requires d > 0
    decreases n
  {
    n > 0 && (a == a0 + (n - 1) * d || OnAxis(a, a0, d, n - 1))
  }

  lemma {:induction false} OnAxisStep(a0: int, d: int, n: nat, i: int)
    requires d > 0 && 0 <= i < n
    ensures OnAxis(a0 + i * d, a0, d, n)
    decreases n
  {
    if i < n - 1 {
      OnAxisStep(a0, d, n - 1, i);
    }
  }

  lemma {:induction false} OnAxisIndex(a: int, a0: int, d: int, n: nat) returns (i: int)
    requires d > 0 && OnAxis(a, a0, d, n)
    ensures 0 <= i < n && a == a0 + i * d
    decreases n
  {
    if a == a0 + (n - 1) * d {
      i := n - 1;
    } else {
      i := OnAxisIndex(a, a0, d, n - 1);
    }
  }

  // ------------------------------------------------------------ membership

  lemma {:induction false} LineMember(p: Dot, x: int, y: int, z0: int, dz: int, nz: nat)
    requires dz > 0
    ensures p in Line(x, y, z0, dz, nz) <==> p.x == x && p.y == y && OnAxis(p.z, z0, dz, nz)
  {
    var l := Line(x, y, z0, dz, nz);
    if p in l {
      var k :| 0 <= k < nz && l[k] == p;
      OnAxisStep(z0, dz, nz, k);
    }
    if p.x == x && p.y == y && OnAxis(p.z, z0, dz, nz) {
      var k := OnAxisIndex(p.z, z0, dz, nz);
      assert l[k] == p;
    }
  }

  lemma {:induction false} LayerMember(p: Dot, x: int, y0: int, dy: int, ny: nat, z0: int, dz: int, nz: nat)
    requires dy > 0 && dz > 0
    ensures p in Layer(x, y0, dy, ny, z0, dz, nz) <==>
            p.x == x && OnAxis(p.y, y0, dy, ny) && OnAxis(p.z, z0, dz, nz)
    decreases ny
  {
    if ny > 0 {
      var y := y0 + (ny - 1) * dy;
      LayerMember(p, x, y0, dy, ny - 1, z0, dz, nz);
      LineMember(p, x, y, z0, dz, nz);
      assert OnAxis(p.y, y0, dy, ny) <==> p.y == y || OnAxis(p.y, y0, dy, ny - 1);
    }
  }

  lemma {:induction false} BlockMember(p: Dot, x0: int, dx: int, nx: nat, y0: int, dy: int, ny: nat,
                                       z0: int, dz: int, nz: nat)
    requires dx > 0 && dy > 0 && dz > 0
    ensures p in Block(x0, dx, nx, y0, dy, ny, z0, dz, nz) <==>
            OnAxis(p.x, x0, dx, nx) && OnAxis(p.y, y0, dy, ny) && OnAxis(p.z, z0, dz, nz)
    decreases nx
  {
    if nx > 0 {
      var x := x0 + (nx - 1) * dx;
      BlockMember(p, x0, dx, nx - 1, y0, dy, ny, z0, dz, nz);
      LayerMember(p, x, y0, dy, ny, z0, dz, nz);
      assert OnAxis(p.x, x0, dx, nx) <==> p.x == x || OnAxis(p.x, x0, dx, nx - 1);
    }
  }

  // ------------------------------------------------------------ length, no duplicates

  lemma {:induction false} LayerLength(x: int, y0: int, dy: int, ny: nat, z0: int, dz: int, nz: nat)
    ensures |Layer(x, y0, dy, ny, z0, dz, nz)| == ny * nz
    decreases ny
  {
    if ny > 0 {
      LayerLength(x, y0, dy, ny - 1, z0, dz, nz);
      assert (ny - 1) * nz + nz == ny * nz;
    }
  }

  lemma {:induction false} BlockLength(x0: int, dx: int, nx: nat, y0: int, dy: int, ny: nat,
                                       z0: int, dz: int, nz: nat)
    ensures |Block(x0, dx, nx, y0, dy, ny, z0, dz, nz)| == nx * (ny * nz)
    decreases nx
  {
    if nx > 0 {
      var m := ny * nz;
      BlockLength(x0, dx, nx - 1, y0, dy, ny, z0, dz, nz);
      LayerLength(x0 + (nx - 1) * dx, y0, dy, ny, z0, dz, nz);
      assert (nx - 1) * m + m == nx * m;
    }
  }

  lemma LineNoDup(x: int, y: int, z0: int, dz: int, nz: nat)
    requires dz > 0
    ensures NoDup(Line(x, y, z0, dz, nz))
  {
    var l := Line(x, y, z0, dz, nz);
    forall i, j | 0 <= i < j < |l| ensures l[i] != l[j] {
      MulLess(i, j, dz);
    }
    DistinctNoDup(l);
  }

  lemma {:induction false} LayerNoDup(x: int, y0: int, dy: int, ny: nat, z0: int, dz: int, nz: nat)
    requires dy > 0 && dz > 0
    ensures NoDup(Layer(x, y0, dy, ny, z0, dz, nz))
    decreases ny
  {
    if ny > 0 {
      LayerNoDup(x, y0, dy, ny - 1, z0, dz, nz);
      LineNoDup(x, y0 + (ny - 1) * dy, z0, dz, nz);
      var prev, line := Layer(x, y0, dy, ny - 1, z0, dz, nz), Line(x, y0 + (ny - 1) * dy, z0, dz, nz);
      forall p | p in prev
        ensures p !in line
      {
        RowsBeforeLine(p, x, y0, dy, ny, z0, dz, nz);
      }
      NoDupConcat(prev, line);
    }
  }

  /** A voxel of the first ny - 1 rows is not on row ny - 1. */
  lemma RowsBeforeLine(p: Dot, x: int, y0: int, dy: int, ny: nat, z0: int, dz: int, nz: nat)
    requires dy > 0 && dz > 0 && ny > 0 && p in Layer(x, y0, dy, ny - 1, z0, dz, nz)
    ensures p !in Line(x, y0 + (ny - 1) * dy, z0, dz, nz)
  {
    LayerMember(p, x, y0, dy, ny - 1, z0, dz, nz);
    var j := OnAxisIndex(p.y, y0, dy, ny - 1);
    MulLess(j, ny - 1, dy);
    LineMember(p, x, y0 + (ny - 1) * dy, z0, dz, nz);
  }

  lemma {:induction false} BlockNoDup(x0: int, dx: int, nx: nat, y0: int, dy: int, ny: nat,
                                      z0: int, dz: int, nz: nat)
    requires dx > 0 && dy > 0 && dz > 0
    ensures NoDup(Block(x0, dx, nx, y0, dy, ny, z0, dz, nz))
    decreases nx
  {
    if nx > 0 {
      var last := x0 + (nx - 1) * dx;
      BlockNoDup(x0, dx, nx - 1, y0, dy, ny, z0, dz, nz);
      LayerNoDup(last, y0, dy, ny, z0, dz, nz);
      var prev, layer := Block(x0, dx, nx - 1, y0, dy, ny, z0, dz, nz), Layer(last, y0, dy, ny, z0, dz, nz);
      forall p | p in prev
        ensures p !in layer
      {
        LayersBeforeLayer(p, x0, dx, nx, y0, dy, ny, z0, dz, nz);
      }
      NoDupConcat(prev, layer);
    }
  }

  /** A voxel of the first nx - 1 layers is not on layer nx - 1. */
  lemma LayersBeforeLayer(p: Dot, x0: int, dx: int, nx: nat, y0: int, dy: int, ny: nat, z0: int, dz: int, nz: nat)
    requires dx > 0 && dy > 0 && dz > 0 && nx > 0 && p in Block(x0, dx, nx - 1, y0, dy, ny, z0, dz, nz)
    ensures p !in Layer(x0 + (nx - 1) * dx, y0, dy, ny, z0, dz, nz)
  {
    BlockMember(p, x0, dx, nx - 1, y0, dy, ny, z0, dz, nz);
    var i := OnAxisIndex(p.x, x0, dx, nx - 1);
    MulLess(i, nx - 1, dx);
    LayerMember(p, x0 + (nx - 1) * dx, y0, dy, ny, z0, dz, nz);
  }

  // ------------------------------------------------------------ the grid of a box

  /** A grid box holds Capacity voxels, each once. */
  lemma GridSeqShape(box: Box, vs: Dot)
    requires PositiveSize(vs) && GridBox(box, vs)
    ensures |GridSeq(box, vs)| == Capacity(box, vs)
    ensures NoDup(GridSeq(box, vs))
  {
    DimNonNeg(box, vs);
    BlockLength(box.min.x, vs.x, Dim(box, vs, 0), box.min.y, vs.y, Dim(box, vs, 1),
                box.min.z, vs.z, Dim(box, vs, 2));
    BlockNoDup(box.min.x, vs.x, Dim(box, vs, 0), box.min.y, vs.y, Dim(box, vs, 1),
               box.min.z, vs.z, Dim(box, vs, 2));
  }

  /** On one axis: an aligned coordinate in [min, max) is a lattice step of the box. */
  lemma AxisMember(a: int, lo: int, hi: int, d: int)
    requires d > 0 && lo % d == 0 && hi % d == 0 && lo < hi
    ensures (a % d == 0 && lo <= a < hi) <==> OnAxis(a, lo, d, (hi - lo) / d)
  {
    var m := AxisSpan(lo, hi, d);
    if a % d == 0 && lo <= a < hi {
      var i := a / d - lo / d;
      assert a == (a / d) * d;
      assert a == lo + i * d;
      MulLess(0, i, d);
      MulLess(i, m, d);
      OnAxisStep(lo, d, m, i);
    }
    if OnAxis(a, lo, d, m) {
      AxisStepInside(a, lo, d, m);
    }
  }

  /** The number of steps between two multiples of d. */
  lemma AxisSpan(lo: int, hi: int, d: int) returns (m: int)
    requires d > 0 && lo % d == 0 && hi % d == 0
    ensures m == (hi - lo) / d == hi / d - lo / d && hi - lo == m * d
    ensures lo == (lo / d) * d && hi == (hi / d) * d
  {
    m := hi / d - lo / d;
    assert lo == (lo / d) * d && hi == (hi / d) * d;
    assert hi - lo == m * d;
    DivExact(m, d);
  }

  /** A lattice step of [lo, lo + m * d) is an aligned coordinate inside it. */
  lemma AxisStepInside(a: int, lo: int, d: int, m: int)
    requires d > 0 && lo % d == 0 && m >= 0 && OnAxis(a, lo, d, m)
    ensures a % d == 0 && lo <= a < lo + m * d
  {
    var i := OnAxisIndex(a, lo, d, m);
    assert lo == (lo / d) * d;
    assert a == (lo / d + i) * d;
    DivExact(lo / d + i, d);
    MulLess(i, m, d);
  }

  /** The voxels of a grid box are exactly the aligned dots inside it. */
  lemma GridMember(box: Box, vs: Dot, p: Dot)
    requires PositiveSize(vs) && GridBox(box, vs)
    ensures p in GridSeq(box, vs) <==> Aligned(p, vs) && VoxelInBox(box, p)
  {
    DimNonNeg(box, vs);
    BlockMember(p, box.min.x, vs.x, Dim(box, vs, 0), box.min.y, vs.y, Dim(box, vs, 1),
                box.min.z, vs.z, Dim(box, vs, 2));
    AxisMember(p.x, box.min.x, box.max.x, vs.x);
    AxisMember(p.y, box.min.y, box.max.y, vs.y);
    AxisMember(p.z, box.min.z, box.max.z, vs.z);
  }

  /** Every voxel of a grid box lies wholly inside it. */
  lemma GridWithin(box: Box, vs: Dot, p: Dot)
    requires PositiveSize(vs) && GridBox(box, vs)
    requires p in GridSeq(box, vs)
    ensures Aligned(p, vs) && VoxelWithin(box, p, vs)
  {
    GridMember(box, vs, p);
    AlignedStep(p.x, box.max.x, vs.x);
    AlignedStep(p.y, box.max.y, vs.y);
    AlignedStep(p.z, box.max.z, vs.z);
  }

  /** Between multiples of d, a < b means a + d <= b. */
  lemma AlignedStep(a: int, b: int, d: int)
    requires d > 0 && a % d == 0 && b % d == 0 && a < b
    ensures a + d <= b
  {
    assert a == (a / d) * d && b == (b / d) * d;
    MulLess(a / d, b / d, d);
    MulLess(a / d + 1, b / d, d);
  }

  /**
   * A dense set of points: duplicate-free aligned dots inside a grid box, as
   * many as the box holds, are exactly the box's voxels.
   */
  lemma DenseIsGrid(s: seq<Dot>, box: Box, vs: Dot)
    requires PositiveSize(vs) && GridBox(box, vs)
    requires NoDup(s) && |s| == Capacity(box, vs)
    requires forall p :: p in s ==> Aligned(p, vs) && VoxelInBox(box, p)
    ensures multiset(s) == multiset(GridSeq(box, vs))
  {
    GridSeqShape(box, vs);
    forall p | p in s ensures p in GridSeq(box, vs) {
      GridMember(box, vs, p);
    }
    Pigeonhole(s, GridSeq(box, vs));
  }
}
