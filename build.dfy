// Building a tree from an array of voxels (vox_make_tree and sort_set),
// turning a tree back into an array (flatten_tree) and rebuilding it
// (vox_rebuild_tree). The array is permuted in place, as in the source.

module VoxBuild {
  import opened VoxGeom
  import opened VoxSeqs
  import opened VoxGrid
  import opened VoxNode
  import opened VoxSplit

  /**
   * sort_set: move the voxels of [offset, n) of the slice starting at lo that
   * fall in the given subspace to the front of that range, by swaps, and
   * return offset plus their number.
   */
  method SortSet(a: array<Dot>, lo: nat, n: nat, offset: nat, subspace: int, center: Dot)
    returns (counter: nat)
    requires offset <= n && lo + n <= a.Length
    modifies a
    ensures offset <= counter <= n
    ensures forall j :: 0 <= j < lo + offset || lo + n <= j < a.Length ==> a[j] == old(a[j])
    ensures multiset(a[..]) == old(multiset(a[..]))
    ensures multiset(a[lo + offset..lo + n]) == old(multiset(a[lo + offset..lo + n]))
    ensures forall j :: lo + offset <= j < lo + counter ==> SubspaceIdx(center, a[j]) == subspace
    ensures forall j :: lo + counter <= j < lo + n ==> SubspaceIdx(center, a[j]) != subspace
  {
    ghost var s0 := a[..];
    counter := GatherLoop(a, lo, n, offset, subspace, center, s0);
    GatherEnd(a[..], s0, lo, n, offset, counter, subspace, center);
    assert a[lo + offset..lo + n] == a[..][lo + offset..lo + n];
  }

  /** The loop of sort_set: one pass over [offset, n), swapping voxels of the subspace forward. */
  method GatherLoop(a: array<Dot>, lo: nat, n: nat, offset: nat, subspace: int, center: Dot, ghost s0: seq<Dot>)
    returns (counter: nat)
    requires offset <= n && lo + n <= a.Length && s0 == a[..]
    modifies a
    ensures Gathering(a[..], s0, lo, n, offset, counter, n, subspace, center)
  {
    counter := offset;
    var i := offset;
    while i < n
      invariant Gathering(a[..], s0, lo, n, offset, counter, i, subspace, center)
    {
      counter := GatherStep(a, lo, n, offset, counter, i, subspace, center, s0);
      i := i + 1;
    }
  }

  /** One iteration of that loop, on the voxel at i. */
  method GatherStep(a: array<Dot>, lo: nat, n: nat, offset: nat, counter: nat, i: nat, subspace: int, center: Dot,
                    ghost s0: seq<Dot>)
    returns (counter': nat)
    requires Gathering(a[..], s0, lo, n, offset, counter, i, subspace, center) && i < n
    modifies a
    ensures Gathering(a[..], s0, lo, n, offset, counter', i + 1, subspace, center)
  {
    ghost var s := a[..];
    if SubspaceIdx(center, a[lo + i]) == subspace {
      Swap(a, lo + counter, lo + i);
      GatherTake(s, a[..], s0, lo, n, offset, counter, i, subspace, center);
      counter' := counter + 1;
    } else {
      GatherSkip(s, s0, lo, n, offset, counter, i, subspace, center);
      counter' := counter;
    }
  }

  /**
   * The state of the loop of sort_set after i voxels of [offset, n): s is a
   * permutation of s0 changed only in [lo + offset, lo + n), the run
   * [offset, counter) is of the subspace and [counter, i) is not.
   */
  ghost predicate Gathering(s: seq<Dot>, s0: seq<Dot>, lo: nat, n: nat, offset: nat, counter: nat, i: nat,
                            subspace: int, center: Dot) {
    && offset <= counter <= i <= n && lo + n <= |s| == |s0|
    && Framed(s, s0, lo + offset, lo + n)
    && multiset(s) == multiset(s0)
    && RunIn(s, lo + offset, lo + counter, subspace, center)
    && RunOut(s, lo + counter, lo + i, subspace, center)
  }

  /** s and s0 agree outside [from, to). */
  ghost predicate Framed(s: seq<Dot>, s0: seq<Dot>, from: nat, to: nat)
    requires |s| == |s0|
  {
    forall j :: 0 <= j < |s| && (j < from || to <= j) ==> s[j] == s0[j]
  }

  /** Every voxel of s[from..to) is in the subspace. */
  ghost predicate RunIn(s: seq<Dot>, from: nat, to: nat, subspace: int, center: Dot)
    requires to <= |s|
  {
    forall j :: from <= j < to ==> SubspaceIdx(center, s[j]) == subspace
  }

  /** No voxel of s[from..to) is in the subspace. */
  ghost predicate RunOut(s: seq<Dot>, from: nat, to: nat, subspace: int, center: Dot)
    requires to <= |s|
  {
    forall j :: from <= j < to ==> SubspaceIdx(center, s[j]) != subspace
  }

  /** A voxel of the subspace is swapped to the end of the run. */
  lemma GatherTake(s: seq<Dot>, t: seq<Dot>, s0: seq<Dot>, lo: nat, n: nat, offset: nat, counter: nat, i: nat,
                   subspace: int, center: Dot)
    requires Gathering(s, s0, lo, n, offset, counter, i, subspace, center) && i < n
    requires SubspaceIdx(center, s[lo + i]) == subspace
    requires t == s[lo + counter := s[lo + i]][lo + i := s[lo + counter]]
    ensures Gathering(t, s0, lo, n, offset, counter + 1, i + 1, subspace, center)
  {
    var c, k := lo + counter, lo + i;
    SwapPerm(s, c, k);
    SwapFramed(s, t, s0, c, k, lo + offset, lo + n);
    SwapRuns(s, t, lo + offset, c, k, subspace, center);
  }

  lemma SwapFramed(s: seq<Dot>, t: seq<Dot>, s0: seq<Dot>, c: nat, k: nat, from: nat, to: nat)
    requires from <= c <= k < to <= |s| == |s0| && t == s[c := s[k]][k := s[c]]
    requires Framed(s, s0, from, to)
    ensures Framed(t, s0, from, to)
  {
    forall j | 0 <= j < |t| && (j < from || to <= j)
      ensures t[j] == s0[j]
    {
      assert t[j] == s[j];
    }
  }

  lemma SwapRuns(s: seq<Dot>, t: seq<Dot>, from: nat, c: nat, k: nat, subspace: int, center: Dot)
    requires from <= c <= k < |s| && t == s[c := s[k]][k := s[c]]
    requires SubspaceIdx(center, s[k]) == subspace
    requires RunIn(s, from, c, subspace, center) && RunOut(s, c, k, subspace, center)
    ensures RunIn(t, from, c + 1, subspace, center) && RunOut(t, c + 1, k + 1, subspace, center)
  {
    forall j | from <= j < c + 1
      ensures SubspaceIdx(center, t[j]) == subspace
    {
      if j < c {
        assert t[j] == s[j];
      }
    }
    forall j | c + 1 <= j < k + 1
      ensures SubspaceIdx(center, t[j]) != subspace
    {
      if j < k {
        assert t[j] == s[j];
      } else {
        assert t[j] == s[c];
      }
    }
  }

  /** A voxel of another subspace stays where it is. */
  lemma GatherSkip(s: seq<Dot>, s0: seq<Dot>, lo: nat, n: nat, offset: nat, counter: nat, i: nat,
                   subspace: int, center: Dot)
    requires Gathering(s, s0, lo, n, offset, counter, i, subspace, center) && i < n
    requires SubspaceIdx(center, s[lo + i]) != subspace
    ensures Gathering(s, s0, lo, n, offset, counter, i + 1, subspace, center)
  {
  }

  /** At the end of the loop the contract of SortSet holds of the contents. */
  lemma GatherEnd(s: seq<Dot>, s0: seq<Dot>, lo: nat, n: nat, offset: nat, counter: nat,
                  subspace: int, center: Dot)
    requires Gathering(s, s0, lo, n, offset, counter, n, subspace, center)
    ensures offset <= counter <= n
    ensures forall j :: 0 <= j < lo + offset || lo + n <= j < |s| ==> s[j] == s0[j]
    ensures multiset(s) == multiset(s0)
    ensures multiset(s[lo + offset..lo + n]) == multiset(s0[lo + offset..lo + n])
    ensures forall j :: lo + offset <= j < lo + counter ==> SubspaceIdx(center, s[j]) == subspace
    ensures forall j :: lo + counter <= j < lo + n ==> SubspaceIdx(center, s[j]) != subspace
  {
    SliceFrame(s0, s, lo + offset, lo + n);
  }

  /** Exchanging two entries keeps the multiset. */
  lemma SwapPerm<T>(s: seq<T>, i: nat, j: nat)
    requires i < |s| && j < |s|
    ensures multiset(s[i := s[j]][j := s[i]]) == multiset(s)
  {
  }

  /** Exchange two entries through a temporary, as sort_set does. */
  method Swap(a: array<Dot>, i: nat, j: nat)
    requires i < a.Length && j < a.Length
    modifies a
    ensures a[..] == old(a[..])[i := old(a[j])][j := old(a[i])]
  {
    var tmp := a[i];
    a[i] := a[j];
    a[j] := tmp;
  }

  /**
   * When no voxel has gone to a child yet, the rest of the slice holds all the
   * voxels, and they do not all fall in one subspace of the split center.
   */
  lemma NotAllInOne(s: seq<Dot>, done: seq<Dot>, rest: seq<Dot>, vs: Dot, idx: int)
    requires PositiveSize(vs) && |s| > 1 && NoDup(s)
    requires forall p :: p in s ==> Aligned(p, vs)
    requires multiset(done) + multiset(rest) == multiset(s) && |rest| == |s|
    ensures exists j :: 0 <= j < |rest| && SubspaceIdx(Center(s, vs), rest[j]) != idx
  {
    assert |multiset(done)| == 0;
    assert multiset(rest) == multiset(s);
    CenterSplits(s, vs, idx);
    var p :| p in s && SubspaceIdx(Center(s, vs), p) != idx;
    assert p in multiset(rest);
    var j :| 0 <= j < |rest| && rest[j] == p;
  }

  /**
   * vox_make_tree on the slice [lo, lo + n): nothing for no voxels; a dense
   * leaf when the voxels fill their bounding box; a sparse leaf holding a copy
   * of them when there are at most MaxDots; otherwise an inner node around the
   * aligned-up centroid whose child idx is built from the run of subspace idx
   * that sort_set gathers, the runs following one another. The slice is
   * permuted in place and the rest of the array is left alone.
   */
  method MakeTree(a: array<Dot>, lo: nat, n: nat, vs: Dot) returns (t: Node)
    requires PositiveSize(vs) && lo + n <= a.Length
    requires NoDup(a[lo..lo + n]) && forall p :: p in a[lo..lo + n] ==> Aligned(p, vs)
    modifies a
    ensures forall j :: 0 <= j < lo || lo + n <= j < a.Length ==> a[j] == old(a[j])
    ensures multiset(a[..]) == old(multiset(a[..]))
    ensures multiset(a[lo..lo + n]) == old(multiset(a[lo..lo + n]))
    ensures Valid(t, vs) && DotsNum(t) == n
    ensures multiset(Flatten(t, vs)) == old(multiset(a[lo..lo + n]))
    ensures t.Empty? <==> n == 0
    ensures n > 0 ==> t.box == BoxOf(old(a[lo..lo + n]), vs)
    ensures n > 0 && DenseSetP(BoxOf(old(a[lo..lo + n]), vs), n, vs) ==> t.Dense?
    ensures n > 0 && !DenseSetP(BoxOf(old(a[lo..lo + n]), vs), n, vs) && n <= MaxDots ==>
              t.Sparse? && t.dots == old(a[lo..lo + n])
    ensures n > 0 && !DenseSetP(BoxOf(old(a[lo..lo + n]), vs), n, vs) && n > MaxDots ==>
              t.Inner? && t.center == Center(old(a[lo..lo + n]), vs)
    decreases n, 3
  {
    if n == 0 {
      return Empty;
    }
    ghost var s := a[lo..lo + n];
    var box := CalcBoundingBox(a, lo, n, vs);
    BoxOfWithin(s, vs);
    BoxOfGrid(s, vs);
    if DenseSetP(box, n, vs) {
      DenseIsGrid(s, box, vs);
      GridSeqShape(box, vs);
      t := Dense(box, n);
    } else if n <= MaxDots {
      t := Sparse(box, a[lo..lo + n]);
    } else {
      var avg := CalcAvg(a, lo, n);
      var center := VoxAlignCeil(avg, vs);
      t := Split(a, lo, n, vs, box, center, s);
    }
  }

  /**
   * The loop of vox_make_tree over the subspaces: sort_set gathers the run of
   * each subspace in turn and vox_make_tree builds that child from it.
   */
  method Split(a: array<Dot>, lo: nat, n: nat, vs: Dot, box: Box, center: Dot, ghost s: seq<Dot>) returns (t: Node)
    requires PositiveSize(vs) && lo + n <= a.Length && n > MaxDots && s == a[lo..lo + n]
    requires NoDup(s) && forall p :: p in s ==> Aligned(p, vs)
    requires box == BoxOf(s, vs) && center == Center(s, vs)
    modifies a
    ensures forall j :: 0 <= j < lo || lo + n <= j < a.Length ==> a[j] == old(a[j])
    ensures multiset(a[..]) == old(multiset(a[..]))
    ensures multiset(a[lo..lo + n]) == multiset(s)
    ensures Valid(t, vs) && t.Inner? && t.box == box && t.count == n && t.center == center
    ensures multiset(Flatten(t, vs)) == multiset(s)
    decreases n, 2
  {
    ghost var s0 := a[..];
    var children, offset := SplitLoop(a, lo, n, vs, center, s);
    Finish(a[..], lo, n, vs, box, center, s, children, offset);
    KeptSlice(a[..], s0, lo, lo + n);
    assert a[lo..lo + n] == a[..][lo..lo + n];
    t := Inner(box, n, center, children);
  }

  /** The rounds themselves, one per subspace. */
  method SplitLoop(a: array<Dot>, lo: nat, n: nat, vs: Dot, center: Dot, ghost s: seq<Dot>)
    returns (children: seq<Node>, offset: nat)
    requires PositiveSize(vs) && lo + n <= a.Length && n > MaxDots && s == a[lo..lo + n]
    requires NoDup(s) && (forall p :: p in s ==> Aligned(p, vs)) && center == Center(s, vs)
    modifies a
    ensures Kept(a[..], old(a[..]), lo, lo + n)
    ensures Progress(a[..], lo, n, vs, center, s, children, NS, offset)
    decreases n, 1
  {
    ghost var s0 := a[..];
    children := seq(NS, _ => Empty);
    offset := 0;
    var idx: nat := 0;
    Start(a[..], lo, n, vs, center, s, children);
    while idx < NS
      invariant Kept(a[..], s0, lo, lo + n)
      invariant Progress(a[..], lo, n, vs, center, s, children, idx, offset)
    {
      ghost var before := a[..];
      children, offset := SplitStep(a, lo, n, vs, center, s, children, idx, offset);
      KeptTrans(a[..], before, s0, lo, lo + n);
      idx := idx + 1;
    }
  }

  /** s is a permutation of s0 that agrees with it outside [lo, hi). */
  ghost predicate Kept(s: seq<Dot>, s0: seq<Dot>, lo: nat, hi: nat) {
    lo <= hi <= |s| == |s0| && Framed(s, s0, lo, hi) && multiset(s) == multiset(s0)
  }

  lemma KeptTrans(s: seq<Dot>, mid: seq<Dot>, s0: seq<Dot>, lo: nat, hi: nat)
    requires Kept(s, mid, lo, hi) && Kept(mid, s0, lo, hi)
    ensures Kept(s, s0, lo, hi)
  {
  }

  /** What Kept says, position by position and for the slice [lo, hi). */
  lemma KeptSlice(s: seq<Dot>, s0: seq<Dot>, lo: nat, hi: nat)
    requires Kept(s, s0, lo, hi)
    ensures forall j :: 0 <= j < lo || hi <= j < |s| ==> s[j] == s0[j]
    ensures multiset(s) == multiset(s0)
    ensures multiset(s[lo..hi]) == multiset(s0[lo..hi])
  {
    SliceFrame(s0, s, lo, hi);
  }

  /** Before the first round no child is built and the whole slice is left. */
  lemma Start(a: seq<Dot>, lo: nat, n: nat, vs: Dot, center: Dot, s: seq<Dot>, children: seq<Node>)
    requires PositiveSize(vs) && lo + n <= |a| && s == a[lo..lo + n] && children == seq(NS, _ => Empty)
    ensures Progress(a, lo, n, vs, center, s, children, 0, 0)
  {
  }

  /**
   * What holds between the rounds of that loop, for the array contents a:
   * children before idx are built, every child is valid and holds voxels of its
   * own subspace only, children from idx on are absent, and the slice from
   * offset on holds the voxels not placed yet, all of subspace idx or above.
   */
  ghost predicate Progress(a: seq<Dot>, lo: nat, n: nat, vs: Dot, center: Dot, s: seq<Dot>,
                           children: seq<Node>, idx: nat, offset: nat)
    requires PositiveSize(vs)
  {
    && idx <= NS && offset <= n && lo + n <= |a| && |children| == NS
    && (forall i :: 0 <= i < NS ==> Valid(children[i], vs))
    && (forall i, v :: 0 <= i < NS && v in Flatten(children[i], vs) ==> SubspaceIdx(center, v) == i)
    && (forall i :: idx <= i < NS ==> children[i] == Empty)
    && multiset(FlattenKids(children, idx, vs)) + multiset(a[lo + offset..lo + n]) == multiset(s)
    && (forall p :: p in a[lo + offset..lo + n] ==> SubspaceIdx(center, p) >= idx)
  }

  /**
   * One round of that loop, for subspace idx: sort_set moves the run of idx to
   * the front of what is left, the run is never all of the slice (the assertion
   * new_offset - offset != n), and vox_make_tree builds child idx from it.
   */
  method SplitStep(a: array<Dot>, lo: nat, n: nat, vs: Dot, center: Dot, ghost s: seq<Dot>,
                   children: seq<Node>, idx: nat, offset: nat)
    returns (children': seq<Node>, offset': nat)
    requires PositiveSize(vs) && idx < NS
    requires |s| == n > 1 && NoDup(s) && (forall p :: p in s ==> Aligned(p, vs)) && center == Center(s, vs)
    requires Progress(a[..], lo, n, vs, center, s, children, idx, offset)
    modifies a
    ensures Kept(a[..], old(a[..]), lo, lo + n)
    ensures Progress(a[..], lo, n, vs, center, s, children', idx + 1, offset')
    decreases n, 0
  {
    assert a[lo + offset..lo + n] == a[..][lo + offset..lo + n];
    var newOffset;
    ghost var run, tail;
    newOffset, run, tail := Gather(a, lo, n, vs, center, offset, idx, s, FlattenKids(children, idx, vs));
    ghost var mid := a[..];
    var child := MakeTree(a, lo + offset, newOffset - offset, vs);
    assert forall j :: lo + newOffset <= j < lo + n ==> a[j] == mid[j];
    assert a[..][lo + newOffset..lo + n] == tail;
    Advance(a[..], lo, n, vs, center, s, children, idx, newOffset, run, tail, child);
    children', offset' := children[idx := child], newOffset;
  }

  /**
   * The sort_set half of a round: the run of subspace idx is gathered at the
   * front of what is left, and it is shorter than the whole slice.
   */
  method Gather(a: array<Dot>, lo: nat, n: nat, vs: Dot, center: Dot, offset: nat, idx: int,
                ghost s: seq<Dot>, ghost done: seq<Dot>)
    returns (newOffset: nat, ghost run: seq<Dot>, ghost tail: seq<Dot>)
    requires PositiveSize(vs) && lo + n <= a.Length && offset <= n && 0 <= idx < NS
    requires |s| == n > 1 && NoDup(s) && (forall p :: p in s ==> Aligned(p, vs)) && center == Center(s, vs)
    requires multiset(done) + multiset(a[lo + offset..lo + n]) == multiset(s)
    requires forall p :: p in a[lo + offset..lo + n] ==> SubspaceIdx(center, p) >= idx
    modifies a
    ensures offset <= newOffset <= n && newOffset - offset < n
    ensures forall j :: 0 <= j < lo + offset || lo + n <= j < a.Length ==> a[j] == old(a[j])
    ensures multiset(a[..]) == old(multiset(a[..]))
    ensures run == a[lo + offset..lo + newOffset] && tail == a[lo + newOffset..lo + n]
    ensures multiset(done) + multiset(run) + multiset(tail) == multiset(s)
    ensures NoDup(run) && forall p :: p in run ==> Aligned(p, vs) && SubspaceIdx(center, p) == idx
    ensures forall p :: p in tail ==> SubspaceIdx(center, p) >= idx + 1
  {
    ghost var rest := a[lo + offset..lo + n];
    newOffset := SortSet(a, lo, n, offset, idx, center);
    if offset == 0 {
      NotAllInOne(s, done, a[lo + offset..lo + n], vs, idx);
    }
    run, tail := a[lo + offset..lo + newOffset], a[lo + newOffset..lo + n];
    assert a[lo + offset..lo + n] == run + tail;
    RunAndTail(s, done, rest, run, tail, vs, center, idx);
  }

  /**
   * The seq half of Gather: split into the run of idx and a tail of other
   * subspaces, what was left keeps its voxels, the run has no duplicates and
   * the tail is of subspaces above idx.
   */
  lemma RunAndTail(s: seq<Dot>, done: seq<Dot>, rest: seq<Dot>, run: seq<Dot>, tail: seq<Dot>,
                   vs: Dot, center: Dot, idx: int)
    requires PositiveSize(vs) && NoDup(s) && forall p :: p in s ==> Aligned(p, vs)
    requires multiset(done) + multiset(rest) == multiset(s)
    requires forall p :: p in rest ==> SubspaceIdx(center, p) >= idx
    requires multiset(run + tail) == multiset(rest)
    requires forall p :: p in run ==> SubspaceIdx(center, p) == idx
    requires forall p :: p in tail ==> SubspaceIdx(center, p) != idx
    ensures multiset(done) + multiset(run) + multiset(tail) == multiset(s)
    ensures NoDup(run) && forall p :: p in run ==> Aligned(p, vs) && SubspaceIdx(center, p) == idx
    ensures forall p :: p in tail ==> SubspaceIdx(center, p) >= idx + 1
  {
    NoDupWithin(run, s);
    forall p | p in tail ensures SubspaceIdx(center, p) >= idx + 1 {
      assert p in multiset(rest);
    }
  }

  /** Placing the child built from the run of idx keeps Progress, one subspace further on. */
  lemma Advance(a: seq<Dot>, lo: nat, n: nat, vs: Dot, center: Dot, s: seq<Dot>, children: seq<Node>,
                idx: nat, newOffset: nat, run: seq<Dot>, tail: seq<Dot>, child: Node)
    requires PositiveSize(vs) && idx < NS && newOffset <= n && lo + n <= |a| && |children| == NS
    requires forall i :: 0 <= i < NS ==> Valid(children[i], vs)
    requires forall i, v :: 0 <= i < NS && v in Flatten(children[i], vs) ==> SubspaceIdx(center, v) == i
    requires forall i :: idx <= i < NS ==> children[i] == Empty
    requires multiset(FlattenKids(children, idx, vs)) + multiset(run) + multiset(tail) == multiset(s)
    requires a[lo + newOffset..lo + n] == tail
    requires forall p :: p in run ==> SubspaceIdx(center, p) == idx
    requires forall p :: p in tail ==> SubspaceIdx(center, p) >= idx + 1
    requires Valid(child, vs) && multiset(Flatten(child, vs)) == multiset(run)
    ensures Progress(a, lo, n, vs, center, s, children[idx := child], idx + 1, newOffset)
  {
    var cs := children[idx := child];
    forall i | 0 <= i < NS
      ensures Valid(cs[i], vs) && forall v :: v in Flatten(cs[i], vs) ==> SubspaceIdx(center, v) == i
    {
      if i == idx {
        forall v | v in Flatten(child, vs) ensures SubspaceIdx(center, v) == idx {
          assert v in multiset(run);
        }
      } else {
        assert cs[i] == children[i];
      }
    }
    assert forall i :: idx + 1 <= i < NS ==> cs[i] == Empty;
    FlattenKidsPrefix(children, idx, idx, child, vs);
    assert FlattenKids(cs, idx + 1, vs) == FlattenKids(children, idx, vs) + Flatten(child, vs);
    assert multiset(FlattenKids(cs, idx + 1, vs)) + multiset(a[lo + newOffset..lo + n]) == multiset(s);
  }

  /**
   * After the last round every voxel has been placed in a child, and the inner
   * node over the children is valid and holds the voxels of the slice.
   */
  lemma Finish(a: seq<Dot>, lo: nat, n: nat, vs: Dot, box: Box, center: Dot, s: seq<Dot>,
               children: seq<Node>, offset: nat)
    requires PositiveSize(vs) && Progress(a, lo, n, vs, center, s, children, NS, offset)
    requires |s| == n > 0 && NoDup(s) && (forall p :: p in s ==> Aligned(p, vs)) && box == BoxOf(s, vs)
    ensures offset == n
    ensures Valid(Inner(box, n, center, children), vs)
    ensures multiset(Flatten(Inner(box, n, center, children), vs)) == multiset(s)
  {
    var rest := a[lo + offset..lo + n];
    assert forall p :: p in rest ==> SubspaceIdx(center, p) < NS;
    assert forall p :: p !in rest;
    forall p ensures multiset(rest)[p] == 0 {
      assert p !in rest;
    }
    assert multiset(rest) == multiset{};
    BoxOfWithin(s, vs);
    var f := FlattenKids(children, NS, vs);
    assert multiset(f) == multiset(s);
    assert |f| == |multiset(f)| == |s|;
    forall p | p in f ensures Aligned(p, vs) && VoxelWithin(box, p, vs) {
      assert p in multiset(s);
    }
    InnerValid(box, n, center, children, vs);
  }
}
