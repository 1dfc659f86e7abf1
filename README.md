# Voxel octree of voxvision, modelled in Dafny

This project models the voxel octree of voxvision and the queries on it:

- **Construction.** `vox_make_tree` builds a tree from an array of voxels. Its helpers are `calc_bounding_box`, `calc_avg`, `vox_align_ceil` and `sort_set`.
- **Flattening and rebuilding.** `flatten_tree` writes a tree's voxels back into an array, and `vox_rebuild_tree` builds a fresh tree from them.
- **Mutation.** `vox_insert_voxel` and `vox_delete_voxel` add and remove one voxel.
- **Ray queries.** `vox_ray_tree_intersection`, `vox_local_rays_tree_intersection` and the older `ray_tree_intersection` find where a ray hits the tree.
- **Ball query.** `vox_tree_ball_collidep` tests whether a ball touches any voxel.
- **Geometry.** The documented contracts of the geometry primitives in `geom.h`.

A tree is a value of the datatype `VoxNode.Node`. A node is one of:

- absent (`NULL`);
- a sparse leaf, holding a list of voxels;
- a dense leaf, a box that is completely full;
- an inner node, with a center and eight children.

`VoxNode.Flatten` lists the voxels of a tree in the order `flatten_tree` writes them. `VoxNode.Valid` is the invariant that construction and mutation keep:

- counts agree with the voxels;
- no voxel is stored twice;
- every voxel lies wholly inside its node's box;
- a sparse leaf holds 1 to `MaxDots` voxels;
- a dense leaf is an aligned box holding exactly as many voxels as fit in it;
- child `i` of an inner node holds only voxels of subspace `i` around the center.

**Coordinates.** A voxel is identified by its minimal corner. That corner is a grid point with integer coordinates that are multiples of the voxel size `vs`. The global `vox_voxel` becomes this explicit parameter. Points of space are exact reals: ray origins, hit points and ball centers.

**Where the source changes state, the model does too.**

- **Arrays permuted in place.** `vox_make_tree` and `sort_set` permute the array in place. They are methods on an `array<Dot>` with `modifies` clauses. Their contracts state the new contents as a permutation that fixes everything outside the slice.
- **Arrays written.** `flatten_tree` writes into an array. Its contract says exactly which slice now holds which voxels.
- **Mutation.** The mutators rewrite `*tree_ptr`. They are methods that return the replacement node together with the 0/1 result.
- **Rays.** The ray queries are methods. They fill the recorded path array, order the plane crossings in an array, and rewrite their tags in place (`gen_subspaces`).

Two primitives are not among the modelled files: `hit_box` and `hit_plane`. They are parameters of type `VoxRay.Geometry`. The only thing assumed about them is their documented contract, `VoxRay.Sound`.

In `lib/search.c`, `gen_subspaces` and `compare_tagged` (lines 15-30) are the same code as in `voxtrees/search.c` (lines 16-31). Both copies are modelled by the `VoxRay` members cited against the latter.

Each `.dfy` file is one module:

| file | module | what it holds |
|---|---|---|
| `geom.dfy` | `VoxGeom` | dots, boxes, subspace indices, the grid |
| `seqs.dfy` | `VoxSeqs` | duplicate-freedom, removal at an index |
| `grid.dfy` | `VoxGrid` | the voxels of a dense box in flattening order |
| `node.dfy` | `VoxNode` | the node, its voxels, the invariant |
| `split.dfy` | `VoxSplit` | bounding box, centroid, alignment, why the split progresses |
| `build.dfy` | `VoxBuild` | `sort_set`, `vox_make_tree` |
| `flatten.dfy` | `VoxFlatten` | `flatten_tree`, `vox_rebuild_tree` |
| `mutate.dfy` | `VoxMutate` | insertion and deletion |
| `ray.dfy` | `VoxRay` | metrics, ray and ball primitives, leaf scan, plane crossings, their order, `gen_subspaces` |
| `search.dfy` | `VoxSearch` | the queries of `voxtrees/search.c` |
| `searchlib.dfy` | `VoxSearchLib` | the query of `lib/search.c` |
| `findings.dfy` | `VoxFindings` | the counterexample for the crossing comparison |

## Model

| member | source | states |
|---|---|---|
| VoxGeom.SumVector | src/voxtrees/geom.h:11-18 | every coordinate of the result is the sum of the two inputs' coordinates on that axis |
| VoxGeom.SubspaceIdx | src/voxtrees/geom.h:37-47 | the index lies in [0, 2^N - 1]; bit k is set iff the dot is not below the center on axis k |
| VoxGeom.SimdSubspaceIdx | src/voxtrees/tree.c:105-110 | the SSE index lies in [0, 8); bit k is the sign of dot[k] - center[k], set iff the dot is below the center |
| VoxGeom.SimdIsComplement | src/voxtrees/tree.c:104-133 | the SSE index used by sort_set under SSE_INTRIN is 7 minus the scalar one: the two conventions name each octant by opposite bits |
| VoxGeom.RSubspaceIdx | src/voxtrees/geom.h:37-47 | the index of a point of space lies in [0, 2^N - 1], bit k set iff the point is not below the center on axis k; the search (voxtrees/search.c:88) and, through SubspaceIdx, the tree use this one definition |
| VoxGeom.SameSubspace | src/voxtrees/geom.h:40-41 | two dots share a subspace iff they lie on the same side of the center on every axis |
| VoxGeom.Grow | src/voxtrees/tree.c:328-339 | the grown box holds the new voxel wholly and every voxel the old box held |
| VoxGeom.GrowSame | src/voxtrees/tree.c:328-339 | growing a box that already holds the voxel changes nothing |
| VoxGeom.WithinInBox | src/voxtrees/geom.h:84 | a voxel lying wholly inside a box passes voxel_in_box |
| VoxGeom.ClosestVertex | src/voxtrees/geom.h:85 | every coordinate is the box's min or max; a voxel below the box picks min, one at or past max picks max |
| VoxGeom.VertexSplit | src/voxtrees/tree.c:388-395 | around the box vertex closest to a voxel outside the box, every voxel of the box falls in the midpoint's subspace and the new voxel in another (assert idx != idx2) |
| VoxGeom.MidInside | src/voxtrees/tree.c:390-391 | the midpoint of a box with extent on every axis lies inside the box |
| VoxSeqs.RemoveAt | src/voxtrees/tree.c:468-470 | removing entry i leaves one entry fewer: the multiset loses that entry, entries before i keep their place, later ones move down by one |
| VoxSeqs.NoDupRemove | src/voxtrees/tree.c:463-470 | removing an entry from a duplicate-free list keeps it duplicate-free and drops that voxel entirely |
| VoxSeqs.Pigeonhole | src/voxtrees/tree.c:176 | a duplicate-free list of as many elements as a duplicate-free list b, all drawn from b, is a permutation of b |
| VoxGrid.BlockLength | src/voxtrees/tree.c:284-299 | the triple loop writes nx * ny * nz voxels |
| VoxGrid.BlockMember | src/voxtrees/tree.c:284-299 | a dot is written by the triple loop iff each coordinate is one of the steps of its axis |
| VoxGrid.BlockNoDup | src/voxtrees/tree.c:284-299 | the triple loop writes no voxel twice |
| VoxGrid.GridSeqShape | src/voxtrees/tree.c:282-299 | the voxels of a dense box are as many as the box holds (get_dimensions), each once |
| VoxGrid.GridMember | src/voxtrees/tree.c:282-299 | the voxels of a dense box are exactly the aligned dots inside it |
| VoxGrid.GridWithin | src/voxtrees/tree.c:282-299 | every voxel of a dense box lies wholly inside the box |
| VoxGrid.DenseIsGrid | src/voxtrees/tree.c:176 | n distinct aligned voxels inside a box that holds n (dense_set_p) are exactly the voxels of that box |
| VoxNode.VoxelsInTree | src/voxtrees/tree.c:231-234 | an absent node counts 0 voxels |
| VoxNode.VoxelsInTreeCount | src/voxtrees/tree.c:231-234 | in a valid tree the count is the number of voxels stored, and the number of distinct voxels |
| VoxNode.BoundingBox | src/voxtrees/tree.c:249-253 | the box of a valid present node holds every voxel of the node wholly |
| VoxNode.ValidShape | src/voxtrees/tree.c:179-182 | a valid node's count equals the length of its voxel list, the list has no duplicates, and a present node holds at least one voxel, all inside its box |
| VoxNode.FlattenKidsMember | src/voxtrees/tree.c:301-310 | a voxel is among the first k children's voxels iff some child below k holds it |
| VoxNode.KidsNoDup | src/voxtrees/tree.c:213-223 | children that each repeat no voxel and keep to their own subspace repeat no voxel together |
| VoxNode.InnerValid | src/voxtrees/tree.c:200-224 | an inner node over valid, subspace-sorted children with the right count and a box holding their voxels is valid |
| VoxNode.InnerReplace | src/voxtrees/tree.c:428-439 | replacing child i by a valid node of subspace i trades exactly the old child's voxels for the new one's and, with the right count and box, keeps the node valid |
| VoxNode.InnerLocate | src/voxtrees/tree.c:430-434 | in a valid inner node a voxel is in the tree iff it is in the child of its subspace |
| VoxSplit.BoxOfWithin | src/voxtrees/tree.c:54-71 | the bounding box of a set holds every voxel of the set wholly |
| VoxSplit.BoxOfTight | src/voxtrees/tree.c:54-71 | on every axis some voxel touches the minimal face and some voxel the maximal face |
| VoxSplit.BoxOfGrid | src/voxtrees/tree.c:54-71 | the bounding box of aligned voxels is aligned and at least one voxel wide on every axis |
| VoxSplit.CalcBoundingBox | src/voxtrees/tree.c:54-71 | the loop (minimum, else maximum, per axis, then the maximum moved up by one voxel) yields the box whose min corner is the least coordinates and whose max corner is the greatest plus one voxel size |
| VoxSplit.CalcAvg | src/voxtrees/tree.c:26-33 | the loop of sums divided by n yields the exact mean of the set on every axis |
| VoxSplit.AlignCeil | src/voxtrees/tree.c:74-84 | the result is aligned, and every coordinate is the least multiple of the voxel size not below the input |
| VoxSplit.AlignFloor | src/voxtrees/tree.c:86-96 | the result is aligned, and it is the voxel holding the point: each coordinate is at most the input and above it by less than one voxel |
| VoxSplit.VoxAlignCeil | src/voxtrees/tree.c:74-84 | the per-axis loop computes AlignCeil |
| VoxSplit.VoxAlignFloor | src/voxtrees/tree.c:86-96 | the per-axis loop computes AlignFloor |
| VoxSplit.CenterSplits | src/voxtrees/tree.c:213-223 | around the aligned-up centroid of two or more distinct aligned voxels no subspace receives them all, so the assertion new_offset - offset != n holds |
| VoxBuild.Swap | src/voxtrees/tree.c:135-137 | the exchange through tmp swaps the two entries and leaves the rest |
| VoxBuild.SwapPerm | src/voxtrees/tree.c:135-137 | a swap keeps the multiset of the array |
| VoxBuild.SortSet | src/voxtrees/tree.c:122-143 | offset <= counter <= n; the voxels of the subspace now fill [offset, counter) and the rest of [offset, n) holds none; the range is permuted and the rest of the array is unchanged |
| VoxBuild.GatherStep | src/voxtrees/tree.c:127-140 | one iteration keeps the loop state: the run of the subspace, then the run of others, a permutation changed only inside the range |
| VoxBuild.GatherEnd | src/voxtrees/tree.c:142 | after the last iteration the loop state is the contract of sort_set |
| VoxBuild.NotAllInOne | src/voxtrees/tree.c:219-220 | in the first round the unplaced voxels do not all fall in one subspace of the center |
| VoxBuild.Gather | src/voxtrees/tree.c:219-220 | the sort_set of a round gathers a duplicate-free run of aligned voxels of subspace idx, shorter than the slice; what remains is of later subspaces |
| VoxBuild.RunAndTail | src/voxtrees/tree.c:219-220 | splitting what is left into the run of idx and the rest keeps every voxel; the run inherits no duplicates and alignment, the rest lies in later subspaces |
| VoxBuild.SplitStep | src/voxtrees/tree.c:213-223 | one round builds child idx from the run of idx, and the voxels placed so far plus those remaining are still the slice |
| VoxBuild.Advance | src/voxtrees/tree.c:221-222 | placing the child built from the run keeps the round invariant one subspace further on |
| VoxBuild.Finish | src/voxtrees/tree.c:213-224 | after eight rounds every voxel is placed, and the inner node over the children is valid and holds exactly the slice's voxels |
| VoxBuild.Split | src/voxtrees/tree.c:200-224 | the inner node around the aligned-up centroid is valid, holds exactly the slice's voxels with count n and its bounding box, and the slice is permuted in place |
| VoxBuild.MakeTree | src/voxtrees/tree.c:167-229 | the tree is valid, absent iff n == 0, holds exactly the slice's voxels; it is a dense leaf when they fill their bounding box, a sparse leaf with a copy of them when at most MaxDots, else an inner node around their aligned-up centroid; the slice is permuted and the rest of the array kept |
| VoxFlatten.CopyDots | src/voxtrees/tree.c:263-267 | the memcpy writes the leaf's voxels from start on and changes nothing else |
| VoxFlatten.FlattenLine | src/voxtrees/tree.c:289-295 | the innermost loop writes the row of nz voxels along z and nothing else |
| VoxFlatten.FlattenLayer | src/voxtrees/tree.c:286-297 | the loop over y writes ny rows in order and nothing else |
| VoxFlatten.FlattenBlock | src/voxtrees/tree.c:284-299 | the loop over x writes nx layers in order and nothing else |
| VoxFlatten.LayerInto | src/voxtrees/tree.c:286-298 | one turn over x writes the layer at the current abscissa right after the layers before it, and the abscissa advances by one voxel |
| VoxFlatten.FlattenDense | src/voxtrees/tree.c:268-300 | a dense leaf writes every voxel of its box, each once, and nothing else |
| VoxFlatten.FlattenChildren | src/voxtrees/tree.c:301-310 | an inner node writes its children's voxels one after another in child order, and nothing else |
| VoxFlatten.FlattenKid | src/voxtrees/tree.c:306-309 | child i lands right after the voxels of the children before it, so the written prefix grows to children 0 to i |
| VoxFlatten.Extend | src/voxtrees/tree.c:306-308 | writing a second run right after a first one leaves both in place, concatenated, and the rest as at the start |
| VoxFlatten.FlattenTree | src/voxtrees/tree.c:258-313 | the tree's voxels are written from start on in flattening order, the count is their number, and nothing else of the array changes |
| VoxFlatten.RebuildTree | src/voxtrees/tree.c:315-326 | the rebuilt tree is valid, present iff the old one is, holds the same voxels with the same count, and has their bounding box |
| VoxMutate.Singleton | src/voxtrees/tree.c:351-358 | the tree built from one voxel is valid, holds just that voxel, and its box holds it |
| VoxMutate.Append | src/voxtrees/tree.c:364-376 | flattening a leaf, appending a new voxel and rebuilding gives a valid tree of the old voxels plus that one |
| VoxMutate.DenseSplitValid | src/voxtrees/tree.c:377-398 | the inner node put over a full dense leaf and a leaf of the new voxel is valid and holds the leaf's voxels plus the new one |
| VoxMutate.DenseSplitSorted | src/voxtrees/tree.c:388-397 | in that node the dense leaf sits in its midpoint's subspace and the new voxel's leaf in the voxel's subspace, each child keeping to its own subspace |
| VoxMutate.DenseSplitVoxels | src/voxtrees/tree.c:388-397 | the children of that node hold exactly the dense leaf's voxels and the new one |
| VoxMutate.InsertDense | src/voxtrees/tree.c:359-400 | a voxel inside a dense leaf is already there (result 0, tree unchanged); one outside is added (result 1) by rebuilding a small leaf or splitting a full one, and the tree stays valid |
| VoxMutate.InsertSparse | src/voxtrees/tree.c:401-427 | a voxel found in the leaf gives 0 and the same tree; otherwise 1, and a leaf with room becomes exactly the leaf with the voxel appended after its dots and the box grown to hold it; a full leaf is rebuilt with the old voxels and the new one |
| VoxMutate.Find | src/voxtrees/tree.c:404-407 | the scan stops at the first entry equal to the voxel, or at the end when none is |
| VoxMutate.InsertInnerValid | src/voxtrees/tree.c:430-438 | after the child of the voxel's subspace took it, the node with grown box and count is valid and holds the old voxels plus the added one |
| VoxMutate.ChildGrows | src/voxtrees/tree.c:432-434 | the voxels of the grown child keep to its subspace and lie in the grown box |
| VoxMutate.InsertInner | src/voxtrees/tree.c:428-439 | an inner node keeps its center, grows its box to hold the voxel and hands the voxel to the child of its subspace, whose voxels gain it when it was absent; every other child is unchanged; the result is 1 iff the voxel was absent, the count rises by the result, and a voxel already present leaves the node unchanged |
| VoxMutate.InsertAligned | src/voxtrees/tree.c:341-442 | the result is 1 iff the voxel was not in the tree; the new tree is valid, present, holds the old voxels plus the voxel, counts one more when it was added, and is the old tree when it was not |
| VoxMutate.InsertVoxel | src/voxtrees/tree.c:444-448 | insertion of a point adds the voxel holding it (align floor): the result is 0 or 1, 1 iff that voxel was absent, the tree stays valid, gains exactly that voxel and counts the result more; a voxel already present gives 0 and the same tree |
| VoxMutate.DeleteSparse | src/voxtrees/tree.c:461-477 | a voxel missing from the leaf gives 0 and the same tree; otherwise 1, and a leaf of more than one voxel keeps its box and becomes its dots with the one equal to the voxel removed, the others in order; the last voxel leaves the leaf absent |
| VoxMutate.SparseRemoveValid | src/voxtrees/tree.c:468-470 | closing the memmove over one voxel of a leaf with more than one leaves a valid sparse leaf: no duplicates, every voxel still inside the box |
| VoxMutate.Close | src/voxtrees/tree.c:495-496 | the memmove leaves the first n - 1 entries as the list with entry i removed |
| VoxMutate.Flattened | src/voxtrees/tree.c:485-487 | the fresh array holds the node's voxels in flattening order, dots_num of them |
| VoxMutate.Remove | src/voxtrees/tree.c:492-497 | after the scan and memmove the first n - 1 entries are the voxels but the removed one, duplicate-free |
| VoxMutate.DeleteDense | src/voxtrees/tree.c:478-500 | a dense leaf holds every voxel of its box; the rebuilt tree holds all of them but the removed one, and is valid |
| VoxMutate.LastVoxel | src/voxtrees/tree.c:510-514 | taking the only voxel from a one-voxel node leaves nothing |
| VoxMutate.ChildShrinks | src/voxtrees/tree.c:505-506 | a child that lost a voxel still keeps to its subspace and the node's box |
| VoxMutate.DeleteInnerValid | src/voxtrees/tree.c:504-515 | after the child of the voxel's subspace gave it up, the node with one voxel fewer is valid and holds the old voxels but that one |
| VoxMutate.DeleteInner | src/voxtrees/tree.c:501-516 | an inner node passes the deletion to the child of the voxel's subspace; the result is 1 iff the voxel was there and the count drops by it; a node left empty becomes absent; a surviving node keeps its box, its center and every other child, and that child loses exactly the voxel |
| VoxMutate.DeleteAligned | src/voxtrees/tree.c:450-521 | the result is 1 iff the voxel was in the tree; the new tree is valid, holds the old voxels but that one, counts one fewer when it was removed, is absent iff it counts none, and is the old tree when nothing was removed |
| VoxMutate.DeleteVoxel | src/voxtrees/tree.c:523-527 | deletion of a point removes the voxel holding it (align floor): the result is 0 or 1, 1 iff that voxel was there, the tree stays valid, loses exactly that voxel, counts the result fewer and is absent iff it holds none; a voxel not there gives 0 and the same tree |
| VoxRay.OnRayTrans | voxtrees/search.c:109-112 | a point reached on the ray restarted at a crossing is on the original ray |
| VoxRay.VoxelBoxWithin | voxtrees/search.c:63-67 | the box of a voxel lying inside a node box lies inside that box as a box of space |
| VoxRay.AbsMetric | src/voxtrees/geom.h:20-26 | the sum of absolute coordinate differences is non-negative and zero iff the points coincide |
| VoxRay.AbsMetricSymmetric | src/voxtrees/geom.h:20-26 | the abs metric is symmetric |
| VoxRay.AbsMetricTriangle | src/voxtrees/geom.h:20-26 | the abs metric obeys the triangle inequality |
| VoxRay.SqrMetric | src/voxtrees/geom.h:28-33 | the squared Euclidean distance is non-negative and zero iff the points coincide |
| VoxRay.SqrMetricSymmetric | src/voxtrees/geom.h:28-33 | the squared metric is symmetric |
| VoxRay.HitBoxPoint | src/voxtrees/geom.h:49-58 | a found intersection is a point of the ray inside the box |
| VoxRay.MissPrunes | voxtrees/search.c:43 | a ray meeting a box meets every box around it, so returning early on a missed node box loses no voxel |
| VoxRay.HitPlaneWithinBox | src/voxtrees/geom.h:60-75 | a found intersection is a point of the ray on the plane and within the box; none is found only when the plane crossing is missing or outside the box |
| VoxRay.BoxBallOverlap | src/voxtrees/geom.h:77-82 | box_ball_interp holds iff the solid box and the solid ball share a point |
| VoxRay.BoxBallGrow | voxtrees/search.c:136 | a ball meeting a box meets every box containing it |
| VoxRay.ClosestIndex | voxtrees/search.c:76 | the chosen point is nearest to the origin by the abs metric, and the first of the nearest |
| VoxRay.ClosestInSet | voxtrees/search.c:76 | the chosen point is one of the hits and no other hit is nearer by the abs metric |
| VoxRay.LeafHits | voxtrees/search.c:60-73 | the loop collects, in order, the hit points of the voxel boxes the ray meets |
| VoxRay.HitsSound | voxtrees/search.c:60-73 | every collected hit is a point of the ray inside the box of a voxel of the leaf |
| VoxRay.HitsEmpty | voxtrees/search.c:74-79 | no hit is collected iff the ray misses every voxel box of the leaf |
| VoxRay.Subspaces | voxtrees/search.c:16-23 | as many indices as tags, the first tag kept |
| VoxRay.SubspacesStep | voxtrees/search.c:22 | each later index is the previous index with the bit of its plane flipped |
| VoxRay.SubspacesRange | voxtrees/search.c:16-23 | from a subspace index and plane numbers below N, every index is a subspace index and consecutive indices differ in exactly one bit |
| VoxRay.FlipSmall | voxtrees/search.c:22 | crossing one of the three planes keeps an index below 8 and changes exactly one of its bits |
| VoxRay.GenSubspaces | voxtrees/search.c:16-23 | the in-place loop turns the tags of the first n entries into the subspace chain, keeps every point, and leaves later entries alone |
| VoxRay.ChainStep | voxtrees/search.c:22 | one iteration extends the converted prefix by one index and changes nothing else |
| VoxRay.CompareTaggedAsWritten | voxtrees/search.c:25-31 | the truncated difference is positive only when c1 is farther and negative only when nearer; zero says nothing |
| VoxRay.Trunc | voxtrees/search.c:30 | the conversion to int truncates toward zero |
| VoxRay.CompareTagged | voxtrees/search.c:25-31 | the corrected comparison is negative, zero or positive exactly as c1 is nearer, as near or farther |
| VoxRay.CompareTaggedAntisymmetric | voxtrees/search.c:25-31 | the corrected comparison is antisymmetric |
| VoxRay.SortCrossings | voxtrees/search.c:103 | the slice is put in order of distance from the origin, the array is permuted, and nothing outside the slice moves |
| VoxRay.InsertOne | voxtrees/search.c:103 | inserting the next crossing extends the sorted run by one while keeping the permutation and the frame |
| VoxRay.Sink | voxtrees/search.c:103 | sinking the new crossing past every farther one ends in a sorted run that is still a permutation changed only inside the run |
| VoxRay.SinkStep | voxtrees/search.c:103 | swapping a farther crossing past a nearer one moves the unsorted position one place down and keeps the multiset |
| VoxRay.SinkDone | voxtrees/search.c:103 | once the unsorted position meets a nearer crossing or the start, the run is in order |
| VoxRay.PlaneCrossings | voxtrees/search.c:83-100 | the entry point tagged with its subspace comes first, then for each plane in turn its crossing with the ray, kept when strictly inside the node box |
| VoxRay.SortedKeeps | voxtrees/search.c:103 | sorting keeps the entry point in place and every plane crossing a plane crossing |
| VoxRay.ChainFacts | voxtrees/search.c:104-105 | after gen_subspaces the sorted crossings keep their points, and their tags are subspace indices one bit apart |
| VoxRay.Chain | voxtrees/search.c:104-105 | gen_subspaces on the sorted crossings yields subspace indices one bit apart, with the points on the ray, inside the box, in order of distance |
| VoxRay.Crossings | voxtrees/search.c:83-105 | the crossings start with the entry point and its subspace; later ones lie on the ray strictly inside the node box, in order of distance, each in the subspace one bit away from the previous |
| VoxSearch.ChildHit | voxtrees/search.c:112-113 | a voxel box hit in a child is a voxel box hit in the node |
| VoxSearch.LeafSearch | voxtrees/search.c:50-80 | success iff the ray meets a voxel box of the leaf; the result is then the depth and the nearest hit, a point of the ray inside a voxel of the leaf; res is untouched otherwise |
| VoxSearch.SearchChildren | voxtrees/search.c:107-116 | a success in a child of a crossing is returned at once with a depth below the node, on the original ray and, unless it stopped at the lod depth, inside a voxel of the node; otherwise 0 with res untouched |
| VoxSearch.RayTreeIntersection | voxtrees/search.c:34-117 | records the node at path[depth - 1]; 0 for an absent node or a missed box; at the lod depth the box's entry point; in a leaf exactly the leaf's nearest hit; any success lies on the ray and, unless it stopped at the lod depth, in a voxel of the tree, at a depth within the tree's height |
| VoxSearch.SearchFrom | voxtrees/search.c:124-126 | one retry from a node at depth 1: a success lies on the ray, and inside a voxel of that node when there is no level of detail; an absent node never succeeds |
| VoxSearch.LocalRays | voxtrees/search.c:120-130 | the result is 0, always 0 once depth passes n or MaxDepthLocal, or else a level d between depth and both bounds; a hit lies on the ray and, with no level of detail, in a voxel of node path[n - d]; on 0 res is untouched |
| VoxSearch.BallCollide | voxtrees/search.c:132-158 | a collision is reported only for a present node whose box meets the ball |
| VoxSearch.LeafCollide | voxtrees/search.c:140-146 | the leaf loop succeeds iff the box of some voxel among the first k meets the ball |
| VoxSearch.KidsCollide | voxtrees/search.c:150-154 | the child loop succeeds iff some child among the first k collides |
| VoxSearch.BallCollideSound | voxtrees/search.c:132-158 | a reported collision has a voxel of the tree whose box meets the ball |
| VoxSearch.BallCollideExact | voxtrees/search.c:132-158 | on a valid tree the ball collides iff it meets the box of some voxel; pruning by node boxes loses nothing |
| VoxSearchLib.SearchChildren | lib/search.c:109-116 | a success in a child of a crossing is returned as 1 at once, on the original ray and, past the lod depth, inside a voxel of the node; otherwise 0 with res untouched |
| VoxSearchLib.RayTreeIntersection | lib/search.c:45-119 | 0 for an absent node or a missed box; at the lod depth the box's entry point; in a leaf exactly the leaf's nearest hit; any success lies on the ray and, past the lod depth, in a voxel of the tree |
| VoxFindings.ExampleRay | voxtrees/search.c:95-100 | the two crossings of the counterexample lie on the ray and on the x and y planes of the center; the ray starts in octant 0 and passes through octant 2 |
| VoxFindings.ExampleDistances | src/voxtrees/geom.h:20-26 | the two crossings are 8.125 and 7.8 away from the origin |
| VoxFindings.TruncatedOrderSkipsOctant | voxtrees/search.c:25-31 | the truncated comparison calls the two crossings equal both ways, though one is nearer; left in the order found, the octant chain is 0, 1, 3 |
| VoxFindings.SortedOrderVisitsOctant | voxtrees/search.c:102-105 | the corrected comparison puts the nearer crossing first and the chain is 0, 2, 3 |

## Left out

- Floating point: coordinates, distances and the centroid are exact reals, and grid coordinates are integers. Rounding, `ceilf`/`floorf` precision and the float `get_dimensions` are not modelled. The dense-leaf dimensions are exact divisions.
- SSE variants: `calc_avg` and `calc_bounding_box` compute the same values as the scalar code modelled here. The model uses one index function, `VoxGeom.SubspaceIdx` (bit k set iff the dot is not below the center), for sort_set, insertion, deletion and the search alike. Under SSE_INTRIN, sort_set (src/voxtrees/tree.c:105-110, 129-131) indexes with `get_subspace_idx_simd` instead, which sets bit k iff the dot is below the center (`VoxGeom.SimdSubspaceIdx`, and `VoxGeom.SimdIsComplement` proves it is 7 minus the scalar index). A tree built that way agrees with the lookups of tree.c:392-394, 432 and 505 through `get_subspace_idx` only if that function also sets bit k for dot < center. Its body (geom.c) is not part of this model, so the SSE build of sort_set is not modelled.
- Memory management is not modelled: `node_alloc`, `vox_destroy_tree`, `free`, `alloca` and its alignment arithmetic. Nodes are values.
- `WITH_STAT` statistics are not modelled.
- `hit_box` and `hit_plane` are parameters (`VoxRay.Geometry`) constrained by their documented contracts. Their bodies are not part of this model.
- `closest_in_set`'s body is not part of this model. `VoxRay.ClosestInSet` picks the first of the nearest points by the abs metric.
- `qsort_r` is modelled by an insertion sort (`VoxRay.SortCrossings`) with the corrected comparison. The order among crossings at equal distance is not fixed, as with `qsort_r`.
- `dot_betweenp` is taken to be strict on every axis (`VoxRay.Between`). Its body is not part of this model.
- `MaxDots`, `MaxDepth` and `MaxDepthLocal` stand for constants of a header that is not part of this model. They have placeholder values; no proof depends on them beyond their being positive.
- The queries require trees without dense leaves (`VoxSearch.Shaped`). Their leaf case reads a list of voxels, and the node layout they read is not part of this model.
- The entries of `plane_inter` past the crossings found are not read. The model fills them with the entry point instead of leaving them undefined.
- `vox_lod` is a parameter of `VoxSearch.RayTreeIntersection` rather than a global. The recursion depth is an unbounded natural; the assertion `depth < VOX_MAX_DEPTH` becomes a precondition.
- The path array of `vox_ray_tree_intersection` is an `array<Node>`. Its contract says what is recorded at `path[depth - 1]` and that shallower entries are kept; deeper entries are not specified.
- `Mid` (the `inner_dot` of the dense-leaf split) is the integer floor of the midpoint rather than its exact value. Both fall in the same subspace of the closest vertex, which is all the split uses.
- VoxSearch.RayTreeIntersection: does not state that a success is the nearest voxel hit along the ray, nor that 0 from an inner node means the ray misses every voxel. That would need `hit_plane`'s crossing order to be exhaustive, beyond its documented contract.
- VoxSearch.SearchChildren: does not state that the children of earlier crossings found nothing.
- VoxSearch.LocalRays: does not state that the levels before the returned one found nothing.
- VoxSearchLib.RayTreeIntersection: states that a success lies in a voxel of the tree only when the lod depth is already passed, not when the lod depth is deeper than the leaf that was hit.
- VoxSearchLib.SearchChildren: the same restriction as VoxSearchLib.RayTreeIntersection.

## Findings

| source | as written | input that shows it | evidently intended | confidence | as-written member | corrected member |
|---|---|---|---|---|---|---|
| voxtrees/search.c:25-31 | `compare_tagged` returns the float difference of the two distances converted to `int`, which truncates toward zero, so crossings less than one unit apart compare equal and `qsort_r` may leave them in the order the planes were found | ray origin (0, 0, 1), direction (1, 0.625, 0), node center (5, 3, 10); the x plane is crossed at distance 8.125 and the y plane at 7.8, and both compare as equal; with x left first, the chain of octants is 0, 1, 3 although the ray passes 0, 2, 3 and never enters octant 1 | crossings ordered by distance, so that the children are visited in the order the ray enters them | not executed | VoxFindings.TruncatedOrderSkipsOctant | VoxFindings.SortedOrderVisitsOctant |
