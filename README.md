# Observed-voxel locator and spatial weighting mask

A Dafny model of the core of `spatial_weighting.py`: the body of `main()` that

1. extracts the labels of the identifier volume `mask1` (distinct non-zero
   integer identifiers, ascending);
2. sorts the flattened value volume `mask2` once (`order = argsort(flat)`,
   `flat_sorted = flat[order]`);
3. assigns each label, in ascending order, to the voxel of `mask2` whose value
   is nearest to it: a left-side binary search gives the insertion point `pos`,
   the candidates are `pos` and `pos - 1`, the strictly closer one is kept (on a
   tie the candidate at `pos`), and the label overwrites the locator mask
   `mask3` at that voxel only if its distance is strictly below the voxel's
   entry in the `best_dist` ledger (initially +infinity);
4. masks the image with `mask3` after checking that the shapes agree.

Volumes are flattened sequences (the 3-D reshapes only relabel the same data);
voxel values are exact `real`s; labels are `int`s; the +infinity of the ledger
is `None` of an `Option<real>`.

Modules, one per component:

- `Wrappers` (`wrappers.dfy`): `Option` and `Result`.
- `Labels` (`labels.dfy`): truncation to integers, `Unique`, dropping 0, `Labels`.
- `SortedIndex` (`sorted_index.dfy`): what a sorting permutation is, and one
  (the stable insertion sort) as `ArgSort`.
- `Assigner` (`assigner.dfy`): the binary search, the choice between the two
  neighbours, the conflict rule on the mask and ledger arrays, and the label
  loop. The loop's state after k labels is the function `Placed`, and the
  sorted slot each label takes is the function `SlotOf`; the properties of the
  result are proved about those functions.
- `Compositor` (`compositor.dfy`): the shape check and the masking loop over a
  copy of the image.
- `SpatialWeighting` (`spatial_weighting.dfy`): the pipeline and worked
  examples.

The assigner accepts ANY sorting permutation of the value volume, because
numpy's default argsort is not stable: which of several equal-valued voxels a
label lands on is left open, and every property of `Assigner.Assign` holds for
each choice. The pipeline (`BuildLocator`, `Run`) fixes the stable one.

How the code picks a slot, which the worked examples exhibit:

- On a tie between the two candidates the one at `pos`, the higher sorted
  slot, wins: lines 75-78 put `pos` first in the candidate list, and line 85
  replaces the current best only by a strictly closer candidate. For label 5
  against values `[4.0, 6.0]` the insertion point is 1 and both candidates are
  at distance 1, so the label lands on voxel 1 (`SpatialWeighting.ScenarioTie`).
- Labels 7 and 9 against values `[8.0, 8.0, 8.0]` have insertion points 0 and
  3, so each has a single candidate: 7 lands on `order[0]` and 9 on `order[2]`,
  and both stay (`SpatialWeighting.ScenarioCollision`).

## Model

| member | source | states |
|---|---|---|
| Labels.Trunc | spatial_weighting.py:53 | the float-to-int64 conversion truncates toward zero: the result is within one of the value, on the side of zero |
| Labels.InsertUnique | spatial_weighting.py:53 | inserting into a strictly ascending sequence keeps it strictly ascending and adds exactly the inserted value |
| Labels.Unique | spatial_weighting.py:53 | np.unique: the result is strictly ascending and holds exactly the values of the input |
| Labels.DropZero | spatial_weighting.py:54 | the result holds exactly the non-zero values of the input |
| Labels.DropZeroAscending | spatial_weighting.py:54 | dropping 0 from a strictly ascending sequence leaves it strictly ascending |
| Labels.Labels | spatial_weighting.py:53-55 | the labels are strictly ascending (no duplicates), contain no 0, and are exactly the non-zero truncated values of mask1 |
| SortedIndex.PermutationCovers | spatial_weighting.py:61 | a permutation of the positions has the volume's length, lists only valid positions and lists every position |
| SortedIndex.GatherSorted | spatial_weighting.py:60-62 | for a sorting permutation, flat_sorted has flat's length, holds flat[order[k]] at slot k, is non-decreasing, and reaches every voxel |
| SortedIndex.InsertByValue | spatial_weighting.py:61 | inserting a position into a value-sorted index keeps it sorted and adds exactly that position |
| SortedIndex.ArgSortPrefix | spatial_weighting.py:61 | sorting the first m positions by value gives a value-sorted permutation of 0..m-1 |
| SortedIndex.ArgSort | spatial_weighting.py:61 | argsort returns a sorting permutation: every position once, with non-decreasing values |
| Assigner.SearchSorted | spatial_weighting.py:72 | left-side searchsorted: 0 <= pos <= n, every slot before pos holds a value below l, every slot from pos on a value at least l; pos is the leftmost insertion point |
| Assigner.LeftInsertionPoint | spatial_weighting.py:72 | the leftmost insertion point: every slot before it holds a value below x, the slot at it (if any) a value at least x |
| Assigner.InsertionPointUnique | spatial_weighting.py:72 | a non-decreasing sequence has exactly one insertion point for a value |
| Assigner.TwoNeighboursSuffice | spatial_weighting.py:74-78 | slots from pos on are no closer to l than slot pos, slots before pos no closer than slot pos - 1 |
| Assigner.SlotOf | spatial_weighting.py:72-88 | the slot rule: the result is the insertion point pos unless pos is past the end or pos - 1 is strictly closer, and then pos - 1 |
| Assigner.NearestSlotUnique | spatial_weighting.py:72-88 | at most one slot satisfies the slot rule for a label |
| Assigner.NearestSlotMinimal | spatial_weighting.py:72-88 | the slot chosen by the slot rule has the smallest distance to the label over all slots |
| Assigner.FirstClosest | spatial_weighting.py:80-88 | the loop over the candidates returns the first candidate of smallest distance: no candidate is closer, and every earlier candidate is strictly farther |
| Assigner.TieRule | spatial_weighting.py:74-88 | with candidates pos then pos - 1, keeping the first strictly closest one is the slot rule |
| Assigner.Nearest | spatial_weighting.py:72-88 | pos is the left insertion point, the chosen slot is the one the slot rule gives (pos unless pos - 1 is strictly closer), and its distance is the minimum over all slots |
| Assigner.Resolve | spatial_weighting.py:89-95 | the chosen voxel alone changes, in mask and ledger, and only when the new distance is strictly below its ledger entry; no ledger entry grows |
| Assigner.PlaceLabel | spatial_weighting.py:72-95 | one label takes the slot of the slot rule, and mask and ledger change at order[slot] exactly when its distance is below the ledger entry there |
| Assigner.CountAfterWrite | spatial_weighting.py:94 | writing one voxel of the mask adds at most one labelled voxel |
| Assigner.InitInv | spatial_weighting.py:65-68 | the all-zero mask with the all-infinite ledger satisfies the loop invariant |
| Assigner.StepWins | spatial_weighting.py:92-95 | a label that beats the ledger at its nearest voxel keeps the loop invariant when written there |
| Assigner.StepLoses | spatial_weighting.py:92 | a label that does not beat the ledger keeps the loop invariant with the mask and ledger untouched |
| Assigner.LabelStep | spatial_weighting.py:71-95 | one pass of the loop body, with the label at the voxel behind its slot-rule slot, carries the invariant from k to k + 1 labels |
| Assigner.SlotIsNearest | spatial_weighting.py:89 | a slot of minimal distance in flat_sorted maps back through order to a voxel of minimal distance in flat |
| Assigner.Placed | spatial_weighting.py:64-95 | mask3 and best_dist after the first k labels: all 0 and all None (+infinity) at k = 0; then label k-1 is written at order[SlotOf(...)] with its distance only when that distance is strictly below the ledger entry there; both have the volume's length |
| Assigner.PlacedStep | spatial_weighting.py:71-95 | the mask and ledger after k labels keep the invariant if those after k - 1 labels did |
| Assigner.PlacedInv | spatial_weighting.py:64-95 | after any number of labels, the mask and ledger keep the invariant, with each label at the voxel behind its slot-rule slot |
| Assigner.FinalFacts | spatial_weighting.py:71-95 | after all labels, every labelled voxel holds a label nearest to its value, no label occupies two voxels, and the result is a locator for the slot rule |
| Assigner.LocatorUnique | spatial_weighting.py:64-95 | two results that both follow the slot rule and the conflict rule for the same labels, values and order are the same mask, slots and voxels |
| Assigner.Assign | spatial_weighting.py:64-95 | the mask and ledger are the loop's result; label k takes the sorted slot of the slot rule and the voxel order[slot]; a voxel is labelled exactly when its ledger entry is finite, the entry being its distance to the label; labelled voxels hold labels at nearest voxels; each label occupies at most one voxel, only the one it picked; at most as many labelled voxels as labels; a label holds another's voxel only with a distance no larger, strictly smaller if it came later |
| Compositor.ApplyMask | spatial_weighting.py:108-112 | a shape mismatch is an error carrying both shapes, and only then; otherwise the output has the image's length, equals the image where the mask is non-zero and 0 elsewhere |
| Compositor.MaskedIdempotent | spatial_weighting.py:111-112 | masking twice with the same mask equals masking once |
| SpatialWeighting.BuildLocator | spatial_weighting.py:52-97 | the locator mask of mask1's labels over mask2 sorted by the stable argsort: each label at the voxel of its slot-rule slot under the conflict rule; only labels of mask1, at voxels nearest to them, no label twice, at most as many labelled voxels as labels, and every label's voxel held by a label at least as close |
| SpatialWeighting.Run | spatial_weighting.py:52-112 | the locator mask as in BuildLocator; the masked image is an error exactly when the image's shape differs from mask2's, and otherwise the image masked by the locator |
| SpatialWeighting.LabelsOfOne | spatial_weighting.py:53-55 | a volume whose only non-zero identifier is l has the labels [l] |
| SpatialWeighting.LabelsOfTwo | spatial_weighting.py:53-55 | a volume whose only non-zero identifiers are a < b has the labels [a, b] |
| SpatialWeighting.ScenarioNearest | spatial_weighting.py:71-95 | mask1 [0, 5, 0] against mask2 [1.0, 4.9, 10.0] gives the locator mask [0, 5, 0] |
| SpatialWeighting.ScenarioTie | spatial_weighting.py:72-95 | mask1 [5, 0] against mask2 [4.0, 6.0], both values at distance 1, gives [0, 5]: the tie goes to the insertion point |
| SpatialWeighting.ScenarioCollision | spatial_weighting.py:72-95 | mask1 [7, 0, 9] against mask2 [8.0, 8.0, 8.0] gives [7, 0, 9]: label 7 at sorted slot 0, label 9 at sorted slot 2 |
| SpatialWeighting.ScenarioMask | spatial_weighting.py:108-112 | mask [0, 3, 0, 7] over image [1.5, 2.5, 3.5, 4.5] gives [0, 2.5, 0, 4.5] |
| SpatialWeighting.ScenarioShapeMismatch | spatial_weighting.py:108-109 | an image of shape (4, 4, 4) against a mask of shape (4, 4, 5) is a shape mismatch |

## Left out

- Reading and writing NIfTI volumes (`load_nii`, `nib.save`, reuse of affine and header), the fixed input and output paths, and the `print` diagnostics: file I/O and console output. The volumes are parameters of `SpatialWeighting.Run`.
- Floating point: values are exact reals, so rounding in `abs(flat_sorted[p] - l)`, NaN and infinite voxel values, and the float32 cast of the masked image at line 114 are not modelled.
- Assigner.Assign: labels are unbounded integers. Line 94 stores each label in the int32 mask of line 65; for a label above 2^31 - 1 or below -2^31, NumPy 2.x raises OverflowError there and NumPy 1.x wraps it with a warning. Neither is modelled.
- Assigner.Assign: requires a non-empty value volume whenever there are labels. With an empty `mask2` and at least one label, `cand` is empty and `best_pos` stays None. Line 89 indexes `order[None]`, which adds an axis and gives an empty array. Line 92 then takes the truth value of `None < best_dist[...]` on that empty array: NumPy 2.2 and later raise ValueError; older NumPy reads it as false with a deprecation warning, and the script finishes with the empty mask. That NumPy-version-dependent path is not modelled; the same requires is on `SpatialWeighting.BuildLocator` and `SpatialWeighting.Run`.
- Labels.Trunc: the int64 range of `astype(np.int64)` is not modelled; out-of-range values are not handled.
- The algorithm inside `np.argsort` and which of several equal-valued voxels it puts first: the assigner takes any sorting permutation; `SortedIndex.ArgSort` is one of them (the stable one), and the pipeline uses it.
- Line 55 sorts labels that `np.unique` already returned in strictly ascending order; the model does not repeat that sort.
- The 3-D layout: volumes are flattened sequences, and a shape is a sequence of extents that only the shape check compares.
- The text of the error at line 109, which prints the image's shape twice; the model's error carries both shapes.
- The ledger is returned by `Assigner.Assign` so that its contract can speak of it; the script discards it.
- The slot and voxel each label picked (`chosen`, `slots`) are ghost outputs of `Assigner.Assign`, `SpatialWeighting.BuildLocator` and `SpatialWeighting.Run` that only serve their contracts.
