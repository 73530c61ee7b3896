# clsurf host pipeline, modelled in Dafny

clsurf is an OpenCL port of SURF (Speeded-Up Robust Features). Its host code does several things:

- It builds the Fast-Hessian response pyramid for a frame.
- It dispatches the detection, orientation and descriptor kernels.
- It reads back an atomically incremented point counter.
- When the per-point device buffers are too small, it grows them and repeats detection once.
- It unpacks the structure-of-arrays results into interest points.

Around that core sit several helpers:

- nearest-neighbour matching with duplicate and match flags;
- the frame-stabilisation estimates (rotation, scale, translation, crop);
- the point-log writer and reader, and the point merge;
- the verifier that compares two point lists;
- the command-line scanner;
- the string helpers used to name profiling events;
- the OpenCL error checker;
- the Python script that parses and totals the profiling logs.

The project has one module per source file:

| module | file | what it models |
|---|---|---|
| `Common` | common.dfy | C's int32 wrap-around, C's truncating `/` and `%`, float-to-int truncation |
| `Sorting` | sorting.dfy | a stable insertion sort by a total preorder, standing in for `std::sort` |
| `Features` | features.dfy | the `Ipoint` and `distPoint` records |
| `FastHessianModel` | fast_hessian.dfy | src/fasthessian.cpp |
| `SurfPipeline` | surf_pipeline.dfy | surf_src/surf.cpp, with class `Surf` |
| `NearestNeighbor` | nearest_neighbor.dfy | src/nearestNeighbor.cpp |
| `CvUtils` | cv_utils.dfy | surf_src/cvutils.cpp |
| `HostUtils` | host_utils.dfy | surf_src/utils.cpp |
| `ClStrings` | cl_strings.dfy | the string and error helpers of src/clutils.cpp |
| `PlotSurf` | plot_surf.dfy | plotting/PlotSurf.py, with class `EventGroup` |

How the model represents the parts it cannot see:

- **Kernels.** A kernel is not executed. Each dispatch is recorded as a `Launch` holding the kernel name, global and local work sizes, an index and the response layers it reads. The objects that enqueue work keep these in a `launches` log.
- **Detection.** What detection reports comes in as a parameter: `found(p)` is the number of points suppression pass `p` adds to the device counter.
- **The device counter.** The detector keeps the unbounded sum of the atomic adds (`deviceTotal`). It reads the counter back as that sum wrapped to int32. `AtomicAddsWrapOnce` proves this equals wrapping after every add.
- **Floating point.** Floats are reals. `sqrt`, `atan` (the source calls `atanf(y/x)`), `cos`, `sin` and every float division in the motion estimates go through a `Libm` record of functions, which is a parameter; `div` stands for every one of those divisions.
- **Python's `float()`.** The plotting script's `float()` is also a parameter.

## Model

| member | source | states |
|---|---|---|
| Common.WrapInt32 | src/fasthessian.cpp:226-229 | the int32 read-back of the point counter is an int32 and leaves int32 values unchanged |
| Common.CDiv | src/clutils.cpp:1520-1524 | C division truncates: the magnitude is the magnitude quotient, and the sign is negative exactly when the operand signs differ (or the quotient is 0) |
| Common.CRem | src/clutils.cpp:1520-1524 | C remainder: `a == CDiv(a,b)*b + r`, `|r| < |b|`, and r takes the dividend's sign |
| Common.Trunc | surf_src/cvutils.cpp:216-217 | a float-to-int cast truncates toward zero: the magnitude is within one below |x|, and the sign is kept |
| Sorting.Sort | surf_src/utils.cpp:141-142 | the result is a permutation of the input |
| Sorting.SortSorted | surf_src/utils.cpp:141-142 | under a total preorder, the result is sorted |
| Sorting.SortOfSorted | surf_src/utils.cpp:141-142 | sorting an already sorted sequence leaves it unchanged |
| Sorting.MapSort | src/nearestNeighbor.cpp:124-125 | sorting commutes with a map that preserves the order |
| FastHessianModel.FilterMapFacts | src/fasthessian.cpp:65-69 | each filter_map row strictly increases; octave o uses layers at most 2o+3; each row starts with the previous row's second and last layers, so octaves share layers |
| FastHessianModel.ClampOctaves | src/fasthessian.cpp:80 | octaves in 1..4 are kept; anything else becomes the default 5 |
| FastHessianModel.ClampIntervals | src/fasthessian.cpp:81 | intervals in 1..4 are kept; anything else becomes the default 4 |
| FastHessianModel.ClampSampleStep | src/fasthessian.cpp:82 | a sample step in 1..6 is kept; anything else becomes the default 2 |
| FastHessianModel.ClampThreshold | src/fasthessian.cpp:83 | a non-negative threshold is kept; a negative one becomes the default 0.0001 |
| FastHessianModel.ClampIdempotent | src/fasthessian.cpp:80-83 | clamping twice is clamping once |
| FastHessianModel.LayerCount | src/fasthessian.cpp:106-144 | no layers for octaves <= 0, 2·octaves + 2 for 1..5 octaves, and 12 beyond |
| FastHessianModel.ResponseMapAsWritten | src/fasthessian.cpp:92 | as written, the map is built from the raw octave count and step: a zero step divides by zero, and otherwise the layer count follows the raw octave count |
| FastHessianModel.ResponseMap | src/fasthessian.cpp:80-92 | the map built from the clamped parameters has 2·ClampOctaves(octaves) + 2 layers |
| FastHessianModel.ResponseMapAsWrittenMismatch | src/fasthessian.cpp:80-92 | octaves = 0 builds no layers, yet the clamped field says 5 octaves and the first suppression pass reads layer 2; a sample step of 0 divides by zero |
| FastHessianModel.ResponseMapAgreesInRange | src/fasthessian.cpp:80-92 | for in-range parameters, the as-written and clamped maps coincide |
| FastHessianModel.FiltersIncreasing | src/fasthessian.cpp:106-144 | filter sizes strictly increase along the map |
| FastHessianModel.LayerGeometry | src/fasthessian.cpp:106-144 | layer k has width (w/s)/2^g, height (h/s)/2^g, step s·2^g and filter FILTERS[k], where g is its octave group, and it fits inside the image |
| FastHessianModel.DetLaunches | src/fasthessian.cpp:158-210 | one determinant dispatch per layer: entry k is layer k's dispatch |
| FastHessianModel.NmsLaunches | src/fasthessian.cpp:270-312 | two suppression dispatches per octave |
| FastHessianModel.ClampedMapInRange | src/fasthessian.cpp:80-92 | every layer of the clamped map over an int-sized image has int width and height |
| FastHessianModel.GroupsCover | src/fasthessian.cpp:292-293 | a rounded-up work size is a whole number of 16-wide groups covering the dimension |
| FastHessianModel.NmsPassesWellFormed | src/fasthessian.cpp:270-312 | every suppression dispatch reads three existing layers with increasing filters, uses the middle layer's grid in whole 16x16 groups, and pass index 2o+i |
| FastHessianModel.NmsLaunchLayers | src/fasthessian.cpp:274-289 | the bottom, middle and top layers of a pass exist and their filters increase |
| FastHessianModel.NmsLaunchGrid | src/fasthessian.cpp:292-293 | a pass's grid covers its middle layer in whole groups |
| FastHessianModel.NmsLaunchesAt | src/fasthessian.cpp:270-312 | dispatch p of the suppression sequence is pass (p/2, p%2) |
| FastHessianModel.CounterAfterAdds | src/fasthessian.cpp:262 | the device counter stays an int32 through any sequence of wrapping atomic adds |
| FastHessianModel.AtomicAddsWrapOnce | src/fasthessian.cpp:262 | wrapping after every atomic add equals wrapping the plain sum once |
| FastHessianModel.FastHessian.constructor | src/fasthessian.cpp:74-93 | the parameters are clamped, the counter and host count are zero, and the response map is built from the clamped values |
| FastHessianModel.FastHessian.CreateResponseMap | src/fasthessian.cpp:106-144 | appends the LayerCount(octaves) layers of the pyramid over the (w/step) x (h/step) grid, in filter order; their geometry is LayerGeometry's |
| FastHessianModel.FastHessian.PushLayers | src/fasthessian.cpp:114-143 | one octave's pushes append its layers in order and nothing else |
| FastHessianModel.FastHessian.ComputeHessianDet | src/fasthessian.cpp:158-210 | appends one determinant dispatch per layer and changes nothing else |
| FastHessianModel.FastHessian.SuppressPass | src/fasthessian.cpp:272-311 | one suppression dispatch on filter_map[o][i..i+2], and the counter grows by that pass's count |
| FastHessianModel.FastHessian.SuppressOctave | src/fasthessian.cpp:272-311 | the two passes of octave o, and the counter grows by both counts |
| FastHessianModel.FastHessian.SelectIpoints | src/fasthessian.cpp:249-312 | all 2·octaves dispatches in order; the counter grows by the sum of the pass counts |
| FastHessianModel.FastHessian.GetIpoints | src/fasthessian.cpp:213-235 | the log gains the determinant then suppression dispatches (`detection`); the counter grows by the pass counts; the host count is the int32 read-back, and a negative read-back is the exit path |
| FastHessianModel.FastHessian.Reset | src/fasthessian.cpp:324-328 | the device counter is zero |
| FastHessianModel.CountAfterReset | src/fasthessian.cpp:324-328 | after a reset the read-back equals the points found unless they exceed INT32_MAX; only then can it be negative |
| FastHessianModel.CounterCanWrapNegative | src/fasthessian.cpp:229-232 | 2^31 points read back as INT32_MIN, which hits the exit |
| SurfPipeline.OffsetTablesFormula | surf_src/surf.cpp:68-77 | the 16 descriptor sub-region offsets are -12 + 5k, j varying fastest |
| SurfPipeline.OffsetPairsDistinct | surf_src/surf.cpp:68-77 | the 16 (i, j) offset pairs are pairwise distinct |
| SurfPipeline.GaussIndexFormula | surf_src/surf.cpp:78 | the Gaussian index table is |k - 6| for k in 0..12 |
| SurfPipeline.WorkspaceSizesDisagree | surf_src/surf.cpp:148 | the constructor's buffers match PointBuffers, but the reallocated workspace differs from the constructor's (121 vs 109 per point) and nothing else does |
| SurfPipeline.DiscRowSymmetric | surf_src/surf.cpp:148 | a row of the sample disc depends on i only through i² |
| SurfPipeline.RowCount | surf_src/surf.cpp:148 | an inner row of the radius-6 disc holds 11 samples |
| SurfPipeline.InnerRowCounts | surf_src/surf.cpp:148 | rows 0..3 of the disc hold 11 samples each |
| SurfPipeline.OuterRowCounts | surf_src/surf.cpp:148 | rows 4, 5 and 6 of the disc hold 9, 7 and 0 samples |
| SurfPipeline.DiscHas109Samples | surf_src/surf.cpp:148 | 109 is exactly the number of integer offsets strictly inside the radius-6 disc |
| SurfPipeline.IntegralImageLaunches | surf_src/surf.cpp:269-374 | four dispatches: scan, transpose, scan, transpose |
| SurfPipeline.OrientationLaunches | surf_src/surf.cpp:432-470 | two orientation dispatches |
| SurfPipeline.DescriptorLaunches | surf_src/surf.cpp:385-422 | two descriptor dispatches |
| SurfPipeline.LaunchesAreWholeGroups | surf_src/surf.cpp:269-470 | every grid the pipeline enqueues is a whole number of work groups, for any image size and point count |
| SurfPipeline.IntegralImageWholeGroups | surf_src/surf.cpp:269-374 | the integral-image grids are whole groups for any image size |
| SurfPipeline.PixPosOf | surf_src/surf.cpp:587-597 | entry k is point k's (x, y) |
| SurfPipeline.ScaleOf | surf_src/surf.cpp:587-597 | entry k is point k's scale |
| SurfPipeline.LaplacianOf | surf_src/surf.cpp:587-597 | entry k is point k's laplacian |
| SurfPipeline.OrientationOf | surf_src/surf.cpp:587-597 | entry k is point k's orientation |
| SurfPipeline.DescOf | surf_src/surf.cpp:587-597 | the descriptors laid end to end, 64 per point |
| SurfPipeline.DescOfSlice | surf_src/surf.cpp:587-597 | components 64k..64k+63 of the layout are point k's descriptor |
| SurfPipeline.UnpackOfLayout | surf_src/surf.cpp:587-597 | unpacking point k of the layout gives back point k, with clusterIndex 0 |
| SurfPipeline.RetrieveRecoversPoints | surf_src/surf.cpp:529-610 | reading back the layout the kernels write recovers every field of every point |
| SurfPipeline.SettleGrowsCapacity | surf_src/surf.cpp:690-702 | the capacity never shrinks; a first count that does not fit is below the new capacity unless it is zero; the settled count is the first count if it fitted, otherwise the second |
| SurfPipeline.SettleSameCountFits | surf_src/surf.cpp:690-702 | if the repeated detection reports the same count, the settled count fits the settled capacity |
| SurfPipeline.SettleLeavesSecondCountUnchecked | surf_src/surf.cpp:690-702 | the second count is never compared with the new capacity: counts 5 then 11 at capacity 3 settle on 11 points in 10 slots |
| SurfPipeline.Surf.constructor | surf_src/surf.cpp:93-212 | both stages are enabled, the counters are zero, the capacity is initialPoints, the buffers are sized for it, and the detector is clamped and zeroed |
| SurfPipeline.Surf.SetPipelineState | surf_src/surf.cpp:611-614 | the pipeline flag is set |
| SurfPipeline.Surf.Reset | surf_src/surf.cpp:519-522 | the detector's device counter is zero; the rest is unchanged |
| SurfPipeline.Surf.ReallocateIptBuffers | surf_src/surf.cpp:473-514 | every per-point buffer is re-sized to the current capacity (corrected to 109 workspace samples per point) |
| SurfPipeline.Surf.ComputeIntegralImage | surf_src/surf.cpp:269-374 | appends the four integral-image dispatches |
| SurfPipeline.Surf.GetOrientations | surf_src/surf.cpp:432-470 | appends the orientation dispatches exactly when that stage is enabled |
| SurfPipeline.Surf.CreateDescriptors | surf_src/surf.cpp:385-422 | appends the descriptor dispatches |
| SurfPipeline.Surf.DetectOnce | src/fasthessian.cpp:213-235 | the detector's log gains its detection dispatches once, its device counter grows by the pass counts, its host count is the int32 read-back, and the result is that count, or invalid when negative |
| SurfPipeline.Surf.DescribePoints | surf_src/surf.cpp:706-716 | nothing for zero points; otherwise orientation (if enabled) then descriptors |
| SurfPipeline.Surf.DetectPoints | surf_src/surf.cpp:686-710 | it succeeds exactly when `Settle` of the two int32 read-backs does, and the capacity and count are then the settled ones; the detector's log gains the detection dispatches once, or twice on a regrow, and its device counter and host count are those of the last detection (the counter reset to zero before a regrow's) |
| SurfPipeline.Surf.Regrow | surf_src/surf.cpp:690-702 | capacity becomes twice the count and the buffers are re-sized (with the corrected 109-sample workspace); the counter is reset and detection repeated, so the detector's log gains the detection dispatches once, its counter is the second pass sum and its host count that sum's read-back; the new count is that read-back, not re-checked |
| SurfPipeline.Surf.Run | surf_src/surf.cpp:627-781 | upright exits; a disabled pipeline only counts a skip and leaves the detector alone; otherwise runcount is incremented, the exit happens exactly when a read-back is negative, the counts are the settled ones, the dispatches are integral image, then stages for a non-zero count, and the detector's log, counter and host count are as in DetectPoints |
| SurfPipeline.Surf.ProcessFrame | surf_src/surf.cpp:680-716 | the enabled-pipeline path of run: the exit happens exactly when `Settle` fails, the counts are the settled ones, the dispatches are integral image then stages for a non-zero count, and the detector's log gains the detection dispatches once, or twice on a regrow, with counter and host count as in DetectPoints |
| SurfPipeline.Surf.RetrieveDescriptors | surf_src/surf.cpp:529-610 | numIpts points; point k takes entry k of each buffer and descriptor components 64k..64k+63 |
| NearestNeighbor.DistLeTotalPreorder | src/nearestNeighbor.cpp:124-125 | ordering by distance is a total preorder |
| NearestNeighbor.SortByDistance | src/nearestNeighbor.cpp:124-125 | the sorted list is a permutation of the kernel's output |
| NearestNeighbor.SortByDistanceAscending | src/nearestNeighbor.cpp:124-125 | the sorted list ascends by distance |
| NearestNeighbor.FlaggedChangesOnlyFlags | src/nearestNeighbor.cpp:128-151 | the pass changes only dup and match; match is 1 exactly when the distance is below 0.035 |
| NearestNeighbor.FirstOccurrenceIsTheOnlyOriginal | src/nearestNeighbor.cpp:128-151 | an entry is not a duplicate exactly when no earlier entry has its reference point, so each reference point has at most one non-duplicate |
| NearestNeighbor.SomeOriginal | src/nearestNeighbor.cpp:128-151 | every reference point that occurs keeps one non-duplicate entry |
| NearestNeighbor.OriginalIsClosest | src/nearestNeighbor.cpp:124-151 | after the sort, the non-duplicate entry is the closest for its reference point |
| NearestNeighbor.OccurrencesPositive | src/nearestNeighbor.cpp:128-138 | the histogram is positive exactly where the reference point occurs |
| NearestNeighbor.SeenIffCounted | src/nearestNeighbor.cpp:131-138 | the histogram entry is positive exactly when the point occurred earlier |
| NearestNeighbor.HistogramStep | src/nearestNeighbor.cpp:138 | counting one more entry adds one for its own reference point and nothing elsewhere |
| NearestNeighbor.MarkDuplicates | src/nearestNeighbor.cpp:128-151 | the array afterwards is the flagged version of the array before |
| NearestNeighbor.MarkOne | src/nearestNeighbor.cpp:131-150 | dup is whether the point was counted before; match is the distance test; nothing else changes |
| NearestNeighbor.FindNearestNeighbors | src/nearestNeighbor.cpp:57-153 | an empty side gives an empty result and no dispatch; otherwise one dispatch of 64 items per new point, and the result is the kernel output sorted by distance, then flagged |
| NearestNeighbor.ResultIsFlaggedPermutation | src/nearestNeighbor.cpp:124-151 | flags aside, the result is a permutation of the kernel output and ascends by distance |
| CvUtils.EuclideanDistFacts | surf_src/cvutils.cpp:478-487 | distance is symmetric; with a square-root-like sqrt it is non-negative and zero from a point to itself |
| CvUtils.ComputeDistanceTable | surf_src/cvutils.cpp:74-98 | an n×n table whose [i, j] entry is the distance between reference points i and j |
| CvUtils.FillRow | surf_src/cvutils.cpp:87-95 | fills row i and leaves the other rows unchanged |
| CvUtils.DistanceTableFacts | surf_src/cvutils.cpp:74-98 | the table is symmetric, with a zero diagonal and non-negative entries under a square-root-like sqrt |
| CvUtils.Median | surf_src/cvutils.cpp:739-750 | defined exactly for non-empty input |
| CvUtils.MedianIsElement | surf_src/cvutils.cpp:739-750 | the median is one of the values |
| CvUtils.MedianOfSorted | surf_src/cvutils.cpp:739-750 | for sorted input it is the element at n/2 (the upper middle for even n) |
| CvUtils.MedianSplits | surf_src/cvutils.cpp:739-750 | at least n/2 values are at or below it, and at least n - n/2 at or above it |
| CvUtils.MedianExamples | surf_src/cvutils.cpp:739-750 | median [1,2,3] = 2; median [1,2,3,4] = 3 |
| CvUtils.UsefulPairs | surf_src/cvutils.cpp:167-181 | never more useful correspondences than input ones; order and membership follow from UsefulPairsInOrder and UsefulPairsExact |
| CvUtils.UsefulIndices | surf_src/cvutils.cpp:167-181 | the positions of the useful correspondences, strictly ascending and each naming a useful entry |
| CvUtils.UsefulPairsInOrder | surf_src/cvutils.cpp:167-181 | the useful correspondences are the input's entries at those ascending positions: a sub-list in input order |
| CvUtils.UsefulPairsCovered | surf_src/cvutils.cpp:167-181 | a distance table covering every correspondence covers the useful ones |
| CvUtils.UsefulPairsExact | surf_src/cvutils.cpp:167-181 | an entry is kept exactly when it is not a duplicate, is a match, and moved no more than the shake threshold |
| CvUtils.SelectUsefulPairs | surf_src/cvutils.cpp:167-181 | the filter loop computes UsefulPairs |
| CvUtils.NormalizedAngleInRange | surf_src/cvutils.cpp:555-560 | the normalised angle lies in (-π, π] |
| CvUtils.SameTurnUnique | surf_src/cvutils.cpp:555-560 | two angles in (-π, π] a whole number of turns apart are equal |
| CvUtils.AdjustOrientation | surf_src/cvutils.cpp:555-560 | the two while loops compute the normalised angle |
| CvUtils.GetRotationAsWritten | surf_src/cvutils.cpp:544-570 | as written: the median of the unnormalised orientation differences, in degrees; defined exactly for non-empty input |
| CvUtils.GetRotationAsWrittenOutOfRange | surf_src/cvutils.cpp:562 | a single difference of 4 rad yields more than 180 degrees |
| CvUtils.GetRotation | surf_src/cvutils.cpp:544-570 | corrected: the median of the normalised differences, in degrees, always in (-180, 180] |
| CvUtils.DegreesInRange | surf_src/cvutils.cpp:569 | an angle in (-π, π] converts to (-180, 180] degrees |
| CvUtils.Pairs | surf_src/cvutils.cpp:588-638 | every visited pair (i, j) has j < i < n |
| CvUtils.PairsCount | surf_src/cvutils.cpp:588-638 | the double loop visits n(n-1)/2 pairs |
| CvUtils.PairsAt | surf_src/cvutils.cpp:588-638 | pair (i, j) is visited at position i(i-1)/2 + (i-1-j) |
| CvUtils.Ratios | surf_src/cvutils.cpp:588-638 | one scale ratio per visited pair |
| CvUtils.RatiosAppend | surf_src/cvutils.cpp:588-638 | the ratios of concatenated pair lists concatenate |
| CvUtils.PushRowRatios | surf_src/cvutils.cpp:611-637 | the inner loop appends row i's ratios |
| CvUtils.GetScalingFactor | surf_src/cvutils.cpp:577-644 | the ratio list is the ratios over all pairs, n(n-1)/2 of them, and the result is their median |
| CvUtils.MedianOfConstant | surf_src/cvutils.cpp:739-750 | if all values equal c, the median is c, so a uniform ratio is recovered exactly |
| CvUtils.GetTranslation | surf_src/cvutils.cpp:648-698 | for non-empty input, the medians of the per-point x and y shifts |
| CvUtils.TranslationOfUniformShift | surf_src/cvutils.cpp:648-698 | if every point shifts by (sx, sy), the estimated translation is (sx, sy) |
| CvUtils.CropNeverBad | surf_src/cvutils.cpp:232-262 | the "BAD DIMENSIONS" exit can never fire, for any sizes and shift |
| CvUtils.CropUndoesShift | surf_src/cvutils.cpp:232-255 | the copy offsets are non-negative, at most one per axis is non-zero, and their difference undoes the truncated shift |
| CvUtils.EstimateMotion | surf_src/cvutils.cpp:146-262 | the result is MotionEstimate: none exactly when at most one correspondence is useful; otherwise the corrected rotation of the useful pairs, the median pair ratio under it as the scale, the frame size divided by that scale, the medians of the x and y shifts under both, and the crop for that shift; the rotation is in (-180, 180] and the sanity check passes |
| CvUtils.DeletedPointsExact | surf_src/cvutils.cpp:761-765 | an index is deleted exactly when some correspondence with that point1 is a duplicate or a match |
| CvUtils.WithoutMembers | surf_src/cvutils.cpp:768-770 | an element survives exactly when it sits at some index not deleted |
| CvUtils.WithoutLength | surf_src/cvutils.cpp:768-770 | removing d distinct in-range indices shortens the sequence by d |
| CvUtils.EraseStep | surf_src/cvutils.cpp:768-770 | erasing from the back removes the element at idx from the remaining list |
| CvUtils.EraseFromBack | surf_src/cvutils.cpp:768-770 | erasing sorted distinct indices back to front removes exactly those indices |
| CvUtils.CollectDeleted | surf_src/cvutils.cpp:761-765 | the collection loop computes DeletedPoints |
| CvUtils.SortedIndicesAscend | surf_src/cvutils.cpp:766 | a sorted list without repeats strictly ascends |
| CvUtils.MergeIpts | surf_src/cvutils.cpp:753-775 | the result is the previous points followed by the new points not deleted, in order |
| CvUtils.MergeContents | surf_src/cvutils.cpp:753-775 | the previous points come first; a point is among the rest exactly when it is a non-deleted new point |
| CvUtils.WriteDescriptor | surf_src/cvutils.cpp:872-874 | appends the 64 descriptor fields |
| CvUtils.WriteIptsToFile | surf_src/cvutils.cpp:852-882 | the log is 64, the point count, then one line per point: scale, x, y, orientation, laplacian, scale, descriptor |
| CvUtils.ReadReal | surf_src/cvutils.cpp:722-731 | `>>` into a float: a failed stream changes nothing; a read that succeeds consumes exactly one numeric field |
| CvUtils.ReadInt | surf_src/cvutils.cpp:713-726 | `>>` into an int: a failed stream changes nothing; a read that succeeds consumes one integer field and stores its value; an int32 target stays int32 |
| CvUtils.ReadFields | surf_src/cvutils.cpp:722-731 | the reads of a point never touch its cluster index |
| CvUtils.ReadPoints | surf_src/cvutils.cpp:717-735 | one pushed record per remaining iteration, none once i reaches count |
| CvUtils.LoadLog | surf_src/cvutils.cpp:704-736 | one pushed record per announced point (none for a negative count), whatever the file holds |
| CvUtils.FailedFieldsUnchanged | surf_src/cvutils.cpp:722-731 | after a failed read, the rest of the point's reads leave it as it was |
| CvUtils.FailedReadsNothing | surf_src/cvutils.cpp:717-735 | once a read has failed, every later record is pushed uninitialised |
| CvUtils.TruncatedLog | surf_src/cvutils.cpp:704-736 | a header announcing one point with nothing after it still pushes one record, left uninitialised |
| CvUtils.EmptyLog | surf_src/cvutils.cpp:704-736 | an empty file leaves the count indeterminate and pushes that many uninitialised records |
| CvUtils.MalformedField | surf_src/cvutils.cpp:704-736 | a non-number in place of x stores 0 there, keeps the scale read before, and leaves the next point uninitialised |
| CvUtils.PointTokensField | surf_src/cvutils.cpp:866-873 | field f of a written line is the point's field f: the laplacian at 4, a float elsewhere |
| CvUtils.ReadWriteFields | surf_src/cvutils.cpp:722-731 | reading fields f.. of a written line into a record holding the earlier fields gives the point back |
| CvUtils.ReadWriteIpoint | surf_src/cvutils.cpp:722-731 | reading a written line gives back the point, keeping the cluster index of the record read into, and stops after the line |
| CvUtils.PointsTokensChunk | surf_src/cvutils.cpp:863-876 | line k of the written points is point k's line |
| CvUtils.ChunkOfLog | surf_src/cvutils.cpp:859-876 | line k of a written log starts at field 2 + 70k |
| CvUtils.ReadLogLine | surf_src/cvutils.cpp:717-735 | reading line k of a written log gives point k and stops at line k + 1 |
| CvUtils.LogHeader | surf_src/cvutils.cpp:713-714 | the header of a written log reads back as its number of points |
| CvUtils.PointsStep | surf_src/cvutils.cpp:717-735 | one turn of the loop pushes the point read, then the rest follows |
| CvUtils.ReadPointsChain | surf_src/cvutils.cpp:717-735 | along a chain of reads that succeed, the loop pushes the chain's points |
| CvUtils.ReadLogLines | surf_src/cvutils.cpp:717-735 | the loop over a written log pushes back its points |
| CvUtils.LogRoundTrip | surf_src/cvutils.cpp:704-882 | loadSurf of what writeIptsToFile writes is the original points, each with the cluster index of the record it was read into |
| CvUtils.ReadDescriptor | surf_src/cvutils.cpp:730-731 | the descriptor loop performs the reads of fields 6.. |
| CvUtils.ReadPointFields | surf_src/cvutils.cpp:722-727 | the six field reads, after which the descriptor reads complete the point's reads |
| CvUtils.ReadPoint | surf_src/cvutils.cpp:719-733 | the loop body reads one point as the point reader does |
| CvUtils.LoadSurf | surf_src/cvutils.cpp:704-736 | the method computes LoadLog |
| HostUtils.RoundUp | surf_src/utils.cpp:301-311 | the unsigned 32-bit result stays below 2^32 |
| HostUtils.RoundUpIsNextMultiple | surf_src/utils.cpp:301-311 | without overflow, the result is the least multiple at or above the value, and equals the value exactly for multiples |
| HostUtils.RoundUpWrapsAtTop | surf_src/utils.cpp:301-311 | just below 2^32, rounding up to 16 wraps to 0 |
| HostUtils.CompareIptFuncIsNotGreater | surf_src/utils.cpp:111-127 | compareIptFunc is "not greater" (true on equal points), the complement of the strict order |
| HostUtils.IptLessStrictWeakOrder | surf_src/utils.cpp:111-127 | the strict order (x, then y) is irreflexive and transitive, and incomparability is transitive |
| HostUtils.CompareIptFuncTotalPreorder | surf_src/utils.cpp:111-127 | compareIptFunc is a total preorder |
| HostUtils.SortIpts | surf_src/utils.cpp:141-142 | the result is a permutation with no later point strictly below an earlier one |
| HostUtils.SortIptsIdempotent | surf_src/utils.cpp:141-142 | sorting twice is sorting once |
| HostUtils.IptCloseAsWrittenIgnoresY | surf_src/utils.cpp:152-158 | as written, two points 100 apart in y only still pass |
| HostUtils.IptCloseBoundsEveryField | surf_src/utils.cpp:145-183 | the corrected check implies the as-written one and also bounds y |
| HostUtils.PointsClose | surf_src/utils.cpp:145-183 | the per-point tests compute the corrected closeness |
| HostUtils.AllPointsClose | surf_src/utils.cpp:144-187 | corrected (the y test compares y): the loop succeeds exactly when every pair of the same rank is close |
| HostUtils.CompareIpts | surf_src/utils.cpp:130-187 | corrected (the y test compares y): different sizes fail and leave both lists alone; otherwise both are sorted, and the result is whether all ranks are close |
| HostUtils.SortInPlace | surf_src/utils.cpp:141-142 | the array is replaced by its sorted version |
| HostUtils.ScanAppend | surf_src/utils.cpp:192-241 | scanning a longer command line continues from where the shorter one stopped |
| HostUtils.LaterValueOverrides | surf_src/utils.cpp:215-222 | a later `-d`, `-e`, `-i` or `-l` with its value overrides any earlier one: the device preference becomes the value's first character, the events, input or ipts path becomes the value, and nothing else changes |
| HostUtils.TrailingOptionIsUsageError | surf_src/utils.cpp:192-241 | a value-taking option with no value ends in the usage exit |
| HostUtils.OtherTokensIgnored | surf_src/utils.cpp:192-241 | an unknown token changes nothing |
| HostUtils.ParseArguments | surf_src/utils.cpp:192-241 | the outputs are the scan's; the image setting follows the scanned flag |
| HostUtils.ImageSetting.constructor | surf_src/utils.cpp:59 | images are in use initially |
| HostUtils.ImageSetting.SetUsingImages | surf_src/utils.cpp:330-333 | the flag takes the value given |
| HostUtils.ImageSetting.IsUsingImages | surf_src/utils.cpp:337-340 | returns the flag |
| HostUtils.SmartStrcat | surf_src/utils.cpp:315-325 | the text is str1 followed by str2, with room for the terminator |
| ClStrings.DigitChar | src/clutils.cpp:1523 | the digit character is 0-9 or a-z, and its value is the digit |
| ClStrings.TableMirrorsDigits | src/clutils.cpp:1523 | position 35 + r of the lookup string is the digit for \|r\|, for negative remainders too |
| ClStrings.Digits | src/clutils.cpp:1520-1524 | at least one digit and no sign |
| ClStrings.DigitsNoLeadingZero | src/clutils.cpp:1520-1524 | a positive number has no leading zero |
| ClStrings.DigitsInBase | src/clutils.cpp:1520-1524 | every digit is below the base |
| ClStrings.DigitsRoundTrip | src/clutils.cpp:1520-1524 | the digits read back as the number |
| ClStrings.Itoa | src/clutils.cpp:1513-1537 | a bad base gives the empty string; otherwise at least one character, with a leading '-' exactly for negatives |
| ClStrings.ItoaHasNoNul | src/clutils.cpp:1513-1537 | the text contains no NUL |
| ClStrings.ItoaDeterminesValue | src/clutils.cpp:1513-1537 | the text determines the value: sign and digits read back as it |
| ClStrings.ReverseReverse | src/clutils.cpp:1530-1534 | reversing twice is the identity |
| ClStrings.ItoaPortable | src/clutils.cpp:1513-1537 | the buffer holds the text followed by NUL, and nothing after is touched |
| ClStrings.WriteDigitsReversed | src/clutils.cpp:1520-1528 | the buffer holds the text reversed, then NUL |
| ClStrings.DigitLoop | src/clutils.cpp:1520-1524 | the do-while writes the magnitude's digits least significant first |
| ClStrings.NextDigit | src/clutils.cpp:1521-1523 | one iteration peels off the last digit and keeps the quotient's sign |
| ClStrings.DigitStep | src/clutils.cpp:1521-1523 | the character written is the last digit of \|tmp\|, and the rest are the quotient's digits |
| ClStrings.ReverseInPlace | src/clutils.cpp:1530-1534 | the swap loop reverses the prefix and leaves the rest alone |
| ClStrings.CatStringWithIntOverflowsAsWritten | src/clutils.cpp:1495-1502 | as written, "s,10000" plus NUL is one byte past the allocation, and itoa of -10000 writes 7 bytes into tmp[6] |
| ClStrings.CatBytesWritten | src/clutils.cpp:1500-1502 | the bytes written are at most \|s\| + 7 |
| ClStrings.CatAllocation | src/clutils.cpp:1495-1496 | corrected: the allocation covers every byte written, for any int |
| ClStrings.ItoaFitsInTwelve | src/clutils.cpp:1498 | an int32 in base 10 has at most 11 characters |
| ClStrings.DigitsBelowLimit | src/clutils.cpp:1489 | a number up to 99999 has at most 5 digits |
| ClStrings.CatStringWithInt | src/clutils.cpp:1487-1505 | above 99999 it exits; otherwise the text is s, ",", then the first five characters of the decimal text, and it fits its allocation |
| ClStrings.StrNCat | src/clutils.cpp:1502 | strncat copies min(limit, length) characters after the prefix and terminates |
| ClStrings.CopiedLength | src/clutils.cpp:1502 | the copy stops at the limit or the terminator |
| ClStrings.CopyInto | src/clutils.cpp:1500-1501 | copies the characters at the offset and changes nothing else |
| ClStrings.ErrChk | src/clutils.cpp:1208-1225 | an error is seen exactly for a non-zero status, the exit happens exactly for an error with exitOnErr, and the name printed is the table entry for -status |
| ClStrings.ErrTableShape | src/clutils.cpp:1139-1203 | 64 names: CL_SUCCESS at 0, -30 is CL_INVALID_VALUE, -63 is CL_INVALID_GLOBAL_WORK_SIZE, and 13..29 are empty |
| PlotSurf.EventGroup.constructor | plotting/PlotSurf.py:39-46 | no file name yet (`None`), no info and every event list is empty |
| PlotSurf.EventGroup.AddEvent | plotting/PlotSurf.py:126-144 | appends to its kind's list only |
| PlotSurf.EventGroup.AddInfo | plotting/PlotSurf.py:124-125 | appends to the info list only |
| PlotSurf.EventGroup.Compare | plotting/PlotSurf.py:51-83 | 0 exactly when every kind has the same descriptions in the same order; otherwise -1 |
| PlotSurf.DescsAgree | plotting/PlotSurf.py:62-81 | the loop decides description equality |
| PlotSurf.SameDescsEquivalence | plotting/PlotSurf.py:51-83 | "compare returns 0" is an equivalence |
| PlotSurf.SplitJoin | plotting/PlotSurf.py:121-127 | splitting on ';' loses nothing, and no field contains ';' |
| PlotSurf.SplitWrittenLine | plotting/PlotSurf.py:121-127 | "tag;desc;text" splits into its three fields |
| PlotSurf.Strip | plotting/PlotSurf.py:125-144 | the result neither starts nor ends with whitespace |
| PlotSurf.StripLeft | plotting/PlotSurf.py:125-144 | a suffix of the input with no leading whitespace |
| PlotSurf.StripRight | plotting/PlotSurf.py:125-144 | a prefix of the input with no trailing whitespace |
| PlotSurf.ParseWrittenLine | plotting/PlotSurf.py:124-144 | a well-formed event line parses as that event |
| PlotSurf.TagOfKind | plotting/PlotSurf.py:124-144 | each kind's tag routes back to that kind |
| PlotSurf.Route | plotting/PlotSurf.py:124-144 | an info line goes to the info list, and an event line to its kind's list only |
| PlotSurf.ParseStep | plotting/PlotSurf.py:121-146 | one line keeps the lists equal to those of the prefix, or rejects the file |
| PlotSurf.Parse | plotting/PlotSurf.py:112-151 | a fresh group holding the file name; success exactly when every line is accepted; the lists are then the routed lines in order |
| PlotSurf.NotAllAccepted | plotting/PlotSurf.py:145-146 | one bad identifier rejects the whole file |
| PlotSurf.EveryLineRouted | plotting/PlotSurf.py:124-144 | in an accepted file, every line lands in exactly one list |
| PlotSurf.Uniquify | plotting/PlotSurf.py:154-159 | the loop computes Unique |
| PlotSurf.UniqueFacts | plotting/PlotSurf.py:154-159 | no duplicates, and the same elements as the input |
| PlotSurf.UniqueOfDistinct | plotting/PlotSurf.py:154-159 | a list without duplicates is kept as is |
| PlotSurf.UniqueIdempotent | plotting/PlotSurf.py:154-159 | uniquifying twice is uniquifying once |
| PlotSurf.SearchForEvent | plotting/PlotSurf.py:102-108 | the first event with the description, or none exactly when no event has it |
| PlotSurf.Total | plotting/PlotSurf.py:175-195 | the summing loop computes the sum of the times |
| PlotSurf.TotalBoundsEach | plotting/PlotSurf.py:175-195 | with non-negative times, the total is at least each time |
| PlotSurf.TotalNonNegative | plotting/PlotSurf.py:175-195 | with non-negative times, the total is non-negative |
| PlotSurf.AddTotals | plotting/PlotSurf.py:175-195 | each kind's list gains one "Total" event whose time is the old list's sum |
| PlotSurf.Descs | plotting/PlotSurf.py:198-207 | entry k is event k's description |
| PlotSurf.CollectDescs | plotting/PlotSurf.py:198-207 | the loop concatenates the descriptions of all lists in order |
| PlotSurf.AddAllTotals | plotting/PlotSurf.py:173-195 | every group's lists gain their "Total" event |
| PlotSurf.MasterDescs | plotting/PlotSurf.py:197-216 | the four uniquified description lists, kernel, user, IO, compile |
| PlotSurf.CreateMasterLists | plotting/PlotSurf.py:163-216 | totals are appended to every group, and the result is the four uniquified description lists |
| PlotSurf.TotalListed | plotting/PlotSurf.py:163-216 | "Total" is in each master list, which has no duplicates |
| PlotSurf.RoundUpAbove | plotting/PlotSurf.py:218-220 | the next multiple of 0.5 strictly above a non-negative value |

## Left out

- The OpenCL kernels (integral image, Hessian determinant, non-maximum suppression, orientation, descriptors, nearest neighbour, normalisation) are not modelled. Their dispatches are recorded, and their outputs are parameters.
- Buffer allocation, copies and kernel-argument setup are not modelled. Neither are platform and device selection, program building or the profiler event list (`reset_phase`). They are OpenCL plumbing with no host logic.
- Floating-point rounding is not modelled: floats are exact reals. `sqrt`, `atan`, `cos`, `sin` and the float divisions of the motion estimates are functions supplied as a parameter (`div` covers every float division).
- Image work in drawImages is left out: OpenCV warping, resizing, the pixel copy and the display. EstimateMotion covers its estimation and the crop rectangle.
- File I/O is modelled as token sequences.
  - writeIptsToFile/loadSurf: the log is a sequence of fields, each an integer, a real or something else. No decimal text is produced or read, so the six significant digits `<<` writes a float with are not modelled, and the round trip is exact.
  - loadSurf: a file that cannot be opened behaves as an empty one (EmptyLog), since every read on it fails.
  - loadSurf: the count and the fields of each `Ipoint ipt;` start indeterminate. The model takes them as parameters (`countInit`, `uninit`); C++ does not define reading them.
  - PlotSurf.Parse: the log file is a list of lines.
  - Python's `float()` is a parameter.
- Program exits (`exit`) are modelled as result values: `Exited`, `None` and `ok == false`. printf output is left out.
- SurfPipeline.Surf.Run: the point counts are parameters `found1`/`found2` (per suppression pass), not computed from the image.
- SurfPipeline.Surf.Run: built with `_IMAGE_COMPARE`, run overwrites pipeline_state with the analysis device's result before testing it (surf_src/surf.cpp:656-668). The model takes pipeline_state as it is on entry; the analysis device is not part of this model.
- SurfPipeline.Surf.Run: built with `_ORTN_CHECK`, run overwrites run_orientation_stage with the orientation analysis device's result after the descriptors are created (surf_src/surf.cpp:718-730). The model keeps run_orientation_stage (`runOrientationStage == old(runOrientationStage)`); the analysis device is not part of this model.
- CvUtils.ReadInt: a decimal such as `1.5` in the laplacian's place is a failed read storing 0. The C++ library reads the integer part and leaves `.5` for the next read.
- CvUtils.ReadReal: every real field reads as itself; a float out of range, which the C++ library fails on, is not modelled.
- SurfPipeline.Surf.Regrow: `numIpts * 2` is an unbounded product. The int32 overflow for counts above 2^30 is not modelled.
- SurfPipeline.Surf.constructor: `initialPoints` is a natural number. A negative int argument is not modelled.
- Dispatch logs are split: the detector's dispatches go to `FastHessian.launches` and the pipeline's own to `Surf.launches`. The order between the two logs is not recorded.
- NearestNeighbor.SortByDistance: std::sort leaves the order of equal distances unspecified; the model fixes it with a stable sort. The comparator distPointsCmp (nearestNeighbor.h) is not part of this model; it is taken to order by `dist`, smallest first.
- HostUtils.SortIpts: the same stable-sort choice for std::sort under compareIptFunc.
- SurfPipeline.UnpackPoint: the source leaves clusterIndex uninitialised; the model writes 0.
- CvUtils.MergeIpts: requires the deleted indices to be distinct and in range. The source erases one index per duplicate-or-match entry and does not check either.
- PlotSurf.CreateMasterLists: requires the groups to be distinct objects. The same group passed twice would gain two totals, which is not modelled.
- PlotSurf.Strip: whitespace is the ASCII set ' ', '\t', '\n', '\r', '\x0b', '\x0c'. Python's Unicode whitespace is not modelled.
- PlotSurf.ParseLine: a line with too few fields, or an event time `float()` rejects, is a rejected line. Python would raise an exception.
- PlotSurf: `main`, the plotting and the printing of events are left out; they are matplotlib/console output.
- ClStrings.ErrChk: a status outside -63..-1 indexes outside cl_errs in the source, which is undefined. The model prints no name there.
- HostUtils.ImageSetting: the global `usingImages` is a field of one object.

## Findings

| source | as written | input that shows it | evidently intended | confidence | as-written member | corrected member |
|---|---|---|---|---|---|---|
| surf_src/surf.cpp:498 | reallocateIptBuffers sizes d_res for 121 samples per point | any regrow: the constructor allocated 109 per point (surf.cpp:148) | the same 109 samples as the constructor: the number of offsets inside the radius-6 disc | not executed | SurfPipeline.WorkspaceSizesDisagree | SurfPipeline.Surf.ReallocateIptBuffers |
| src/fasthessian.cpp:92 | createResponseMap gets the raw octaves and sample_step, not the clamped fields | octaves = 0: the fields say 5 octaves, but no layer is built | build the map from the clamped this->octaves and this->sample_step | not executed | FastHessianModel.ResponseMapAsWrittenMismatch | FastHessianModel.FastHessian.constructor |
| surf_src/cvutils.cpp:562 | getRotation normalises adjustedOrientation, then pushes the raw orientationDiff | one correspondence with orientationDiff 4.0 rad gives about 229 degrees | push the normalised angle, so the median lies in (-180, 180] | not executed | CvUtils.GetRotationAsWrittenOutOfRange | CvUtils.GetRotation |
| surf_src/utils.cpp:152-158 | the "Y mismatch" test compares orientation, so y is never compared | two points equal except y differing by 100 pass | compare y within 0.1 like the other fields | not executed | HostUtils.IptCloseAsWrittenIgnoresY | HostUtils.IptCloseBoundsEveryField |
| src/clutils.cpp:1495-1502 | allocates strlen+6 for s, ',', 5 digits and NUL (one short), and tmp[6] holds at most 5 characters and NUL | integer 10000 writes strlen+7 bytes; integer -10000 makes itoa write 7 bytes into tmp | allocate strlen+7 and a 12-byte tmp | not executed | ClStrings.CatStringWithIntOverflowsAsWritten | ClStrings.CatAllocation |
