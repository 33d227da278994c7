# Verified models of the tracker, the TensorFlow C and Go sessions and StreamExecutor parts

The repository bundles an object tracker in C++, the TensorFlow C and Go APIs and a part of
StreamExecutor. This project states in Dafny what the hard parts of that code do and proves
it for all inputs and all runs. `dafny verify dfyconfig.toml` checks everything.

| file | models |
|---|---|
| `geometry.dfy`, `weighted_median.dfy`, `frame_pair.dfy` | how a box moves from one frame to the next: weights, weighted median, translation and scale |
| `object_tracker.dfy` | the ring of 512 frame pairs, and boxes tracked frame by frame or replayed from a past time |
| `flow_cache.dfy`, `flow_cache_faithful.dfy` | the three-level memo of block displacements, and exactly when it agrees with recomputing |
| `integral_image.dfy`, `pyramid.dfy`, `image_data.dfy` | prefix sums that may wrap, the images of a frame as functions, and the cache that computes them on demand |
| `fast_detector.dfy`, `mark_image.dfy`, `keypoint_selection.dfy` | corner test and score map, disc marking without roots, greedy spaced selection |
| `pixels.dfy`, `downsampling.dfy` | block averages: the scalar loops, the NEON tiles, and exactly when they agree |
| `device_occupancy.dfy` | GPU occupancy and the stepped register search |
| `tensor_layout.dfy` | dimension orders and strides for any rank |
| `go_session.dfy` | the mutex and wait group of the Go session |
| `varint.dfy`, `string_tensor.dfy` | the flat encoding of string tensors |
| `graph_lifetime.dfy`, `graph_calls.dfy`, `graph_safety.dfy`, `session_extend.dfy` | who frees a graph, what each call does, exactly which states are unsafe, and which nodes a session has been sent |
| `arithmetic.dfy`, `options.dfy`, `progress.dfy` | products and quotients, values that may be absent, steps left of a set of threads |

Loops and objects that change are methods and classes with the same loops and branches; each
is tied by its `ensures` to a function, and the promises are lemmas about those functions.
Protocols are state machines whose steps are the single actions of any number of threads.
What a helper computes that both a loop and its specification use is stated by lemmas of its
own (most are named `...Tells` or `...SpelledOut`), without naming the helper's parts.

Where the code does less than its names or comments suggest, the code is followed and the
exact condition is proved:

- `FlowCacheFaithful.FaithfulExactlyWhenRegular`: when the flow cache agrees with recomputing.
- `Tracker.FaithfulExactlyWhenReached`: when a replay from the ring is the full replay.
- `DeviceOccupancy.OptimalExactlyWhenExhaustive`: when the stepped register search is optimal.
- `Downsampling.NeonAgreesExactly` and `Pyramids.NeonLevelsAgreeExactly`: for which image and
  frame sizes a build with NEON (app/src/main/cpp/CMakeLists.txt:24-25) gives the scalar
  result. The comment above DownsampleAveragedNeon asks for sizes that are multiples of 16; this is
  neither enough (16 source columns fail) nor needed (any number from 32 on works).
- `StringTensors.DeterminedExactlyWhenContained`: when a decoded string tensor depends on its
  own bytes alone.
- `GraphSafety.EndangeredExactly`: in which states a graph can still be freed under a call.

Pixel buffers are memory addressed from their first pixel, and a string tensor lies at an
address of a larger memory, so that accesses next to a buffer are part of the model.

## Model

| member | source | states |
|---|---|---|
| `Geometry.ScaleKeepsCenterAndValidity` | app/src/main/cpp/demo/object_tracking/geom.h:232-242 | Scaling by positive factors keeps a box valid and centred and multiplies each side by its factor. |
| `WeightedMedian.QSort` | app/src/main/cpp/demo/object_tracking/frame_pair.cc:194-198 | The order the comparison asks for: the same entries, by decreasing delta; how ties fall is left open. |
| `WeightedMedian.GetMedian` | app/src/main/cpp/demo/object_tracking/frame_pair.cc:201-220 | On sorted entries and their weight sum the loop returns the weighted median, or 0 below EPSILON; its "not found" exit is never taken. |
| `WeightedMedian.MedianExists` | app/src/main/cpp/demo/object_tracking/frame_pair.cc:201-220 | Whenever the total weight is at least EPSILON there is a weighted delta d with weight above d < W/2 <= weight at or above d. |
| `WeightedMedian.MedianUnique` | app/src/main/cpp/demo/object_tracking/frame_pair.cc:201-220 | There is only one such delta. |
| `WeightedMedian.MedianAt` | app/src/main/cpp/demo/object_tracking/frame_pair.cc:208-217 | In sorted order it is the entry at which the running weight first reaches half of the total. |
| `WeightedMedian.MedianIgnoresOrder` | app/src/main/cpp/demo/object_tracking/frame_pair.cc:194-198 | Every order a sort may leave, ties broken in any way, gives the same median. |
| `WeightedMedian.MedianIgnoresUnweighted` | app/src/main/cpp/demo/object_tracking/frame_pair.cc:211 | Deltas stored with weight 0, such as those left over from earlier calls, have no influence. |
| `WeightedMedian.MedianResistsOutliers` | app/src/main/cpp/demo/object_tracking/frame_pair.cc:201-220 | If more than half of the weight lies in [lo, hi], so does the median. |
| `WeightedMedian.MedianWhenAllEqual` | app/src/main/cpp/demo/object_tracking/frame_pair.cc:201-220 | If all weighted deltas agree, the median is that delta. |
| `WeightedMedian.MedianOfAffine` | app/src/main/cpp/demo/object_tracking/frame_pair.cc:201-220 | Stretching all deltas by a positive factor and moving them does the same to the median. |
| `FramePairs.DistanceScoreRange` | app/src/main/cpp/demo/object_tracking/frame_pair.cc:104-120 | Keypoints in the box get a distance score of 1; those outside one strictly between 0 and 1/2, also with a zero distance along one axis. |
| `FramePairs.WeightRange` | app/src/main/cpp/demo/object_tracking/frame_pair.cc:92-135 | Every weight lies in [0, 1]; it is positive exactly for found keypoints, at least 1/2 in the box and below 1/2 outside. |
| `FramePairs.DistanceScoreTells` | app/src/main/cpp/demo/object_tracking/frame_pair.cc:104-120 | Outside the box twice the share is the largest q with q times the squared distance within the squared half side along both axes; inside it is 1. |
| `FramePairs.HigherScoreWeighsMore` | app/src/main/cpp/demo/object_tracking/frame_pair.cc:122-131 | Of two found keypoints with the same distance share the one with the higher score weighs more. |
| `FramePairs.WeightTells` | app/src/main/cpp/demo/object_tracking/frame_pair.cc:80-135 | The weight grows linearly with the score, from half of the distance share for the worst found keypoint to all of it for the best. |
| `FramePairs.FillWeights` | app/src/main/cpp/demo/object_tracking/frame_pair.cc:80-135 | The loops compute the weight of every keypoint and count exactly the found ones in the box. |
| `FramePairs.FillTranslations` | app/src/main/cpp/demo/object_tracking/frame_pair.cc:137-147 | Found keypoints get their displacement, the other entries keep what was there. |
| `FramePairs.FillScales` | app/src/main/cpp/demo/object_tracking/frame_pair.cc:149-187 | Found keypoints get their scale or, if degenerate or flipped, scale 1 and weight 0; other entries are untouched; the usable ones are counted. |
| `FramePairs.ScaleTells` | app/src/main/cpp/demo/object_tracking/frame_pair.cc:163-184 | A scale is usable exactly if along both axes the distances before and after exceed 0.00001 on the same side of the centre; times the distance before it gives the distance after. |
| `FramePairs.NumGoodCounts` | app/src/main/cpp/demo/object_tracking/frame_pair.cc:149-187 | The counter is the number of found keypoints with a usable scale. |
| `FramePairs.CoreTells` | app/src/main/cpp/demo/object_tracking/frame_pair.cc:39-41 | Weights are taken about the box shrunk to 40 percent around its centre. |
| `FramePairs.ScaleFactorTells` | app/src/main/cpp/demo/object_tracking/frame_pair.cc:66-77 | With at most four usable keypoints, or a median that is not positive, the size stays; else it follows the median. |
| `FramePairs.GetWeightedMedian` | app/src/main/cpp/demo/object_tracking/frame_pair.cc:222-266 | The weighted medians of the x and of the y deltas, found with one sort buffer. |
| `FramePairs.GetWeightedMedianScale` | app/src/main/cpp/demo/object_tracking/frame_pair.cc:268-306 | The weighted median over the x and y scales together. |
| `FramePairs.EstimateTranslation` | app/src/main/cpp/demo/object_tracking/frame_pair.cc:36-48 | First half of AdjustBox: the result depends on the pair and the box alone, whatever the static buffers held. |
| `FramePairs.EstimateScale` | app/src/main/cpp/demo/object_tracking/frame_pair.cc:50-77 | Second half: likewise for the scale. |
| `FramePairs.AdjustBox` | app/src/main/cpp/demo/object_tracking/frame_pair.cc:31-78 | Translation and scale are functions of the pair and the box; the stale contents of both static buffers never show. |
| `FramePairs.MoveBox` | app/src/main/cpp/demo/object_tracking/object_tracker.cc:285-303 | TrackBox on one pair moves a valid box as `Moved` says and leaves it valid. |
| `FramePairs.MovedShape` | app/src/main/cpp/demo/object_tracking/object_tracker.cc:285-303 | A moved box is valid, its centre is translated, and both sides are scaled by one positive factor. |
| `FramePairs.UnmovedWhenNothingFound` | app/src/main/cpp/demo/object_tracking/frame_pair.cc:31-78 | Without correspondences the box stays exactly where it is. |
| `FramePairs.RigidTranslationRecovered` | app/src/main/cpp/demo/object_tracking/frame_pair.cc:31-78 | If all found keypoints move by t and their weights reach EPSILON, the box moves by t and keeps its size. |
| `FramePairs.CoreKeypointIsEnough` | app/src/main/cpp/demo/object_tracking/frame_pair.cc:92-135 | One found keypoint in the box's core makes the weights reach EPSILON. |
| `FramePairs.UniformZoomRecovered` | app/src/main/cpp/demo/object_tracking/frame_pair.cc:149-187 | If the found keypoints, the computed translation undone, lie z times as far from the box centre and enough of them are usable, the scale is z. |
| `FramePairs.ZoomRecovered` | app/src/main/cpp/demo/object_tracking/frame_pair.cc:31-78 | From the motion alone: keypoints that move by t and spread by z about the centre, balanced around it so that their weighted median offset is zero, move the box by t and scale it by z. |
| `FramePairs.RigidScaleIsOne` | app/src/main/cpp/demo/object_tracking/frame_pair.cc:149-187 | A rigid translation never changes the scale. |
| `FramePairs.MedianScalePositive` | app/src/main/cpp/demo/object_tracking/frame_pair.cc:70-77 | With enough weight the median scale is positive, so the last check of AdjustBox holds. |
| `Tracker.ObjectTracker.constructor` | app/src/main/cpp/demo/object_tracking/object_tracker.cc:41-59 | A new tracker stands for the empty history, whatever its slots hold. |
| `Tracker.ObjectTracker.IncrementFrameIndex` | app/src/main/cpp/demo/object_tracking/object_tracker.h:174-184 | Grows the ring until it holds 512 pairs; from then on the oldest slot moves up by one, with wrap-around. |
| `Tracker.RingPush` | app/src/main/cpp/demo/object_tracking/object_tracker.h:167-190 | Writing the newest slot after the increment makes the ring hold the last min(n, 512) pairs of the longer log, in order. |
| `Tracker.RingSetLast` | app/src/main/cpp/demo/object_tracking/object_tracker.cc:73-92 | Filling in the newest slot changes the newest pair of the log and no other. |
| `Tracker.ObjectTracker.StartPair` | app/src/main/cpp/demo/object_tracking/object_tracker.cc:104-108 | Claims the next slot for a pair from the current time to the new timestamp, with nothing found. |
| `Tracker.ObjectTracker.FillPair` | app/src/main/cpp/demo/object_tracking/object_tracker.cc:132-137 | Stores the correspondences in the newest pair and nowhere else. |
| `Tracker.ObjectTracker.NextFrame` | app/src/main/cpp/demo/object_tracking/object_tracker.cc:100-148 | Fails exactly if time does not advance. From the second frame on, if there is an object or tracking is always on, the newest pair holds the correspondences and every object is moved by it; else the pair is empty and nothing moves. |
| `Tracker.FrameMovesObjects` | app/src/main/cpp/demo/object_tracking/object_tracker.cc:127-141 | The same of every frame of every run. |
| `Tracker.RigidFrameShifts` | app/src/main/cpp/demo/object_tracking/object_tracker.cc:132-141 | A frame whose found keypoints all move by t, with enough weight for an object's box, moves that object by t, whatever always_track is. |
| `Tracker.RigidRunAddsUp` | app/src/main/cpp/demo/object_tracking/object_tracker.cc:100-148 | Over a whole run of such frames, whatever is done to other objects, the object travels by the sum of the motions. |
| `Tracker.ObjectTracker.TrackPair` | app/src/main/cpp/demo/object_tracking/object_tracker.cc:132-141 | Fills the newest pair and moves every object by it. |
| `Tracker.ObjectTracker.TrackObjects` | app/src/main/cpp/demo/object_tracking/object_tracker.cc:649-661 | Moves every object by the newest pair and adds or drops none. |
| `Tracker.ObjectTracker.TrackBox` | app/src/main/cpp/demo/object_tracking/object_tracker.cc:305-348 | The backward search and forward loop apply exactly the pairs that ended after the timestamp, oldest first, if the ring reaches back that far, and none otherwise. |
| `Tracker.ObjectTracker.ReplayLast` | app/src/main/cpp/demo/object_tracking/object_tracker.cc:341-347 | The forward loop replays the newest n pairs, oldest first, across the wrap-around. |
| `Tracker.ObjectTracker.RegisterNewObject` | app/src/main/cpp/demo/object_tracking/object_tracker.cc:189-195 | Adds one object and leaves history and other objects alone. |
| `Tracker.ObjectTracker.SetPreviousPositionOfObject` | app/src/main/cpp/demo/object_tracking/object_tracker.cc:198-214 | Puts the object where the box, replayed from the timestamp, is now. |
| `Tracker.ObjectTracker.ForgetTarget` | app/src/main/cpp/demo/object_tracking/object_tracker.cc:223-227 | Removes one object and leaves the rest alone. |
| `Tracker.TimesIncrease` | app/src/main/cpp/demo/object_tracking/object_tracker.cc:107-114 | In every reachable history end times strictly increase. |
| `Tracker.WellTimedPush` | app/src/main/cpp/demo/object_tracking/object_tracker.cc:107-114 | Appending the pair of a new frame keeps pairs meeting in time. |
| `Tracker.SinceCut` | app/src/main/cpp/demo/object_tracking/object_tracker.cc:310-328 | The pairs since t are a suffix of the history, found where the backward search stops. |
| `Tracker.TrackingStep` | app/src/main/cpp/demo/object_tracking/object_tracker.cc:305-348 | One step of any run keeps an object equal to the replay of its placement while the ring reaches back to it. |
| `Tracker.PlacedObjectFollowsReplay` | app/src/main/cpp/demo/object_tracking/object_tracker.cc:305-348 | Over every run: an object placed at time t and moved frame by frame equals the box replayed from the ring, and from the full history, as long as a pair that ended by t is among the last 512. |
| `Tracker.LatePlacementCatchesUp` | app/src/main/cpp/demo/object_tracking/object_tracker.cc:198-214 | Placing a box late, with its old timestamp, leads to the same state as placing it in time. |
| `Tracker.LateNudgeMissed` | app/src/main/cpp/demo/object_tracking/object_tracker.cc:330-336 | When the history is too short there are motions that TrackBox misses: it returns the box unchanged. |
| `Tracker.ReachesTells` | app/src/main/cpp/demo/object_tracking/object_tracker.cc:310-328 | The backward search succeeds exactly if the oldest of the newest 512 pairs ended by t. |
| `Tracker.FaithfulExactlyWhenReached` | app/src/main/cpp/demo/object_tracking/object_tracker.cc:305-348 | TrackBox gives the full replay for every motion if and only if the oldest of the newest 512 pairs ended by t, or there is at most one pair. |
| `FlowCaching.BlockDimForCacheLevel` | app/src/main/cpp/demo/object_tracking/flow_cache.h:264-277 | The loop gives 3 blocks per side on the coarsest level and twice as many on each finer one. |
| `FlowCaching.BlockInRange` | app/src/main/cpp/demo/object_tracking/flow_cache.h:202-208 | For every image size and point in the image the block index is in range. |
| `FlowCaching.FlowCache.constructor` | app/src/main/cpp/demo/object_tracking/flow_cache.h:31-41 | Starts with an empty memo. |
| `FlowCaching.FlowCache.ClearCache` | app/src/main/cpp/demo/object_tracking/flow_cache.h:59-65 | Leaves no stored value and no matrix. |
| `FlowCaching.FlowCache.NextFrame` | app/src/main/cpp/demo/object_tracking/flow_cache.h:52-57 | No value survives, and the new matrix and flow are in force. |
| `FlowCaching.FlowCache.LookupGuessFromLevel` | app/src/main/cpp/demo/object_tracking/flow_cache.h:186-249 | The recursion over the flag and displacement images computes the functional memo, and finer levels are untouched. |
| `FlowCaching.FlowCache.LookupGuess` | app/src/main/cpp/demo/object_tracking/flow_cache.h:251-262 | Zero outside the image, else the lookup from the finest level; from an empty cache it is FirstGuess. |
| `FlowCaching.FirstGuessIs` | app/src/main/cpp/demo/object_tracking/flow_cache.h:186-286 | The uncached recursion and a first lookup, written out: flow on pyramid levels 3, 2, 1 at the centres of blocks of a third, a sixth and a twelfth of the image; with a matrix, flow on level 1 from the matrix's displacement. |
| `FlowCacheFaithful.LookupSound` | app/src/main/cpp/demo/object_tracking/flow_cache.h:186-249 | If blocks determine values, a lookup from any sound cache returns the uncached recursion's value and leaves a sound cache. |
| `FlowCacheFaithful.ResultsSound` | app/src/main/cpp/demo/object_tracking/flow_cache.h:186-262 | So does every sequence of lookups, in any order. |
| `FlowCacheFaithful.MultiplesOfTwelveNest` | app/src/main/cpp/demo/object_tracking/flow_cache.h:202-208 | Sides divisible by 12 (and sides up to 6) give nested blocks. |
| `FlowCacheFaithful.NestedIndex` | app/src/main/cpp/demo/object_tracking/flow_cache.h:202-208 | With nested blocks, points in one fine block lie in one coarse block. |
| `FlowCacheFaithful.RegularDetermines` | app/src/main/cpp/demo/object_tracking/flow_cache.h:186-249 | Nested blocks without a matrix, or a pure translation, make the block determine the value. |
| `FlowCacheFaithful.NotNestedUnfaithful` | app/src/main/cpp/demo/object_tracking/flow_cache.h:202-246 | If some side does not nest, there is a flow and two queries for which the cache differs from the recursion. |
| `FlowCacheFaithful.MatrixUnfaithful` | app/src/main/cpp/demo/object_tracking/flow_cache.h:190-200 | With a matrix that is no translation, the first query of a block decides for the others. |
| `FlowCacheFaithful.FaithfulExactlyWhenRegular` | app/src/main/cpp/demo/object_tracking/flow_cache.h:186-262 | For every image size and matrix: all query sequences over all flows return the uncached values if and only if the blocks nest and there is no matrix, or the matrix is a translation (or the image is empty). |
| `DeviceOccupancy.CeilOfRatioIs` | app/src/main/cpp/tensorflow/stream_executor/lib/mathutil.h:57-97 | The branch-free ceiling is the ceiling, characterised by the multiple it reaches. |
| `DeviceOccupancy.RegsPerBlockExact` | app/src/main/cpp/tensorflow/stream_executor/device_description.cc:191-197 | For a usable device the nested rounding neither wraps nor reaches zero. |
| `DeviceOccupancy.DividesExactly` | app/src/main/cpp/tensorflow/stream_executor/device_description.cc:185-208 | No division by zero exactly if the device is not known, or the register limit is exceeded, or all granularities are positive and a block gets some registers and threads. |
| `DeviceOccupancy.OccupancyIsLargestFit` | app/src/main/cpp/tensorflow/stream_executor/device_description.cc:163-212 | With warps, registers and shared memory rounded up from the fields of the device and the launch: n is at most the occupancy if and only if n is 0, or all seven fields are known, the register limit is kept, and n blocks stay within blocks, registers, shared memory and threads of a core. |
| `DeviceOccupancy.OccupancyWithoutOverflow` | app/src/main/cpp/tensorflow/stream_executor/device_description.cc:185-212 | Without overflow the same with plain products, and the number of warps is the least that holds x * y * z threads. |
| `DeviceOccupancy.OccupancyAntitone` | app/src/main/cpp/tensorflow/stream_executor/device_description.cc:163-213 | More registers per thread never raise the occupancy. |
| `DeviceOccupancy.OccupancyPerBucket` | app/src/main/cpp/tensorflow/stream_executor/device_description.cc:194-213 | Register counts that round to the same allocation have the same occupancy. |
| `DeviceOccupancy.CalculateRegisterLimitForTargetOccupancy` | app/src/main/cpp/tensorflow/stream_executor/device_description.cc:215-232 | The loop visits the limit and then the multiples of the step below it, and stops at the first that meets the target, at 0, or on a division by a zero step. |
| `DeviceOccupancy.SearchFindsMaximum` | app/src/main/cpp/tensorflow/stream_executor/device_description.cc:223-231 | With an exhaustive step the rest of the search, from any candidate on, finds the maximum. |
| `DeviceOccupancy.ConversionsTell` | app/src/main/cpp/tensorflow/stream_executor/device_description.cc:221-224 | The conversions to int and back keep values modulo 2^32 and extend the sign. |
| `DeviceOccupancy.SearchIsOptimalWhenExhaustive` | app/src/main/cpp/tensorflow/stream_executor/device_description.cc:215-232 | For every usable device and launch the search returns the largest register count in 1..limit that meets the target, or 0 if there is none. |
| `DeviceOccupancy.LargestCountThatFits` | app/src/main/cpp/tensorflow/stream_executor/device_description.cc:215-232 | In terms of what a block takes: the target fits with the count found, and with no larger count. |
| `DeviceOccupancy.ZeroStepFails` | app/src/main/cpp/tensorflow/stream_executor/device_description.cc:221-224 | With an allocation granularity below the warp size there is a launch on which the step is zero and the search fails. |
| `DeviceOccupancy.SkippedBucketFails` | app/src/main/cpp/tensorflow/stream_executor/device_description.cc:221-224 | With a granularity of at least two warps that is no multiple of the warp size there is a launch on which the search misses the maximum. |
| `DeviceOccupancy.OptimalExactlyWhenExhaustive` | app/src/main/cpp/tensorflow/stream_executor/device_description.cc:215-232 | The search is optimal on all devices with a given warp size and granularity if and only if the warp size divides the granularity or the step is 1. |
| `TensorLayout.DimIndicesApart` | app/src/main/cpp/tensorflow/stream_executor/dnn.cc:145-176 | For every layout and rank, depth, batch and spatial positions are disjoint and fill the list. |
| `TensorLayout.Scatter` | app/src/main/cpp/tensorflow/stream_executor/dnn.cc:190-197 | The assignments and the loop move batch, depth and the spatial run to their places. |
| `TensorLayout.ReorderDims` | app/src/main/cpp/tensorflow/stream_executor/dnn.cc:178-200 | The result is the list rearranged into the target's named order. |
| `TensorLayout.ReorderComposes` | app/src/main/cpp/tensorflow/stream_executor/dnn.cc:178-200 | Reordering through a third layout is reordering directly, and there and back is the identity. |
| `TensorLayout.BatchDescriptor.ComputeFullDims` | app/src/main/cpp/tensorflow/stream_executor/dnn.cc:222-228 | Batch, depth and spatial sizes in the requested order. |
| `TensorLayout.DimsSpelledOut` | app/src/main/cpp/tensorflow/stream_executor/dnn.cc:222-228 | The dimensions written out for each of the five orders. |
| `TensorLayout.BatchDescriptor.ComputeFullStrides` | app/src/main/cpp/tensorflow/stream_executor/dnn.cc:230-247 | The backward loop gives, for each physical dimension, the number of elements of the later ones, then reorders. |
| `TensorLayout.BatchDescriptor.ComputeNodesPerFeatureMap` | app/src/main/cpp/tensorflow/stream_executor/dnn.cc:309-315 | The loop is the product of the spatial sizes. |
| `TensorLayout.DotReordered` | app/src/main/cpp/tensorflow/stream_executor/dnn.cc:178-200 | Reordering coordinates and strides alike keeps their dot product. |
| `TensorLayout.AddressIndependentOfLayout` | app/src/main/cpp/tensorflow/stream_executor/dnn.cc:230-247 | An element has the same address whichever logical layout the strides are asked for. |
| `TensorLayout.AddressSpelledOut` | app/src/main/cpp/tensorflow/stream_executor/dnn.cc:230-247 | The address of element (b, d, s) written out for each layout of the descriptor, whatever order the strides are asked in. |
| `TensorLayout.PhysicalElementCount` | app/src/main/cpp/tensorflow/stream_executor/dnn.cc:321-323 | The physical dimensions multiply up to ElementCount. |
| `TensorLayout.AddressesAreDistinct` | app/src/main/cpp/tensorflow/stream_executor/dnn.cc:230-247 | Addresses of in-range coordinates lie in [0, ElementCount) and are distinct, for any number of spatial dimensions. |
| `TensorLayout.AddressesFillTheBatch` | app/src/main/cpp/tensorflow/stream_executor/dnn.cc:230-247 | Every address in [0, ElementCount) belongs to some coordinate. |
| `GoSession.RunInv` | app/src/main/cpp/tensorflow/go/session.go:39-47 | Over all interleavings of any number of calls the mutex, the wait group, s.c and the C session stay consistent. |
| `GoSession.InFlightSessionIsLive` | app/src/main/cpp/tensorflow/go/session.go:75-95 | From the unlock to the deferred Done a Run, PartialRun.Run or NewPartialRun sees a live session that nobody is closing. |
| `GoSession.DeletedAtMostOnce` | app/src/main/cpp/tensorflow/go/session.go:209-224 | The C session is deleted at most once, however often Close is called. |
| `GoSession.HandleTellsTheTruth` | app/src/main/cpp/tensorflow/go/session.go:209-224 | Outside Close, s.c is nil exactly when the C session has been deleted. |
| `GoSession.FailedCloseKeepsSession` | app/src/main/cpp/tensorflow/go/session.go:217-220 | An error from TF_CloseSession reaches the caller and leaves s.c set, the session live and the mutex free again. |
| `GoSession.ClosedForGood` | app/src/main/cpp/tensorflow/go/session.go:75-80 | After a successful Close no later call ever enters, and no later Close deletes. |
| `GoSession.ClosedMeansDeleted` | app/src/main/cpp/tensorflow/go/session.go:209-224 | From the return of a Close without an error on, the C session has been deleted, exactly once, and s.c is nil. |
| `GoSession.TurnedAwayOnlyWhenClosed` | app/src/main/cpp/tensorflow/go/session.go:75-80 | A call is turned away as closed only if some Close has succeeded. |
| `GoSession.CallsCanStart` | app/src/main/cpp/tensorflow/go/session.go:75-95 | Any goroutine may make a call at any time. |
| `GoSession.UseAlone` | app/src/main/cpp/tensorflow/go/session.go:75-95 | A call made while s.c is set enters the C API with the session live and the mutex free, and returns leaving everything as it was. |
| `GoSession.UseAloneWhenClosed` | app/src/main/cpp/tensorflow/go/session.go:75-80 | A call made after a successful Close is turned away. |
| `GoSession.CloseAlone` | app/src/main/cpp/tensorflow/go/session.go:209-224 | From every reachable state with no call in flight, a Close that meets no error passes through TF_CloseSession and TF_DeleteSession and returns with s.c nil. |
| `GoSession.NoDeadlock` | app/src/main/cpp/tensorflow/go/session.go:209-212 | As long as a call is unfinished, some goroutine can move, although Close waits while holding the mutex. |
| `GoSession.AdvanceUsesWork` | app/src/main/cpp/tensorflow/go/session.go:75-95 | Every step of a goroutine reduces the work left, so calls already made end. |
| `GoSession.EveryCallCanFinish` | app/src/main/cpp/tensorflow/go/session.go:209-224 | From every reachable state there is a continuation without new calls and errors in which all calls finish and every Close that was not refused has succeeded. |
| `Downsampling.Image.AverageOf` | app/src/main/cpp/demo/object_tracking/image-inl.h:246-264 | The inner loops compute the truncated average of one block. |
| `Downsampling.BlockAverageTells` | app/src/main/cpp/demo/object_tracking/image-inl.h:246-264 | The average is the block's sum over its number of pixels, rounded down. |
| `Downsampling.Image.DownsampleAveraged` | app/src/main/cpp/demo/object_tracking/image-inl.h:230-267 | Where the scalar loops run, and where the NEON version runs and fits, every output pixel gets its block average and nothing next to the image changes; else the memory is what the NEON version leaves. |
| `Downsampling.Image.DownsampleRow` | app/src/main/cpp/demo/object_tracking/image-inl.h:244-266 | One row of the scalar loops sets the pixels of that row and no other byte. |
| `Downsampling.Image.Downsample2x32ColumnsNeon` | app/src/main/cpp/demo/object_tracking/image_neon.cc:34-93 | The vector loops leave the memory of one tile of 16 output columns, wherever the tile starts; TileAverages says what that is inside the rows. |
| `Downsampling.Image.Downsample4x32ColumnsNeon` | app/src/main/cpp/demo/object_tracking/image_neon.cc:97-157 | Likewise for factor 4 and 8 output columns. |
| `Downsampling.TileAverages` | app/src/main/cpp/demo/object_tracking/image_neon.cc:34-157 | A tile inside the rows sets its columns to the block averages and changes no other byte. |
| `Downsampling.AccumulatedSums` | app/src/main/cpp/demo/object_tracking/image_neon.cc:50-78 | The pairwise accumulation holds the column sums, and no 16-bit lane wraps. |
| `Downsampling.LaneIsAverage2` | app/src/main/cpp/demo/object_tracking/image_neon.cc:80-83 | Shift and saturating narrowing give exactly the block average for factor 2. |
| `Downsampling.LaneIsAverage4` | app/src/main/cpp/demo/object_tracking/image_neon.cc:143-150 | Widening, shift and both narrowings give exactly the block average for factor 4. |
| `Downsampling.Image.DownsampleAveragedNeon` | app/src/main/cpp/demo/object_tracking/image_neon.cc:164-194 | For every width, also the narrow ones, the driver runs the tiles of TileStarts in order. |
| `Downsampling.NeonAverages` | app/src/main/cpp/demo/object_tracking/image_neon.cc:164-194 | With no pixels, or at least 32 source columns, the tiles, the last one shifted left, leave exactly the block averages of the scalar loops and change nothing else, whatever lies around the buffers. |
| `Downsampling.NarrowWritesOutside` | app/src/main/cpp/demo/object_tracking/image_neon.cc:170-193 | In every narrower image the only tile is written to the left of the first pixel. |
| `Downsampling.NeonAgreesExactly` | app/src/main/cpp/demo/object_tracking/image-inl.h:230-239 | The NEON build gives the scalar result for all sources and surroundings if and only if the image has no pixels or at least 32 source columns. |
| `Downsampling.TilesStayInside` | app/src/main/cpp/demo/object_tracking/image_neon.cc:170-193 | All tiles that the driver runs lie inside the rows if and only if there are no columns or at least 32 of them. |
| `Marking.SearchStartIsSafe` | app/src/main/cpp/demo/object_tracking/image_utils.h:65-69 | Starting the width search at r - abs(dy) skips no smaller answer. |
| `Marking.SearchWidth` | app/src/main/cpp/demo/object_tracking/image_utils.h:69-87 | The inner loop finds the least d >= 0 with d^2 + dy^2 >= r^2. |
| `Marking.WidthAntitone` | app/src/main/cpp/demo/object_tracking/image_utils.h:62-63 | Rows further out are no wider, so clamping a row to the border never widens a border row. |
| `Marking.MarkedIsDisc` | app/src/main/cpp/demo/object_tracking/image_utils.h:48-89 | The marked set without any search: the rows within r in which one step towards the centre is inside the circle. |
| `Marking.UnmarkedIsFar` | app/src/main/cpp/demo/object_tracking/image_utils.h:48-89 | Every pixel at distance at most r is marked. |
| `Marking.MarkImage` | app/src/main/cpp/demo/object_tracking/image_utils.h:51-89 | Sets exactly the marked pixels of the image and preserves all others. |
| `KeypointSelection.Detector.SelectKeypointsInBox` | app/src/main/cpp/demo/object_tracking/keypoint_detector.cc:98-150 | The loops over the interest map select exactly the candidates that the greedy function picks. |
| `KeypointSelection.Detector.SelectUncovered` | app/src/main/cpp/demo/object_tracking/keypoint_detector.cc:128-149 | The second loop takes what still fits, in order, up to the cap. |
| `KeypointSelection.Detector.SelectKeypoints` | app/src/main/cpp/demo/object_tracking/keypoint_detector.cc:153-190 | Box by box, with the caps per box and in total, the keypoints are those of the greedy selection. |
| `KeypointSelection.Detector.Mark` | app/src/main/cpp/demo/object_tracking/keypoint_detector.cc:121-146 | Marking one keypoint adds exactly its disc to what the map covers. |
| `KeypointSelection.TruncateTells` | app/src/main/cpp/demo/object_tracking/keypoint_detector.cc:118-119 | A keypoint's pixel drops the fraction of its coordinates. |
| `KeypointSelection.DistanceTells` | app/src/main/cpp/demo/object_tracking/keypoint_detector.cc:110-111 | Keypoints are kept 30 percent of the shorter side apart, the fraction dropped, but at least 1. |
| `KeypointSelection.CapTells` | app/src/main/cpp/demo/object_tracking/keypoint_detector.cc:171-173 | A box may take n more exactly if that makes at most 16 in the box and 76 in all. |
| `KeypointSelection.PicksFit` | app/src/main/cpp/demo/object_tracking/keypoint_detector.cc:136-147 | A picked candidate lies in the box on a valid pixel and outside the discs of all earlier marks; picks go upwards. |
| `KeypointSelection.PicksComplete` | app/src/main/cpp/demo/object_tracking/keypoint_detector.cc:130-148 | A candidate that still fits is passed over only if the cap was reached. |
| `KeypointSelection.SelectionSound` | app/src/main/cpp/demo/object_tracking/keypoint_detector.cc:153-190 | For any boxes: at most 76 keypoints, no candidate twice, and all on valid pixels, so later marking is in range. |
| `KeypointSelection.NewKeypointsSpaced` | app/src/main/cpp/demo/object_tracking/keypoint_detector.cc:110-147 | A new keypoint is further than the box's distance from every other keypoint in the box, old or new. |
| `KeypointSelection.NoCandidatePassedOver` | app/src/main/cpp/demo/object_tracking/keypoint_detector.cc:128-149 | Each valid candidate in a box is selected, or near a selected keypoint of the box, or the box holds 16 or all boxes 76. |
| `FastDetector.TestCircle` | app/src/main/cpp/demo/object_tracking/keypoint_detector.cc:202-271 | For every threshold up to the perimeter the result is the signed sum of the first circular window of consecutive pixels all above or all below the limit, and 0 exactly if there is none. |
| `FastDetector.ScoreTells` | app/src/main/cpp/demo/object_tracking/keypoint_detector.cc:192-195 | A score is nonzero exactly if a window exists, and its sign tells which kind. |
| `FastDetector.SumTells` | app/src/main/cpp/demo/object_tracking/keypoint_detector.cc:233-253 | The sum is over consecutive positions, around the end of the circle if need be. |
| `FastDetector.FirstWindow` | app/src/main/cpp/demo/object_tracking/keypoint_detector.cc:241-253 | The run that first reaches the threshold is the first window. |
| `FastDetector.AbortIsSafe` | app/src/main/cpp/demo/object_tracking/keypoint_detector.cc:261-265 | When the walk is abandoned early there is no window at all. |
| `FastDetector.PrefilterIsLossless` | app/src/main/cpp/demo/object_tracking/keypoint_detector.cc:423-428 | A pixel that passes the 12-of-16 test passes the 3-of-4 compass test. |
| `FastDetector.FullCircleIs` | app/src/main/cpp/demo/object_tracking/keypoint_detector.cc:434-441 | The pixels of the full circle are at a squared distance of 8 to 10. |
| `FastDetector.FullCircleIsConnected` | app/src/main/cpp/demo/object_tracking/keypoint_detector.cc:434-441 | Each is a neighbour of the one before it, all around. |
| `FastDetector.FullCircleHasAll` | app/src/main/cpp/demo/object_tracking/keypoint_detector.cc:434-441 | Every pixel at such a distance is on the circle. |
| `FastDetector.ShortCircleIs` | app/src/main/cpp/demo/object_tracking/keypoint_detector.cc:423-428 | The short circle is the compass points at distance 3, each a quarter turn after the one before. |
| `FastDetector.FiredTells` | app/src/main/cpp/demo/object_tracking/keypoint_detector.cc:469-479 | A corner, written out: twelve circle pixels in a row are all more than 10 brighter, or all more than 10 darker, than the centre. |
| `FastDetector.OffsetsReachCircle` | app/src/main/cpp/demo/object_tracking/keypoint_detector.cc:430-448 | The flat offsets reach exactly the circle's pixels, inside the image. |
| `FastDetector.TestPixel` | app/src/main/cpp/demo/object_tracking/keypoint_detector.cc:469-479 | Both tests together decide whether the pixel is a corner. |
| `FastDetector.QuadrantFarFromEdge` | app/src/main/cpp/demo/object_tracking/keypoint_detector.cc:454-462 | Every tested pixel is at least 10 pixels inside the image. |
| `FastDetector.QuadrantIs` | app/src/main/cpp/demo/object_tracking/keypoint_detector.cc:454-462 | Each quadrant is a half by a half of the frame, 10 pixels in from its edge, in the numbering of the source. |
| `FastDetector.FourCallsCoverOnce` | app/src/main/cpp/demo/object_tracking/keypoint_detector.cc:527-546 | Any four consecutive calls test each pixel of the bordered region exactly once, and no other. |
| `FastDetector.Scatter` | app/src/main/cpp/demo/object_tracking/keypoint_detector.cc:480-488 | A corner adds 5 to its own score and 1 to its four neighbours', and nothing else changes. |
| `FastDetector.ScanRow` | app/src/main/cpp/demo/object_tracking/keypoint_detector.cc:466-493 | One row of the first pass adds the shares of its corners. |
| `FastDetector.FirstPass` | app/src/main/cpp/demo/object_tracking/keypoint_detector.cc:450-494 | For every image the score map is 5 for a corner plus the number of corner neighbours in the quadrant. |
| `FastDetector.ScoreThreshold` | app/src/main/cpp/demo/object_tracking/keypoint_detector.cc:499-505 | A score never reaches 256, and is at least 8 exactly for corners with three or more corner neighbours. |
| `IntegralImages.IntegralImage.Recompute` | app/src/main/cpp/demo/object_tracking/integral_image.h:38-74 | After the two passes every entry is the true prefix sum modulo 2^32. |
| `IntegralImages.RegionFromPrefixes` | app/src/main/cpp/demo/object_tracking/integral_image.h:104-142 | A region's sum by inclusion and exclusion of prefix sums. |
| `IntegralImages.IntegralImage.RegionSumIsTrueSum` | app/src/main/cpp/demo/object_tracking/integral_image.h:108-146 | All four branches give the region's true sum modulo 2^32, and the sum itself whenever it is below 2^32, even from wrapped entries. |
| `IntegralImages.IntegralImage.DifferenceTells` | app/src/main/cpp/demo/object_tracking/integral_image.h:79-93 | Given right earlier entries, an entry's difference is the pixel exactly if the entry is right. |
| `IntegralImages.IntegralImage.VerifyData` | app/src/main/cpp/demo/object_tracking/integral_image.h:76-106 | Returns true if and only if the table is the integral image of the picture, so always after Recompute; the second comparison holds at every pixel of every table. |
| `Pyramids.CopyIsAverage` | app/src/main/cpp/demo/object_tracking/image-inl.h:630-640 | The copying shortcut for an unscaled frame equals averaging blocks of one pixel. |
| `Pyramids.LevelSpelledOut` | app/src/main/cpp/demo/object_tracking/image_data.h:134-161 | Levels pixel by pixel: the frame, its interpolation, and from level 2 on the average of four pixels two levels up. |
| `Pyramids.GradientSpelledOut` | app/src/main/cpp/demo/object_tracking/image_data.h:163-185 | The x image holds x derivatives and the y image y derivatives, row by row. |
| `Pyramids.AnswersFromBase` | app/src/main/cpp/demo/object_tracking/image_data.h:134-197 | Until the next frame every answer is the level, derivative or region sum of the base image. |
| `Pyramids.AnswersFromLatestFrame` | app/src/main/cpp/demo/object_tracking/image_data.h:94-118 | Whatever came before, answers are those of the latest frame, averaged down to the base image. |
| `Pyramids.LevelAgreesExactly` | app/src/main/cpp/demo/object_tracking/image_data.h:149-156 | A pyramid level from 2 on is filled alike with and without NEON if and only if it has no rows, no source columns or at least 32 source columns. |
| `Pyramids.NeonLevelsAgreeExactly` | app/src/main/cpp/demo/object_tracking/image_data.h:134-161 | All averaged levels of a frame size are filled alike in both builds if and only if each of them is wide enough. |
| `Pyramids.SmallFrameDisagrees` | app/src/main/cpp/demo/object_tracking/image_data.h:149-156 | A frame of 64 by 64 pixels is too narrow: level 6 is averaged from 16 columns, and the builds differ. |
| `ImageDataCache.ImageData.ResetComputationCache` | app/src/main/cpp/demo/object_tracking/image_data.h:46-55 | The loop clears every computed flag. |
| `ImageDataCache.ImageData.SetData` | app/src/main/cpp/demo/object_tracking/image_data.h:94-118 | The base image becomes the downsampled new frame, and nothing computed from an earlier one counts as computed. |
| `ImageDataCache.ImageData.FromArray` | app/src/main/cpp/demo/object_tracking/image-inl.h:630-640 | Copying an unscaled frame, or the scalar or NEON downsampling, fills the base image with the block averages. |
| `ImageDataCache.ImageData.AverageLevel` | app/src/main/cpp/demo/object_tracking/image_data.h:149-156 | Runs the scalar or NEON downsampling on the image two levels up; the level then holds its block averages. |
| `ImageDataCache.ImageData.GetPyramidSqrt2Level` | app/src/main/cpp/demo/object_tracking/image_data.h:134-161 | Returns the level of the current frame, by recursion two levels up, in both builds (with NEON, for levels that fit); level 0 is the base image itself; images are allocated once and never shared. |
| `ImageDataCache.ImageData.GetSpatialX` | app/src/main/cpp/demo/object_tracking/image_data.h:163-173 | Returns the x derivative of the current frame's level. |
| `ImageDataCache.ImageData.GetSpatialY` | app/src/main/cpp/demo/object_tracking/image_data.h:175-185 | Returns the y derivative of the current frame's level. |
| `ImageDataCache.ImageData.GetIntegralImage` | app/src/main/cpp/demo/object_tracking/image_data.h:187-197 | Returns an integral image of the current frame, created on first use and recomputed in place when stale. |
| `ImageDataCache.ImageData.Serve` | app/src/main/cpp/demo/object_tracking/image_data.h:94-197 | Each request is answered as if nothing were cached; a NEON build is asked only for levels it fills correctly, which NeonLevelsAgreeExactly shows to be the exact limit. |
| `ImageDataCache.ImageData.ServeAll` | app/src/main/cpp/demo/object_tracking/image_data.h:46-197 | For every sequence of such frames and requests, in any order, all answers equal the pure functions of the latest frame. |
| `Varints.EncodeVarint64` | app/src/main/cpp/tensorflow/core/lib/core/coding.cc:110-119 | Writes exactly the base-128 encoding and nothing else. |
| `Varints.VarintLength` | app/src/main/cpp/tensorflow/core/lib/core/coding.cc:127-134 | The length of that encoding. |
| `Varints.LengthTells` | app/src/main/cpp/tensorflow/core/lib/core/coding.cc:127-134 | k bytes are enough exactly for values below 128^k. |
| `Varints.AtMostTenBytes` | app/src/main/cpp/tensorflow/core/lib/core/coding.cc:121-125 | Every 64-bit value takes at most ten bytes. |
| `Varints.GetVarint64Ptr` | app/src/main/cpp/tensorflow/core/lib/core/coding.cc:166-181 | Reads the varint that ends within ten bytes and the limit, modulo 2^64, or reports that there is none. |
| `Varints.VarintReadsBack` | app/src/main/cpp/tensorflow/core/lib/core/coding.cc:110-119 | An encoding has the value it encodes. |
| `Varints.ParseReadsBack` | app/src/main/cpp/tensorflow/core/lib/core/coding.cc:166-181 | Reading at the start of an encoding, whatever follows it, returns the value and stops at its end. |
| `Varints.ParseShifts` | app/src/main/cpp/tensorflow/core/lib/core/coding.cc:166-181 | What stands before the starting point has no influence. |
| `StringTensors.StringEncode` | app/src/main/cpp/tensorflow/c/c_api.cc:243-259 | Refuses sizes that wrap and buffers that are too small; otherwise writes the length and the bytes, and nothing else. |
| `StringTensors.StringEncodedSize` | app/src/main/cpp/tensorflow/c/c_api.cc:284-286 | The encoded size in unsigned 64-bit arithmetic. |
| `StringTensors.FirstPass` | app/src/main/cpp/tensorflow/c/c_api.cc:445-452 | The first pass finds the exact size, without wrapping. |
| `StringTensors.TensorFromTensor` | app/src/main/cpp/tensorflow/c/c_api.cc:435-471 | The second pass fills the buffer to the last byte with the encoding; no string is refused. |
| `StringTensors.EncodeElement` | app/src/main/cpp/tensorflow/c/c_api.cc:461-470 | One round writes one offset and one string and leaves what was written before. |
| `StringTensors.OffsetsIncrease` | app/src/main/cpp/tensorflow/c/c_api.cc:461-470 | Offsets strictly increase and stay below the size of the data. |
| `StringTensors.DecodeElement` | app/src/main/cpp/tensorflow/c/c_api.cc:417-430 | One element as written: signed range check at the end only, varint up to the end of the tensor, bytes without a limit. |
| `StringTensors.TensorToTensor` | app/src/main/cpp/tensorflow/c/c_api.cc:397-432 | Over any memory around the tensor: too short, or element by element up to the first one that is out of range, malformed, or read from where there is no memory. |
| `StringTensors.DecodingTells` | app/src/main/cpp/tensorflow/c/c_api.cc:417-431 | Decoding returns all values in order, or names the first element that has none and why. |
| `StringTensors.ElementTells` | app/src/main/cpp/tensorflow/c/c_api.cc:417-430 | When an element is out of range, has a bad length, is read from outside memory, or has a value, by positions alone. |
| `StringTensors.SignedTells` | app/src/main/cpp/tensorflow/c/c_api.cc:420 | An offset is compared as the same 64 bits read as a signed number. |
| `StringTensors.EntryBytes` | app/src/main/cpp/tensorflow/c/c_api.cc:418-419 | Table entries are least significant byte first. |
| `StringTensors.DeterminedExactlyWhenContained` | app/src/main/cpp/tensorflow/c/c_api.cc:417-430 | For every tensor and element count: the result is the same whatever surrounds the tensor if and only if each element that is reached and passes the range check starts in the tensor and is no longer than what is left. |
| `StringTensors.LengthPastTheEnd` | app/src/main/cpp/tensorflow/c/c_api.cc:424-430 | A length of 5 with nothing behind it: decoding succeeds with the five bytes after the tensor. |
| `StringTensors.OffsetBeforeTheTensor` | app/src/main/cpp/tensorflow/c/c_api.cc:420-430 | An offset of -9 passes the range check: the string starts with the byte before the tensor. |
| `StringTensors.EncodedIsContained` | app/src/main/cpp/tensorflow/c/c_api.cc:435-471 | Every encoded tensor meets that condition. |
| `StringTensors.ElementReadsBack` | app/src/main/cpp/tensorflow/c/c_api.cc:417-430 | In an encoded tensor every offset passes the range check and its element decodes to the string. |
| `StringTensors.RoundTrip` | app/src/main/cpp/tensorflow/c/c_api.cc:397-470 | For every list of byte strings, decoding the encoded tensor returns the list, wherever it lies in memory. |
| `GraphLifetime.RunInv` | app/src/main/cpp/tensorflow/c/c_api_internal.h:74-80 | Over all interleavings that keep the client rule, num_sessions counts the sessions held or owed and at most one thread is to free the graph. |
| `GraphLifetime.FreedAtMostOnce` | app/src/main/cpp/tensorflow/c/c_api.cc:1577-1583 | The graph is freed at most once. |
| `GraphLifetime.NeverFreedInUse` | app/src/main/cpp/tensorflow/c/c_api.cc:2205-2217 | It is not freed while the client holds a session or any call will still touch the graph or its mutex. |
| `GraphLifetime.FreedWhenFinished` | app/src/main/cpp/tensorflow/c/c_api.cc:1577-1583 | When all calls have finished, it has been freed exactly once if deletion was requested and no session is left, and not at all otherwise. |
| `GraphLifetime.NobodyElse` | app/src/main/cpp/tensorflow/c/c_api.cc:2208-2213 | At the moment one thread decides to free the graph, no other can touch it again. |
| `GraphCalls.NewAlone` | app/src/main/cpp/tensorflow/c/c_api.cc:2122-2136 | From every reachable state, TF_NewSession without interference counts one more session and hands it over, or fails and changes nothing. |
| `GraphCalls.DropAlone` | app/src/main/cpp/tensorflow/c/c_api.cc:2205-2217 | TF_DeleteSession without interference counts one less, and frees the graph exactly if deletion was requested and that was the last. |
| `GraphCalls.DeleteAlone` | app/src/main/cpp/tensorflow/c/c_api.cc:1577-1583 | TF_DeleteGraph without interference notes the request, and frees the graph exactly if no session is counted. |
| `GraphCalls.UseAlone` | app/src/main/cpp/tensorflow/c/c_api.cc:2222-2228 | Work on the graph through a held session changes none of this. |
| `GraphSafety.EndangeredExactly` | app/src/main/cpp/tensorflow/c/c_api.cc:2205-2217 | In every run of any clients, with or without the rule: a state is endangered (a check on sessions and pending calls) if and only if some continuation without new calls frees the graph while a session or a call still refers to it. |
| `GraphSafety.CarefulRunsAreSafe` | app/src/main/cpp/tensorflow/c/c_api.cc:1577-1583 | If no call is made that leads to an endangered state, the graph is never freed while anything refers to it, in any interleaving. |
| `GraphSafety.RuleIsCareful` | app/src/main/cpp/tensorflow/c/c_api.cc:1577-1583 | Runs under the client rule never enter an endangered state. |
| `GraphSafety.HeldSessionIsEnough` | app/src/main/cpp/tensorflow/c/c_api.cc:2205-2217 | The rule is not necessary: while the client keeps a session, another TF_DeleteGraph or TF_NewSession cannot lead to a freed graph in use, even after a request to delete. |
| `GraphSafety.OverlapIsUnsafe` | app/src/main/cpp/tensorflow/c/c_api.cc:2122-2131 | A run in which TF_NewSession overlaps the deletion and is about to lock the mutex of a freed graph. |
| `GraphSafety.LaterCallIsUnsafe` | app/src/main/cpp/tensorflow/c/c_api.cc:2122-2131 | Runs in which a new session, or a second request, comes after the graph was freed. |
| `GraphSafety.TwoRequestsAreUnsafe` | app/src/main/cpp/tensorflow/c/c_api.cc:1577-1583 | A run in which two overlapping requests leave one about to lock the mutex of a freed graph. |
| `GraphSafety.NoDeadlock` | app/src/main/cpp/tensorflow/c/c_api.cc:2205-2217 | In every run, as long as a call is unfinished some thread can move. |
| `GraphSafety.AdvanceUsesWork` | app/src/main/cpp/tensorflow/c/c_api.cc:2205-2217 | Every step of a thread reduces the work left, so calls already made end. |
| `GraphSafety.EveryCallCanFinish` | app/src/main/cpp/tensorflow/c/c_api.cc:2205-2217 | From every reachable state there is a continuation without new calls in which all calls finish; FreedWhenFinished says what it leaves. |
| `SessionExtend.CollectNodes` | app/src/main/cpp/tensorflow/c/c_api.cc:2234-2240 | The loop collects the live op nodes from the session's mark on, in id order. |
| `SessionExtend.AddNodeKeeps` | app/src/main/cpp/tensorflow/c/c_api.cc:1095-1126 | Names stay unique and sessions and older nodes as they were; only a node that is added gets a new id and its name, and a duplicate, refused or removed one changes no name. |
| `SessionExtend.RunInv` | app/src/main/cpp/tensorflow/c/c_api.cc:2219-2256 | After any sequence of additions, snapshots and answers of the runtime, names map one-to-one to live nodes and every session has been sent the live op nodes below its mark. |
| `SessionExtend.SentExactlyOnce` | app/src/main/cpp/tensorflow/c/c_api.cc:2219-2256 | A session has been sent exactly the live op nodes with ids below last_num_graph_nodes, in id order and so once each. |
| `SessionExtend.NamesSentOnce` | app/src/main/cpp/tensorflow/c/c_api.cc:1100-1102 | The runtime never sees a name twice. |
| `SessionExtend.FailedExtendLosesNothing` | app/src/main/cpp/tensorflow/c/c_api.cc:2243-2250 | A refused Extend leaves the session as it was, whatever others did meanwhile. |
| `SessionExtend.SuccessCatchesUp` | app/src/main/cpp/tensorflow/c/c_api.cc:2227-2250 | Whatever failed before, the next Extend that succeeds brings the session up to its snapshot, with nothing lost or repeated. |
| `SessionExtend.FirstExtendSendsEverything` | app/src/main/cpp/tensorflow/c/c_api.cc:2219-2256 | A session starts with nothing sent, and its first Extend that succeeds sends every live op node of its snapshot. |
| `SessionExtend.AddedNodeIsSent` | app/src/main/cpp/tensorflow/c/c_api.cc:1095-1126 | A node that has been added reaches every session with its next Extend that succeeds. |
| `SessionExtend.DeletedSessionIsGone` | app/src/main/cpp/tensorflow/c/c_api.cc:2205-2217 | A session with nothing on its way can be deleted, and all else stays. |

## Left out

- DeviceOccupancy.OptimalExactlyWhenExhaustive: warp size and granularity below 2^30, because its counterexamples are devices whose register limit must fit a 32-bit int; the direction callers rely on, SearchIsOptimalWhenExhaustive, has no such bound.
- DeviceOccupancy.ZeroStepFails: warp size below 2^30, for the same reason.
- DeviceOccupancy.SkippedBucketFails: warp size and granularity below 2^30, for the same reason.
- WeightedMedian.QSort: the library sort is modelled by its contract, with a short insertion sort as its body.
- FramePairs.GetWeightedMedian: the static sort buffer is allocated per call, because all of it is overwritten before it is read.
- TensorLayout.BatchDescriptor.ComputeFullStrides: the abort for the layout kBatchDepthYX4 is a precondition.
- StringTensors.TensorFromTensor: tensors up to the largest object a pointer difference can span; the shape is only its number of elements, and the loop index is not limited to 31 bits.
- StringTensors.FirstPass: the same bound on the total size.
- StringTensors.TensorToTensor: a read from an address without memory ends the call (`Crash`), and copying a string never runs out of memory; the test for 32-bit sizes cannot fire with a 64-bit size_t.
- IntegralImages.IntegralImage.Recompute: the first row's signed sum is an unbounded integer (it overflows only for rows of more than eight million pixels).
- Floating-point rounding, infinities and NaN: boxes, weights, deltas and flow are exact reals, and a ratio with a zero denominator lets the other axis decide, as an infinity would.
- Keypoint detection and optical flow inside NextFrame: each frame brings its correspondences as a parameter; image swapping and time logs are not modelled.
- Tracker.ObjectTracker.NextFrame: detection on every fourth frame, which can place and add objects, is left out.
- Tracker.ObjectTracker.TrackObjects: the removal of objects at the end of the loop is left out.
- Detections, object models, correlation scores and automatic removal of objects.
- FindFlowAtPoint's refinement below the cache, GetMedianFlow and the success flag of a single-level flow, which the cache ignores; the single-level flow is any deterministic function that is the same for the whole frame.
- FlowCache's images per level are the layers of one three-dimensional array, so that levels being separate objects is not part of the model.
- Downsampling.Image.DownsampleAveragedNeon: source and destination are separate memories, so what is written next to an image never reaches the source; vector loads and stores are functions on sequences of bytes.
- DownsampleInterpolateLinear, the derivatives and the rounding of sqrt(2) sizes inside ImageData: any functions of the image they are given.
- ImageDataCache.ImageData.SetData: the U and V planes and their flag are left out.
- ImageDataCache.ImageData.ResetComputationCache: likewise.
- The second FAST pass, which reads the score map one pixel to the left of its column, scoring, sorting, and AddExtraCandidatesForBoxes, which fills a copy that is lost.
- Counters that only grow (frame numbers, numbers of sessions) are unbounded; 64-bit overflow in dnn.cc is not modelled; CalculateDimensionality and ThreadDimOk are left out, being single divisions and comparisons.
- GraphLifetime and GoSession take a critical section's body as one action and know nothing of weak memory; sessions without a graph and loading a saved model are left out.
- SessionExtend: node building, shape inference and the runtime are steps that succeed or fail; importing graphs, while loops and gradients, which also add nodes, are left out, as are sessions from a saved model, whose mark starts later.
- The Go tensor conversions, protocol buffers, JNI, drawing, colour conversion and plumbing.
