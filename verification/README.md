# Verified model of the NVMM pipeline's host-side algorithms

A Dafny model of the algorithmic cores of a GStreamer plug-in set for NVIDIA surfaces: how a
producer and its consumers share a pool of GPU buffers without copying, and the detection,
tracking, registration and file-format code around it. Each core is modelled in the form the
code has (classes with the code's fields, loops over arrays, atomic accesses) and proved
against a specification that is then shown to have the property the code is for.

`dafny verify dfyconfig.toml` checks everything.

| files | what they model |
|---|---|
| SlotProtocol, SlotRuns, SlotOrigins, SlotStarvation, SlotThreads | the slot protocol of nvmmsink and nvmmappsrc: the state machine of atomic header accesses, its invariant, theorems about whole runs, where a delivered slot comes from, and render, create and stop as loops with other threads acting before every access |
| Complex, Dft, FftSpec, Fft, FftShift, Fft2d, CorrelationPeak | the in-place radix-2 FFT in one and two dimensions, its inversion, the shift theorem, and the half swap of the correlation surface |
| Proximity, UnionFind, Clustering | union-find clustering of moving keypoints against connected components |
| Reals, Cholesky, AxisFilter, KalmanBox, AxisLaws | the 8x8 Kalman filter and its Cholesky solve as four two-state filters, and what holds of those whatever their formulas |
| Morphology, BoxSum | the integral-image closing with 32-bit wrap-around |
| Association, MovingLock, GateTracks, PersistenceGate, DetGate | the two track-before-detect gates, with the history each track was built from and the trail of the locked scan |
| Assignments, PersistenceHistories, DetGateHistories | what the gates do, said of the histories alone |
| SkippedFrames, PersistenceSkips, DetGateSkips | when the support behind a confirmation is consecutive |
| Boxes, BoxCells, Labels, Tracker, YoloNms | the IOU tracker and the detection parser with greedy suppression |
| Fusion | the join of two streams by time stamp |
| ConstsFormat | the constants file, writer and reader |
| MemoryRing, Selection, Samurai | the mask tracker: its memory rings, the choice among mask candidates, and both with the filter in one object |
| Options, Sequences | small shared definitions |

How the outside world enters the model:

- Real numbers are exact. Square roots and the unit circle are function parameters of which only
  `IsSqrt` and `IsUnitCircle` are assumed; hypot is replaced by comparing squares, which
  `WithinIsCloser` and `MovesIsRootComparison` justify.
- `std::sort` leaves ties in any order, so the model takes an arbitrary sorted result, and every
  theorem holds for each of them.
- Engine outputs, images, detections, motion samples and arrival order are arbitrary inputs.
- A surface copy is any number of arbitrary changes to the pixels of the locked slot.
- The slot machine assumes that header accesses are sequentially consistent. The code stores
  `write_idx`, `timestamp_ns` and `frame_number` through plain volatile fields and unlocks with
  `__sync_lock_test_and_set`, which is only an acquire barrier, so on a machine that reorders stores
  the theorems speak of the program with stronger accesses in their place.

Where the code and what is said about it differ, the model follows the code:

- gst/common/shm_protocol.h:16-18 says RELEASE_DELAY + 1 slots are enough for a steady reader. They
  are enough between calls of create, but during a call the consumer has one more reference:
  `MinimumPoolCanDrop` gives a run that drops a frame with 13 slots, and
  `OneConsumerNeverStarvesLargerPool` shows 14 are enough.
- gst/nvmmsink/gstnvmmsink.cpp:366 sets the producer's own `write_idx` to 0 and nothing advances it, so
  every scan starts at slot 1.
- Frame numbers start at 0 and a consumer starts with last number 0, so frame 0 is never delivered
  by itself: `SlotRuns.NumbersInEveryRun` shows that every number a consumer records is positive.
- analytics/persistence_gate.hpp:20 and :26 and gst/nvmmdetgate/detgate.hpp:42 promise support in
  consecutive frames. The counter is not reset by a missed frame, so it counts consecutive detections
  of the track. `PersistenceSkips.ConsecutiveExactly` and `DetGateSkips.ConsecutiveExactly` give the
  exact condition on the parameters, and the two `GapRun` lemmas a failing run for all others.
- analytics/persistence_gate.hpp:80-91 and gst/nvmmdetgate/detgate.hpp:148-164 move the lock inside
  the scan, so the detection returned need not be the nearest to the old lock
  (`FollowCanMissTheNearest`) or within its reach (`FollowCanLeaveTheLimit`).
  `MovingLock.ReturnsNearest` says exactly when it is a nearest one, and `ReturnsEndOfTrail` what it is
  in general.
- gst/nvmmsamurai/samurai_consts.hpp:43 stores a 32-bit unsigned dimension in an int, so shapes
  survive a round trip exactly when every dimension is below 2^31.

## Model

| member | source | states |
|---|---|---|
| SlotProtocol.StartState | gst/nvmmsink/gstnvmmsink.cpp:345-366 | a zeroed header with any number of stopped consumers is an initial state |
| SlotProtocol.InitInv | gst/nvmmsink/gstnvmmsink.cpp:345-366 | the header as start leaves it satisfies the global invariant |
| SlotProtocol.StepInv | gst/nvmmappsrc/gstnvmmappsrc.cpp:376-396 | every atomic step of the producer and of every consumer keeps the invariant: a count is -1 under the producer's lock with no reference outstanding, and otherwise the exact number of references in all release rings and acquisitions in flight |
| SlotRuns.CountsAreExactInEveryRun | gst/nvmmappsrc/gstnvmmappsrc.cpp:376-396 | in every state of every run a slot's count is -1 exactly when the producer has it locked, then no consumer holds it, and otherwise it equals the references all consumers hold |
| SlotRuns.StoppedHoldsNothing | gst/nvmmappsrc/gstnvmmappsrc.cpp:292-303 | a consumer that has stopped holds no reference on any slot |
| SlotRuns.HeldPixelsAreStable | gst/nvmmsink/gstnvmmsink.cpp:434-459 | over every interleaving, the pixels of a slot do not change while one consumer holds it |
| SlotRuns.PinnedIsHeld | gst/nvmmappsrc/gstnvmmappsrc.cpp:390-396 | each of a consumer's last 12 deliveries is a slot it holds a reference on |
| SlotRuns.ReturnedIsTwelfthBefore | gst/nvmmappsrc/gstnvmmappsrc.cpp:390-396 | the reference given back at a delivery is the one taken 12 deliveries earlier, and none before that |
| SlotRuns.PinEndsOnlyByReturnOrStop | gst/nvmmappsrc/gstnvmmappsrc.cpp:385-393 | a delivery stays pinned through every step of anyone except this consumer's own return of it 12 deliveries later or its stop |
| SlotRuns.DeliveryKeepsItsPixels | gst/nvmmsink/gstnvmmsink.cpp:434-459 | from the acquiring compare-and-swap until the matching decrement the pixels of a delivered slot are those of the first moment |
| SlotRuns.NumbersInEveryRun | gst/nvmmsink/gstnvmmsink.cpp:474-478 | published frames are numbered 0, 1, 2, ... whatever was dropped or failed in between, the published index is in the pool, and the numbers each consumer records rise strictly |
| SlotRuns.ScanVisits | gst/nvmmsink/gstnvmmsink.cpp:435-441 | the scan reaches every pool index |
| SlotRuns.ScanVisitsOnce | gst/nvmmsink/gstnvmmsink.cpp:435-441 | and no index twice |
| SlotRuns.ScanFindsFreeSlot | gst/nvmmsink/gstnvmmsink.cpp:434-446 | a slot that stays at 0 for the whole scan makes the scan succeed, however the consumers interleave |
| SlotRuns.IdleConsumerNeverStarvesProducer | gst/nvmmsink/gstnvmmsink.cpp:434-446 | with one consumer between calls and any number of stopped ones, every allowed pool gives the scan a free slot: no frame is dropped |
| SlotRuns.OneConsumerNeverStarvesLargerPool | gst/common/shm_protocol.h:16-19 | with one running consumer in any interleaving, and any number of stopped ones, a pool of at least 14 slots never drops a frame |
| SlotStarvation.MinimumPoolCanDrop | gst/common/shm_protocol.h:16-19 | with the minimum of 13 slots and a consumer inside create some run does drop a frame, so 14 is exact |
| SlotOrigins.AcquiredWasNamed | gst/nvmmappsrc/gstnvmmappsrc.cpp:355-387 | in every run, what a consumer takes a reference on is the index the header named in some state of this fetch, between its index load and its compare-and-swap |
| SlotOrigins.IndexIsFilled | gst/nvmmsink/gstnvmmsink.cpp:434-475 | in every run, once a frame number is out the published index is a slot that the producer locked, filled by a successful transform and unlocked in this run |
| SlotOrigins.TakenWasFilled | gst/nvmmappsrc/gstnvmmappsrc.cpp:355-387 | in every run, every slot in a consumer's history was taken by one step of that consumer, when it had been filled and then named by the header during that fetch |
| SlotThreads.Scan | gst/nvmmsink/gstnvmmsink.cpp:434-446 | the scan loop, with other threads acting before every access: it ends with the lock on the returned slot or with exactly one drop recorded |
| SlotThreads.Transform | gst/nvmmsink/gstnvmmsink.cpp:448-456 | the copy is any number of writes to the locked slot with other threads acting in between; the lock stays and nothing is published |
| SlotThreads.Publish | gst/nvmmsink/gstnvmmsink.cpp:448-478 | transform, unlock and stores: the outcome is Failed exactly when the transform fails and otherwise takes the next number |
| SlotThreads.Announce | gst/nvmmsink/gstnvmmsink.cpp:474-478 | the header stores in code order end in one new published frame |
| SlotThreads.Render | gst/nvmmsink/gstnvmmsink.cpp:418-481 | a call of render is a run of the machine that adds exactly one outcome and uses up a number only when it publishes |
| SlotThreads.Source.Poll | gst/nvmmappsrc/gstnvmmappsrc.cpp:342-351 | the wait loop leaves only on a frame number other than the last one, or gives up |
| SlotThreads.Source.Acquire | gst/nvmmappsrc/gstnvmmappsrc.cpp:376-387 | the compare-and-swap loop returns a slot on which its last step gave this consumer one more reference, or nothing |
| SlotThreads.Source.ReturnOldest | gst/nvmmappsrc/gstnvmmappsrc.cpp:390-393 | gives back the reference at the ring head and nothing else |
| SlotThreads.Source.StoreNewest | gst/nvmmappsrc/gstnvmmappsrc.cpp:394-396 | the new reference replaces the ring head's entry and the head advances modulo 12 |
| SlotThreads.Source.Stamp | gst/nvmmappsrc/gstnvmmappsrc.cpp:408-416 | the number recorded is newer than the one recorded before |
| SlotThreads.Source.Create | gst/nvmmappsrc/gstnvmmappsrc.cpp:332-420 | a successful create adds one slot, which is held and pinned on return, and one strictly newer frame number; the slot was filled by a successful transform and then named by the header during this create; an unsuccessful one changes nothing this consumer owns |
| SlotThreads.Source.Stop | gst/nvmmappsrc/gstnvmmappsrc.cpp:291-303 | after stop this consumer holds nothing on any slot |
| Dft.SplitCoefficient | gst/common/phase_correlation.hpp:109-117 | a coefficient is that of the even samples plus the twiddled one of the odd samples |
| Dft.Butterflies | gst/common/phase_correlation.hpp:111-116 | one butterfly yields outputs k and k + n/2 of the transform |
| Dft.GeometricZero | gst/common/phase_correlation.hpp:106-108 | the powers of a root of unity other than 1 sum to zero |
| Dft.InverseTransform | gst/common/phase_correlation.hpp:98-119 | transforming back with the inverse root gives n times the input |
| FftSpec.Involution | gst/common/phase_correlation.hpp:100-105 | bit reversal is its own inverse |
| FftSpec.IncrementReverses | gst/common/phase_correlation.hpp:100-103 | the carry loop steps from the reversal of i to the reversal of i + 1 |
| FftSpec.ReversedAt | gst/common/phase_correlation.hpp:100-105 | the repeated even/odd split moves the value at the reversed index to each place |
| FftSpec.PartialStart | gst/common/phase_correlation.hpp:100-105 | after the swaps the array holds the transforms of length one |
| FftSpec.PassMerges | gst/common/phase_correlation.hpp:106-118 | each stage merges pairs of half-size transforms into transforms of twice the size |
| Fft.NextReversed | gst/common/phase_correlation.hpp:101-103 | the inner bit loop computes the reversed increment |
| Fft.BitReversePermute | gst/common/phase_correlation.hpp:100-105 | the swap loop puts a[reverse of i] at i, in place, and touches nothing else |
| Fft.ButterflyBlock | gst/common/phase_correlation.hpp:110-116 | one block in place, with the twiddle factor built up by multiplication |
| Fft.ButterflyPass | gst/common/phase_correlation.hpp:109-117 | one stage over all blocks, in place |
| Fft.Fft1d | gst/common/phase_correlation.hpp:99-119 | for every power of two the array slice becomes its discrete Fourier transform, clockwise forward and counter-clockwise for the inverse |
| Fft.ForwardThenInverse | gst/common/phase_correlation.hpp:98-119 | forward and then unscaled inverse is n times the input |
| FftShift.ShiftTheorem | gst/common/phase_correlation.hpp:98-119 | moving the samples round by s places multiplies output k by the s-th power of the k-th power of the root, in either direction |
| FftShift.ShiftKeepsMagnitude | gst/common/phase_correlation.hpp:98-119 | so a shift shows in the phases alone |
| Fft2d.Commute | gst/common/phase_correlation.hpp:121-128 | transforming rows and transforming columns commute |
| Fft2d.Fft2d | gst/common/phase_correlation.hpp:121-128 | the flat buffer becomes the two-dimensional transform of the image it held |
| Fft2d.ForwardThenInverse2 | gst/common/phase_correlation.hpp:121-128 | forward and then unscaled inverse is width times height times the image |
| CorrelationPeak.HalfSwap | gst/common/phase_correlation.hpp:17-22 | the swap loops exchange every quadrant with the opposite one, in place, for even dimensions |
| CorrelationPeak.HalfSwapTwice | gst/common/phase_correlation.hpp:15-22 | doing it twice gives the surface back |
| UnionFind.Find | gst/common/xfeat_motion.hpp:217 | terminates under path halving, returns the representative and keeps the partition |
| UnionFind.Unite | gst/common/xfeat_motion.hpp:218 | merges exactly the two classes |
| UnionFind.UniteNear | gst/common/xfeat_motion.hpp:219-223 | after the pair loop two points have the same representative exactly when a chain of steps within one cell joins them |
| UnionFind.RootsAreComponents | gst/common/xfeat_motion.hpp:216-223 | the roots as a function of the points and the cell alone: equal exactly for points joined by a chain |
| UnionFind.ClassSizes | gst/common/xfeat_motion.hpp:224-225 | each root's count is the size of its class |
| UnionFind.Largest | gst/common/xfeat_motion.hpp:226-227 | the first of the largest counts |
| Clustering.LargestCluster | gst/nvmmdetgate/detgate.hpp:190-217 | a blob is reported exactly when some connected component has minPts points; it is the largest component, of several the one with the smallest root, with its box |
| Clustering.ChosenIsUnique | gst/common/xfeat_motion.hpp:226-227 | that choice leaves one component only |
| Clustering.ClusterMoving | gst/common/xfeat_motion.hpp:206-239 | the same for the keypoints whose residual reaches the threshold, with the exact size |
| Clustering.MovingPointsMove | gst/common/xfeat_motion.hpp:210-211 | the points clustered are the first keypoints of exactly the pairs displaced by at least the threshold, once per pair and in order |
| Clustering.StillPairChangesNothing | gst/common/xfeat_motion.hpp:206-239 | a pair displaced by less than the threshold never changes what is reported |
| Clustering.StillPictureHasNoBlob | gst/common/xfeat_motion.hpp:206-239 | when no pair is displaced by the threshold there is no blob |
| Proximity.NearIsSquare | gst/common/xfeat_motion.hpp:221 | two points are linked when one lies in the square of side two cells around the other |
| Clustering.ExtentIsTight | gst/common/xfeat_motion.hpp:230-235 | every side of the reported box touches a point, and all points are inside |
| Clustering.MovesIsRootComparison | gst/common/xfeat_motion.hpp:30-34 | comparing squared residuals decides as comparing the roots does |
| Cholesky.Chol4 | gst/common/kalman_box.cpp:9-21 | the in-order loops fill exactly the factor defined by its recurrence, guards included |
| Cholesky.FactorTimesTranspose | gst/common/kalman_box.cpp:9-21 | with positive pivots the factor times its transpose is the matrix |
| Cholesky.SolvesSystem | gst/common/kalman_box.cpp:23-39 | with positive pivots the two triangular solves solve the linear system |
| Cholesky.DiagonalSolution | gst/common/kalman_box.cpp:23-39 | for a diagonal matrix the solve is one guarded division per coordinate |
| AxisFilter.PredictPsd | gst/common/kalman_box.cpp:56-76 | a prediction keeps a two-state covariance positive semidefinite |
| AxisFilter.UpdatePsd | gst/common/kalman_box.cpp:89-123 | an update keeps it positive semidefinite, including with a zero pivot |
| AxisFilter.GainIsWeight | gst/common/kalman_box.cpp:95-102 | the position gain lies between 0 and 1 |
| AxisFilter.UpdateShrinks | gst/common/kalman_box.cpp:117-122 | an update never increases a variance |
| AxisFilter.UpdateBetween | gst/common/kalman_box.cpp:104-109 | the updated position lies between prediction and measurement |
| AxisFilter.RunPsd | gst/common/kalman_box.cpp:43-123 | over every run all four covariances stay positive semidefinite |
| AxisLaws.RunsApart | gst/common/kalman_box.cpp:43-123 | two runs that agree in cx and w agree in the axes of cx and w whatever cy and h are, and the other way round |
| AxisLaws.RunStretches | gst/common/kalman_box.cpp:43-123 | multiplying all measurements of one direction by c > 0 multiplies that direction's means and velocities by c and its covariances by c c, and leaves the other direction alone, in every run |
| AxisLaws.DistanceHasNoUnit | gst/common/kalman_box.cpp:125-142 | and it leaves the gating distance alone |
| AxisLaws.UpdateIsOptimal | gst/common/kalman_box.cpp:89-123 | an update is the linear correction of least variance, in position and in velocity |
| AxisLaws.StartAndNoise | gst/common/kalman_box.cpp:43-76 | for a wide box, the numbers after a start and one prediction |
| KalmanBoxes.KalmanBox.Initiate | gst/common/kalman_box.cpp:43-53 | the 8x8 filter starts as four independent two-state filters |
| KalmanBoxes.KalmanBox.Predict | gst/common/kalman_box.cpp:56-76 | the 8x8 prediction is the four two-state predictions; entries between coordinates stay 0 |
| KalmanBoxes.KalmanBox.Update | gst/common/kalman_box.cpp:89-123 | the 8x8 update through factor, solves and products is the four closed-form updates; entries between coordinates stay 0 |
| KalmanBoxes.KalmanBox.GatingDistance | gst/common/kalman_box.cpp:125-142 | the distance is the sum of d d / S over the four coordinates and is not negative |
| BoxSums.BoxSum.AddRow | analytics/low_texture_motion.hpp:58-67 | after any rows the table holds the corner counts modulo 2^32 |
| BoxSums.BoxSum.Window | analytics/low_texture_motion.hpp:70-78 | the four reads give the clipped window's count modulo 2^32, and its area |
| BoxSums.WindowIsExact | analytics/low_texture_motion.hpp:70-78 | the sum is exact exactly when the count is below 2^32 |
| BoxSums.SumsExactWhenFit | analytics/low_texture_motion.hpp:70-78 | all window sums of all masks of a size are exact exactly when no clipped window holds 2^32 pixels |
| BoxSums.WindowMeaning | analytics/low_texture_motion.hpp:101-116 | a positive sum means dilation and a sum equal to the area means erosion |
| BoxSums.Close | analytics/low_texture_motion.hpp:96-118 | when no clipped window holds 2^32 pixels, the two passes of window sums compute the erosion of the dilation, for an image of any size |
| Morphology.ClosingExtensive | analytics/low_texture_motion.hpp:85-86 | the closing contains the mask |
| Morphology.ClosingMonotone | analytics/low_texture_motion.hpp:85-86 | a larger mask has a larger closing |
| Morphology.ClosingIdempotent | analytics/low_texture_motion.hpp:85-86 | closing a closing changes nothing |
| Association.WithinIsCloser | analytics/persistence_gate.hpp:52-53 | comparing squared distances decides as comparing hypot with the limit does |
| Association.NearestIs | analytics/persistence_gate.hpp:48-54 | the scan returns the first nearest free track strictly inside the limit |
| MovingLock.FollowMisses | analytics/persistence_gate.hpp:80-89 | the locked scan misses exactly when no detection is within the limit of the lock; otherwise the lock ends on the detection returned |
| MovingLock.FirstIsKept | analytics/persistence_gate.hpp:80-89 | the first detection inside the limit is the one returned exactly when no later one is closer to it than it is to the old lock |
| MovingLock.NearestComesFirst | analytics/persistence_gate.hpp:80-89 | when the nearest detection comes before every other one in range, it is the one returned exactly under that condition |
| MovingLock.TwoInEitherOrder | analytics/persistence_gate.hpp:80-89 | of two detections the nearer one, in range, is returned in both list orders exactly when the other is no closer to it than the lock is, and, where the other is in range too, is closer to it than to the lock |
| MovingLock.ReturnsNearest | analytics/persistence_gate.hpp:80-89 | for every list: what is returned is nearest to the old lock exactly when the scan comes to a nearest detection with it inside the bound then left, and no later one is closer to it than that hop |
| MovingLock.ReturnsEndOfTrail | analytics/persistence_gate.hpp:80-89 | for every list: r is returned exactly when r ends a trail of detections whose hops shrink strictly from below the limit, every detection passed over being at least as far as the last hop; there is only one such trail |
| MovingLock.FollowCanMissTheNearest | analytics/persistence_gate.hpp:82-86 | because the lock moves inside the loop, the detection returned need not be the nearest one: a concrete case |
| MovingLock.FollowCanLeaveTheLimit | analytics/persistence_gate.hpp:82-86 | it can even lie outside the association distance: with limit 5, detections at 4 and 7 from a lock at 0 return the one at 7 |
| Assignments.SearchGoesToNearest | analytics/persistence_gate.hpp:40-65 | in a search frame every detection goes to the earliest of the nearest histories without a sighting in this frame, a new one starts exactly when none is in range, and exactly those seen within the last maxLost frames stay |
| GateTracks.SearchOk | analytics/persistence_gate.hpp:40-65 | a search frame keeps every track's history honest: detections of the run's own frames, each within the distance of the one before, frame gaps of at most maxLost + 1, the last sup of them supported |
| GateTracks.SearchOneToOne | analytics/persistence_gate.hpp:40-65 | after a search frame the tracks seen in it are in bijection with its detections, exactly when maxLost is not negative or there are none |
| GateTracks.Associate | analytics/persistence_gate.hpp:47-62 | one detection refreshes the first of the nearest free tracks strictly inside the distance, or starts a new one when there is none |
| GateTracks.ReapLost | analytics/persistence_gate.hpp:63-65 | keeps exactly the tracks not lost for too long, in order |
| PersistenceGates.PersistenceGate.Update | analytics/persistence_gate.hpp:36-73 | update is the step of the specification for some order the sort may produce |
| PersistenceHistories.EachGoesToNearest | analytics/persistence_gate.hpp:36-65 | the same in every run, over the gate's own histories and in the order of falling confidence |
| PersistenceHistories.LocksExactly | analytics/persistence_gate.hpp:66-73 | in every run an unlocked update locks exactly when some history ends in this frame with the age and the support demanded, and returns the detection that ends the first such |
| PersistenceGates.FirstReturnHasEvidence | analytics/persistence_gate.hpp:36-73 | in every run an index first returned ends a history of at least max(minAge, minSupport) detections of the run's frames with the steps, gaps and support demanded; the gate locks exactly then |
| PersistenceGates.FramesIncrease | analytics/persistence_gate.hpp:55-57 | the sightings of a history lie in different, increasing frames |
| PersistenceGates.SeenTracksAreTheDetections | analytics/persistence_gate.hpp:36-65 | in every run, after each search update, tracks with lost 0 are in bijection with the frame's detections, exactly when maxLost is not negative or the frame is empty |
| PersistenceGates.DetectionHasItsTrack | analytics/persistence_gate.hpp:40-65 | in every run each detection of a search frame is processed exactly once and is the place and source of exactly one track afterwards |
| PersistenceSkips.ConsecutiveExactly | analytics/persistence_gate.hpp:20-26 | the supported sightings behind every confirmation of every run lie in consecutive frames exactly when maxLost <= 0, minSupport <= 1 or dist <= 0 |
| PersistenceSkips.GapRun | analytics/persistence_gate.hpp:36-73 | otherwise a run confirms a detection although the frame before the last one was empty |
| PersistenceGates.LockedReturns | analytics/persistence_gate.hpp:80-91 | a locked update returns -1 exactly when nothing is near the lock; otherwise it locks onto what it returns, which is the end of the trail from the old lock, with the exact conditions for the first and the nearest detection |
| PersistenceGates.LockLifetime | analytics/persistence_gate.hpp:88-90 | from a fresh lock, j misses in a row leave it locked exactly when j is 0 or at most maxLost |
| DetGates.MovedMeans | gst/nvmmdetgate/detgate.hpp:178-186 | support means a sample in reach with a residual of at least rmin, or an rmin of zero or less |
| DetGates.MotionBlob | gst/nvmmdetgate/detgate.hpp:190-217 | a blob exists exactly when some component of the moving points is large enough, and stands for the largest, of several the one with the smallest root |
| DetGateHistories.BlobKeepsItsBox | gst/nvmmdetgate/detgate.hpp:213-216 | the detection made of a blob has the blob's box |
| DetGateHistories.MovingPointsMove | gst/nvmmdetgate/detgate.hpp:190-217 | the blob is built from the places of exactly the samples that move enough, once and in order |
| DetGateHistories.StillSampleChangesNothing | gst/nvmmdetgate/detgate.hpp:190-217 | a sample below the threshold changes neither whether there is a blob nor which |
| DetGateHistories.ActiveIsNearMiddle | gst/nvmmdetgate/detgate.hpp:166-170 | a point is active when it is no farther from the middle of the frame, either way, than half the frame less the border |
| DetGateHistories.EachGoesToNearest | gst/nvmmdetgate/detgate.hpp:61-108 | in every run each processed detection goes to the earliest of the nearest histories without a sighting in this frame, and a new one starts exactly when none is in range |
| DetGateHistories.ConfirmsExactly | gst/nvmmdetgate/detgate.hpp:109-134 | in every run an unlocked update confirms exactly when some history ends in this frame, inside the active area, with the age and the support demanded |
| DetGates.SelectSelects | gst/nvmmdetgate/detgate.hpp:109-119 | the selection loop finds the first of the eligible tracks that are largest in support, then confidence |
| DetGates.MaxConfIsMax | gst/nvmmdetgate/detgate.hpp:94 | a track's confidence is the largest of its history |
| DetGates.SearchReturns | gst/nvmmdetgate/detgate.hpp:61-134 | a search update returns -1 exactly when no track is eligible; otherwise it locks, and returns the source of a detection of this frame, or -2 with the box of a largest motion blob of this frame, backed by the selected track's history |
| DetGates.FirstReturnIsJustified | gst/nvmmdetgate/detgate.hpp:61-134 | the same in every run from a reset, over the run's own frames |
| DetGateSkips.ConsecutiveExactly | gst/nvmmdetgate/detgate.hpp:41-43 | the supported sightings behind every confirmation of every run lie in consecutive frames exactly when maxlost <= 0, ksup <= 1 or dist <= 0 |
| DetGateSkips.GapRun | gst/nvmmdetgate/detgate.hpp:61-134 | otherwise a run confirms a detection although the frame before the last one was empty |
| DetGates.LockedReturns | gst/nvmmdetgate/detgate.hpp:148-164 | where a locked update leaves the lock, what it returns and when it unlocks; what it returns is the source of the end of the trail from the old lock, with the exact conditions for the first and the nearest detection |
| DetGates.LostCountsMisses | gst/nvmmdetgate/detgate.hpp:162-163 | while locked the counter is the length of the unbroken run of misses |
| DetGates.LockEndsExactly | gst/nvmmdetgate/detgate.hpp:148-164 | the lock ends at an update exactly when it lies in the border, or when this update and the maxlost before it all missed |
| DetGates.DetGate.Update | gst/nvmmdetgate/detgate.hpp:61-134 | update is the step of the specification, with the motion blob added exactly when seeding is on and there is one |
| Trackers.ScanFindsChoice | gst/nvmmtracker/tracker.cpp:30-38 | the inner scan picks the last of the untaken same-class tracks with the best IOU at the threshold |
| Trackers.Tracker.Update | gst/nvmmtracker/tracker.cpp:24-59 | update writes the specified ids into the caller's array in place and leaves the specified tracks |
| Trackers.IdsInAFrame | gst/nvmmtracker/tracker.cpp:40-51 | ids are positive and pairwise distinct within a frame, in every run |
| Trackers.IdKeepsItsClass | gst/nvmmtracker/tracker.cpp:33-43 | an id carries one class for the whole run |
| Trackers.NewIdIsNew | gst/nvmmtracker/tracker.cpp:48-50 | a newly made id is above every id of every earlier frame |
| Trackers.IdOrigin | gst/nvmmtracker/tracker.cpp:30-51 | an id is new only if no untaken same-class track reached the threshold, and is otherwise that of the last of the best such tracks |
| Trackers.DroppedIdNeverReturns | gst/nvmmtracker/tracker.cpp:48-58 | an id owned by no track is never written again |
| Trackers.TrackLifetime | gst/nvmmtracker/tracker.cpp:54-58 | a track not written for j frames is still there, with its box, exactly when j is at most max_age |
| Trackers.MatchCounts | gst/nvmmtracker/tracker.cpp:8-38 | on boxes with whole corners and sizes, the match test compares the number of unit cells in both boxes with the threshold's share of those in at least one |
| BoxCells.OverlapIsCommonArea | gst/nvmmtracker/tracker.cpp:8-17 | the overlap is the area of the rectangle made of exactly the points in both boxes, and 0 without one |
| BoxCells.IouCounts | gst/nvmmtracker/tracker.cpp:8-17 | for boxes with whole corners, the measure times the number of unit cells in at least one is the number of those in both |
| BoxCells.IouHasNoUnit | gst/nvmmtracker/tracker.cpp:8-17 | the measure does not depend on the scale of the picture |
| Boxes.IouRange | gst/nvmmtracker/tracker.cpp:8-17 | the overlap measure lies between 0 and 1; for boxes of positive area it is 0 exactly when they do not overlap and 1 exactly when the overlap is all of both |
| Boxes.IouSymmetric | gst/nvmminfer/yolo_parser.cpp:33-40 | the overlap measure does not depend on the order of the boxes |
| YoloNms.PickClass | gst/nvmminfer/yolo_parser.cpp:58-63 | the first of the best class scores above the threshold, or -1 |
| YoloNms.Decode | gst/nvmminfer/yolo_parser.cpp:57-80 | the candidate list of the specification |
| YoloNms.FrameBoxInverts | gst/nvmminfer/yolo_parser.cpp:66-76 | where no clamp is at work, mapping a corner back through the letterbox gives the network box |
| YoloNms.ToFrameIs | gst/nvmminfer/yolo_parser.cpp:69-76 | a frame coordinate is the exact one, moved no farther than to the edge of the frame |
| YoloNms.CandidatesExactly | gst/nvmminfer/yolo_parser.cpp:57-80 | the candidates are exactly the proposals with a class above the threshold and a box that is not empty, once each, in order, with their first best class |
| YoloNms.DecodedOk | gst/nvmminfer/yolo_parser.cpp:69-79 | a decoded box is nonempty, inside the frame and above the threshold |
| YoloNms.Suppress | gst/nvmminfer/yolo_parser.cpp:85-108 | the greedy loop writes the first min(256, k) of the k survivors, and reports more exactly when k is above 256 |
| YoloNms.SuppressionCounts | gst/nvmminfer/yolo_parser.cpp:89-95 | on boxes with whole corners, suppression compares the number of unit cells in both boxes with the threshold's share of those in at least one |
| YoloNms.ObjectShowsDetection | gst/nvmminfer/yolo_parser.cpp:98-107 | an object keeps box, class, score and name of its detection |
| YoloNms.SurvivorsApart | gst/nvmminfer/yolo_parser.cpp:89-95 | two survivors of a class never overlap beyond the threshold |
| YoloNms.DroppedIsCovered | gst/nvmminfer/yolo_parser.cpp:89-95 | a dropped candidate overlaps an earlier survivor of its class with at least its score |
| YoloNms.YoloParse | gst/nvmminfer/yolo_parser.cpp:48-112 | for whatever order the sort leaves: the objects written are the survivors, nonempty, inside the frame, apart from each other, by falling confidence and labelled with their class names |
| Labels.LabelReadsBack | gst/nvmminfer/yolo_parser.cpp:44-46 | no class name is cut off by the label field, and a class outside the table has the empty name |
| Labels.ReadsBack | gst/nvmminfer/yolo_parser.cpp:106-107 | reading the field gives back what fits, so all of a text exactly when it is shorter than the field |
| Fusion.JoinIsIntersection | gst/nvmmfusion/gstnvmmfusion.cpp:81-91 | the join emits a stamp exactly when both streams carry it |
| Fusion.UnstampedHeadsPair | gst/nvmmfusion/gstnvmmfusion.cpp:81-91 | a head without a valid stamp is paired with the other stream's head |
| Fusion.JoinIsOrdered | gst/nvmmfusion/gstnvmmfusion.cpp:81-91 | stamps come out strictly increasing, so once each |
| Fusion.PairsMatch | gst/nvmmfusion/gstnvmmfusion.cpp:101-108 | paired buffers come from the two streams and carry equal stamps |
| Fusion.Aggregator.Aggregate | gst/nvmmfusion/gstnvmmfusion.cpp:66-126 | one call: what it consumes and emits; with both heads present and the caps known at least one buffer goes; the join of the streams is kept |
| Fusion.Aggregator.DrainedIsIntersection | gst/nvmmfusion/gstnvmmfusion.cpp:62-126 | for strictly increasing valid stamps and any arrival order, what went out is exactly the common stamps, once each, in order, correctly paired |
| ConstsFormat.WriteFile | tools/samurai/pack_consts.py:74-83 | the writing loop produces the packed bytes |
| ConstsFormat.PackedBytes | tools/samurai/pack_consts.py:74-83 | the bytes of a small file, one by one |
| ConstsFormat.SamuraiConsts.Load | gst/nvmmsamurai/samurai_consts.hpp:21-53 | load accepts a file exactly when the specification does, and then holds the same table; after a rejected file it holds the entries before the first unreadable one, and is unchanged when the header is bad |
| ConstsFormat.StopsAtLongest | gst/nvmmsamurai/samurai_consts.hpp:32-50 | the tensors left in the table are those of the longest readable run of entries, and no more |
| ConstsFormat.RoundTrip | gst/nvmmsamurai/samurai_consts.hpp:21-53 | loading what was packed, with anything after it, gives back exactly the names, shapes and data |
| ConstsFormat.RoundTripIsExact | gst/nvmmsamurai/samurai_consts.hpp:21-53 | every tensor comes back exactly as it was written, shape and data, exactly when every dimension is below 2^31 |
| ConstsFormat.TruncatedIsRejected | gst/nvmmsamurai/samurai_consts.hpp:32-48 | every strict prefix of a packed file is rejected |
| ConstsFormat.ShapeExact | gst/nvmmsamurai/samurai_consts.hpp:43 | a shape comes back unchanged exactly when every dimension is below 2^31, because it is stored in ints |
| ConstsFormat.LargeDimensionComesBackNegative | gst/nvmmsamurai/samurai_consts.hpp:43 | a tensor of shape [2^31, 0] packs and loads, and comes back with a negative dimension |
| MemoryRing.RingStep | gst/nvmmsamurai/samurai_tracker.cpp:495-508 | storing a feature keeps the pointer ring naming the last min(6, m) features, oldest first |
| MemoryRing.NextBuffer | gst/nvmmsamurai/samurai_tracker.cpp:495-508 | the buffer overwritten is the dropped oldest entry when the ring is full, and otherwise none the ring names |
| MemoryRing.EntriesDiffer | gst/nvmmsamurai/samurai_tracker.cpp:495-508 | the entries are distinct buffers and never the seed's |
| MemoryRing.RingIsWindow | gst/nvmmsamurai/samurai_tracker.cpp:495-508 | what the named buffers hold is the window of the last six features |
| MemoryRing.SlotsArePaddedWindow | gst/nvmmsamurai/samurai_tracker.cpp:372-378 | reading slots by distance from the newest gives the window padded with the seed in front |
| MemoryRing.Memory.Seed | gst/nvmmsamurai/samurai_tracker.cpp:336-340 | a new seed empties both rings |
| MemoryRing.Memory.Assemble | gst/nvmmsamurai/samurai_tracker.cpp:372-389 | memory slots 1 to 6 read the last features oldest to newest and the object pointers newest to oldest, each padded with the seed |
| MemoryRing.Memory.Remember | gst/nvmmsamurai/samurai_tracker.cpp:495-510 | one buffer is overwritten and both rings move in lockstep |
| Selection.ArgmaxIsFirstMax | gst/nvmmsamurai/samurai_tracker.cpp:428 | the comparison chain picks the first of the largest of three |
| Selection.StableIsStreak | gst/nvmmsamurai/samurai_tracker.cpp:429-457 | in every run the filter is running with stable_frames at least m exactly when an unbroken streak of m frames, each starting or correcting the filter, leads up to now |
| Selection.VoteNeedsStreak | gst/nvmmsamurai/samurai_tracker.cpp:429-448 | so the filter has a vote in a frame exactly when a streak of threshold frames leads up to it |
| Selection.WeighsGains | gst/nvmmsamurai/samurai_tracker.cpp:443-448 | for every weight, a candidate is chosen exactly when weight times its gain in overlap plus the rest times its gain in quality is not negative against each other one, and positive against those before it |
| Selection.BoxIouCounts | gst/nvmmsamurai/samurai_tracker.cpp:47-56 | on boxes with whole corners, the overlap times the number of unit cells in at least one box is the number of those in both |
| Selection.CorrectsExactly | gst/nvmmsamurai/samurai_tracker.cpp:450-456 | a frame that does not start the filter leaves it stable exactly when the chosen mask is there, its quality is above the threshold and the foreseen box is large enough |
| Selection.StartedBox | gst/nvmmsamurai/samurai_tracker.cpp:431-440 | a filter just started on a box stands for that box |
| Selection.FollowsFilter | gst/nvmmsamurai/samurai_tracker.cpp:443-448 | with weight 1 a filter that has a vote decides alone: the first candidate of most overlap with its box is chosen |
| Selection.FollowsMasks | gst/nvmmsamurai/samurai_tracker.cpp:441-448 | without a vote, or with weight 0, the first candidate of highest quality is chosen |
| Selection.SameUntilVote | gst/nvmmsamurai/samurai_tracker.cpp:429-457 | two trackers that differ only in weight and threshold go through the same choices and filter states as long as neither has a vote that weighs anything, in every run |
| Selection.RejectionAlternates | gst/nvmmsamurai/samurai_tracker.cpp:450-456 | when no candidate passes the quality threshold, stable_frames goes 1, 0, 1, 0, ... |
| Samurai.SamuraiTracker.Seed | gst/nvmmsamurai/samurai_tracker.cpp:310-340 | seeding puts the box of the mask, or the given one, into the filter and empties the memory |
| Samurai.SamuraiTracker.FilterFrame | gst/nvmmsamurai/samurai_tracker.cpp:816-835 | a frame without the model moves the box by the filter alone |
| Samurai.SamuraiTracker.Select | gst/nvmmsamurai/samurai_tracker.cpp:424-457 | the regimes on the 8x8 filter are the specified choice and the specified filter and counter |
| Samurai.SamuraiTracker.TrackFrame | gst/nvmmsamurai/samurai_tracker.cpp:362-515 | a full frame reads the padded windows of the memory, moves filter, counter and box as specified, and remembers the chosen candidate's feature and pointer, or leaves the memory alone when the objectness is not finite or an engine fails |

## Left out

- IPC metadata and the match between the time stamp and the slot's pixels: written or read outside the slot lock, so the code does not order them.
- Start-up, sockets, mapping and crashes of either side: the slot model starts from the state a successful start leaves behind.
- SlotThreads.Source.Acquire: a lost compare-and-swap is retried at most `patience` times, for every value of that parameter, because the code may retry without end.
- SlotThreads.Source.Create: the retry of a lost compare-and-swap is bounded by a parameter, because the code may retry without end; bad magic and flushing are nondeterministic choices.
- SlotProtocol.StepInv: pool sizes are those the producer allows, 13 to 16, and 64-bit frame counters do not overflow.
- Floating-point rounding everywhere, and overflow of the 64-bit tracker ids.
- Fft.Fft1d: the complex numbers are pairs of exact reals and the roots of unity satisfy their defining equations exactly.
- The windowing, the cross-power spectrum and the centroid of correlate and refine_correlation_peak: plain per-pixel formulas around the transforms.
- The Sobel, Gaussian and threshold stages in front of low_texture_mask: the closing is proved for an arbitrary mask.
- BoxSums.BoxSum.AddRow: the flat table of the code is a two-dimensional array here, and rows are added in order, as the code does.
- GateTracks.Associate: returns the new track list as a value that the gates assign to their field; the code updates the record through a pointer.
- DetGates.DetGate.Update: a track's size and confidence are kept in a sequence beside the other fields; debug output is not modelled.
- ConstsFormat.SamuraiConsts.Load: opening the file and running out of memory for an absurd size are not modelled; get, data and size are plain lookups.
- Samurai.SamuraiTracker.TrackFrame: the feature and pointer formulas and the mask boxes are inputs, qualities are real numbers, and a device buffer is a number into an array of contents; the estimate behind a camera-motion shift is an input of Pan.
- Samurai.SamuraiTracker.Seed: models the end of a successful seeding; one that fails in an engine is not modelled.
- RANSAC, Jacobi rotation, descriptor matching and the other registration code: statistical or numerical claims rather than properties of the logic.
- GStreamer properties, caps and pads, surface allocation, the compositor, converter, drawing and Python tools other than the constants writer: input/output or thin wrappers.
