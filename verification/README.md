# Verified models of the state-keeping sketch components

This project models the parts of the repository in which an optimised, in-place or concurrent
structure has to agree with a simple mathematical one, and proves that it does.

- **OctoSketch** (`OctoWorker`, `OctoProtocol`, `OctoRouting`, `OctoSafety`, `OctoTheorems`,
  `OctoEstimates`, `OctoEarlyFlush`, `OctoQuietFlush`, `OctoLiveness`, `OctoTermination`). One-byte worker counters are
  promoted and cleared at a threshold that may change with every input; promotions travel through
  bounded queues to one aggregator. The runtime is a transition system whose steps are the steps of
  single threads. Every cell is conserved in every reachable state, every fair infinite run comes to
  the end of `finish` with exactly the single-threaded sketch, which never undercounts a key, and the
  parent's lag is bounded per cell and per estimate. `flush` is exact if nothing was inserted since
  the previous one returned.
- **Exponential histogram** (`EhShape`, `EhBuckets`, `ExponentialHistogram`, `MapTier`). The L1
  cascade keeps the size-class invariant, which gives the sliding-window error; the L2 rule ends in a
  settled histogram whose merged buckets weigh little against what is newer, and it is proved exactly when the map tier's single backward pass reaches the
  same one.
- **Space-Saving** (`SpaceSaving`, `SpaceSavingBounds`). The lazy heap always yields a true minimum,
  and every tree of updates and merges keeps the error bounds.
- **Heavy-hitter heap** (`ScanHeap`, `TopK`, `HHHeap`). The digest index follows every
  sift and agrees with a linear scan, position by position; a run retains a true top k, and the
  answers say exactly when a key has been turned away.
- **Pool adjacent violators** (`Isotonic`). The result is the closest nondecreasing sequence within
  [0, 1], and the only one.
- **Hydra** (`HydraKeys`, `Median`, `HydraCells`, `HydraGrid`). Subkeys are an injective encoding with
  an inverse; a grid holds exactly what its records wrote and merges to what the joint stream would
  have written; over Count-Min cells a frequency query never undercounts a subpopulation.
- **Elastic worker** (`ElasticWorker`). Every occurrence of a flow is sent under its key, held as a
  vote, or accounted for in the light layer; a clear eviction flag, in a bucket or with votes sent, means
  the keyed mass is exact.
- **CocoSketch** and its worker (`CocoTable`, `Coco`, `CocoWorker`). Keys stay single and at home,
  and mass is conserved, for every outcome of the random draws.
- **Nitro** (`Nitro`). The row schedule does not depend on how a stream is cut into updates, as far as
  machine words can count the slots.

`Wrappers` holds the option and result types, `Choice` picks an arbitrary element.

## How the source is represented

Hash functions are parameters of which only the range is known (and, where the source guarantees it,
that different rows use different buckets); equal keys have equal hashes, different keys may share
one. Random draws are arguments of the operation that makes them, and arbitrary. Every threshold in force may be any value the source allows, chosen
anew for each input. `f64` quantities are real numbers. Parent counters, frequencies and stream
lengths are unbounded integers; the worker counters are one byte wide, signed or unsigned as in the
source, with overflow excluded by proof, and the Elastic votes have their machine widths.

Classes have the fields of the source's structures and update them in place; ghost fields record the
stream, what was sent, or what was accepted, and no step depends on them. Where a library type is
generic in its sketch, the sketch is the sequence of what was merged into it. A cell of a Hydra grid
is the list of its inserts; the Count-Min cell is in addition modelled as its counters, updated in
place, and shown to be a function of that list.

## Where the code differs from its comments

A comment in `src/sketch_framework/octo.rs:1083-1090` says that a drain request is answered only once
every queue is empty. The code answers after any sweep that applied nothing, and such a sweep may have
polled a queue before its worker flushed into it. The model follows the code.
`OctoEarlyFlush.FlushCanReturnEarly` is a complete run in which `flush` returns while a promotion is
still queued. `OctoTheorems.FlushExactIff` says exactly when the parent is exact after `flush`, for both
kinds of sketch: the promotions still queued sum to zero in every counter. For Count-Min this means
that nothing is queued (`OctoTheorems.FlushExactIffDrained`). An answer by a sweep that began after the
request was queued is always exact (`OctoTheorems.FlushExactAfterFreshSweep`). A caller, who sees none of
this, can rely on `OctoQuietFlush.QuietFlushIsExact`: a `flush` with no insert since the previous one
returned is exact, so calling it twice is enough. `finish` is exact unconditionally.

The Count-Min sketch accepts negative counts, which can make it undercount.
`HydraCells.EstimateCoversIff` says exactly when it does not: if in no row the other values that share
the counter sum to less than zero.

The map tier of `src/sketch_framework/eh_univ_optimized.rs` accepts negative values. Its single
backward pass then need not reach the fixpoint of the L2 rule. For every k below 2^63,
`MapTier.CancellingRun` makes 2k + 2 updates of an empty tier (k and -k on one key, then k on each of
2k others) after which the tier holds a light pair. `MapTier.OnePassIff` says when the pass is enough:
exactly if no merge of the pass leaves the merged bucket light together with its newer neighbour. That
condition suffices for all histograms; it is also necessary if no bucket is of size zero, and only
updates with the value 0 make buckets of that size as long as sums of sizes do not wrap around. Without negative frequencies it always holds
(`MapTier.NonNegativeIsSmooth`, `MapTier.OnePassIsFixpoint`).

A comment in `src/common/heap.rs:91-94` reads the answer of a single update as a statement about all
keys offered so far. `TopK.LastAnswerIff` says exactly when it is one: unless the key is resident and
more than k keys were offered before. Such an update is answered true although a key has been turned
away (`TopK.RescoreMisleads`; `TopK.OneAnswerCanMislead` gives three updates). `TopK.AnswersAreExact`
says that all answers of a run together are never wrong.

A comment in `src/common/structure_utils.rs:265-274` promises that what is left of a long skip is kept
for the next update. The saturating addition shortens it if the next slot lies beyond the machine word
(`Nitro.SaturationShortens`). `Nitro.WordRunIff` says exactly when a run is not affected, and
`Nitro.WordRunAdmitsTheSame` that no run of at most as many slots as a machine word counts admits a
different slot. Skips that leave room for the rows of one update are never shortened
(`Nitro.ShortSkipsAreExact`): with 64-bit words that is every skip the table can yield, which stays
below 2^59, so that only targets with shorter words are concerned.

## Model

| member | source | states |
|---|---|---|
| OctoWorker.Clamp | src/sketch_framework/octo.rs:222-222 | a threshold within 1..127 is used as it is, any other replaced by the nearer end |
| OctoWorker.RowStartIsProduct | src/sketch_framework/octo.rs:225-225 | the recursive row offset is row times columns |
| OctoWorker.SlotInRange | src/sketch_framework/octo.rs:224-225 | a hashed column addresses a counter of the array |
| OctoWorker.InsertConserves | src/sketch_framework/octo.rs:210-236 | one arrival is neither lost nor counted twice in any counter: residual plus promotions grow by exactly its contribution |
| OctoWorker.InsertArrives | src/sketch_framework/octo.rs:210-236 | a row sends its whole counter, and clears it, exactly if the counter gets to the threshold in magnitude; any other keeps it; rows send in order and no other counter changes |
| OctoWorker.FlushConserves | src/sketch_framework/octo.rs:239-253 | a flush sends exactly what each counter held |
| OctoWorker.FlushAllLists | src/sketch_framework/octo.rs:239-253 | a flush sends every counter that is not zero, once, with its value, in row-major order |
| OctoWorker.InsertBounded | src/sketch_framework/octo.rs:210-236 | no counter reaches the largest threshold used, no promotion exceeds it, so bytes never overflow |
| OctoWorker.FlushAllPromotable | src/sketch_framework/octo.rs:239-253 | flushed promotions are in the grid and within the same bound |
| OctoWorker.InsertCost | src/sketch_framework/octo.rs:210-236 | one arrival occupies one more counter or sends one promotion per row at most |
| OctoWorker.FlushCost | src/sketch_framework/octo.rs:239-253 | a flush sends one promotion per non-zero counter |
| OctoWorker.SinglePassIsSum | src/sketches/countminsketch.rs:305-313 | each counter of the single-threaded sketch is the sum of the arrivals' contributions |
| OctoWorker.AddFromCell | src/sketches/countsketch.rs:285-301 | one single-threaded insert adds its signed contribution to each counter and nothing else |
| OctoWorker.CmWorkerSketch.constructor | src/sketch_framework/octo.rs:161-169 | all counters zero, at least one row and column |
| OctoWorker.CmWorkerSketch.BumpRow | src/sketch_framework/octo.rs:223-235 | one row in place: increment, promote and clear at the threshold, without overflow |
| OctoWorker.CmWorkerSketch.InsertHashes | src/sketch_framework/octo.rs:210-236 | array and emissions are those of the value-level insert: a counter is sent exactly if it gets to the clamped threshold |
| OctoWorker.CmWorkerSketch.Flush | src/sketch_framework/octo.rs:239-253 | emits every non-zero counter in row-major order and zeroes the array |
| OctoWorker.CountWorkerSketch.constructor | src/sketch_framework/octo.rs:284-292 | all counters zero, at least one row and column |
| OctoWorker.CountWorkerSketch.BumpRow | src/sketch_framework/octo.rs:336-355 | one signed row in place, within the range of a signed byte |
| OctoWorker.CountWorkerSketch.InsertHashes | src/sketch_framework/octo.rs:329-356 | array and emissions are those of the value-level insert: a counter is sent exactly if it gets to the clamped threshold from either side |
| OctoWorker.CountWorkerSketch.Flush | src/sketch_framework/octo.rs:359-373 | emits every non-zero counter and zeroes the array |
| OctoProtocol.Route | src/sketch_framework/octo.rs:990-995 | both partition policies pick an existing worker |
| OctoRouting.SubmitGoesTo | src/sketch_framework/octo.rs:990-995 | the n-th input accepted goes to worker n modulo their number, or to the one its key's hash leaves as remainder, at the end of that worker's queue |
| OctoRouting.TakeArrives | src/sketch_framework/octo.rs:1108-1112 | a worker counts an input row by row under the threshold then in force |
| OctoRouting.TakeFlushes | src/sketch_framework/octo.rs:1113-1130 | told to flush or to end, it has every counter that is not zero to send, and is empty |
| OctoRouting.InboxIsFifo | src/sketch_framework/octo.rs:1100-1107 | over any run a worker takes its messages in the order in which they were put into its queue |
| OctoProtocol.ShapeStep | src/sketch_framework/octo.rs:1028-1138 | every step keeps queues within capacity and counters and promotions within their bounds |
| OctoSafety.HandshakeStep | src/sketch_framework/octo.rs:1291-1315 | every step keeps the client, the workers' duties, acknowledgements and end markers in agreement |
| OctoSafety.LedgerStep | src/sketch_framework/octo.rs:1028-1138 | every step keeps each counter's ledger: parent, promotions on their way, residuals, queued inputs |
| OctoSafety.ScriptedStep | src/sketch_framework/octo.rs:1261-1272 | accepted inputs and those still to come are the client's program |
| OctoSafety.SweepStep | src/sketch_framework/octo.rs:1058-1092 | a sweep begun after the drain request leaves every polled queue empty if it applied nothing |
| OctoTheorems.InvStep | src/sketch_framework/octo.rs:1028-1138 | the joint invariant is kept by every step of every thread |
| OctoTheorems.ReachableInv | src/sketch_framework/octo.rs:1028-1138 | the joint invariant holds in every reachable state |
| OctoTheorems.NothingLost | src/sketch_framework/octo.rs:1051-1132 | in every reachable state parent, promotions on their way, residuals and queued inputs sum to the single-threaded count of the accepted inputs |
| OctoTheorems.FinishIsSinglePass | src/sketch_framework/octo.rs:1001-1019 | for every interleaving, routing and threshold schedule, `finish` returns the single-threaded sketch |
| OctoTheorems.FlushDeficit | src/sketch_framework/octo.rs:1291-1315 | after `flush` the parent trails by exactly the promotions still queued |
| OctoTheorems.FlushExactIff | src/sketch_framework/octo.rs:1082-1091 | `flush` is exact, for Count-Min and for Count, exactly if in every counter the promotions still queued sum to zero |
| OctoTheorems.FlushExactIffDrained | src/sketch_framework/octo.rs:1082-1091 | empty queues are enough, and for Count-Min necessary |
| OctoTheorems.FlushExactAfterFreshSweep | src/sketch_framework/octo.rs:1058-1091 | exact whenever the answering sweep began after the request was queued |
| OctoTheorems.QueuedShows | src/sketch_framework/octo.rs:1082-1091 | a promotion still queued makes some Count-Min counter too small |
| OctoTheorems.LagPerCell | src/sketch_framework/octo.rs:210-236 | with k workers a counter lags the processed inputs by 0 to k(tau-1); for Count by at most that in magnitude |
| OctoTheorems.EstimateLag | src/sketch_framework/octo.rs:1274-1282 | the same bound for Count-Min estimates |
| OctoEstimates.CellIsCounter | src/sketches/countminsketch.rs:305-313 | the row-major array and the Count-Min counters of the Hydra cells are the same sketch |
| OctoEstimates.MinIsEstimate | src/sketches/countminsketch.rs:345-361 | with the same estimates |
| OctoEstimates.FinishedNeverUndercounts | src/sketch_framework/octo.rs:1001-1019 | the parent returned by `finish` estimates no key below the number of times it was inserted |
| OctoEstimates.ProcessedUndercountBounded | src/sketch_framework/octo.rs:1274-1282 | in between, no key is estimated more than tau-1 per worker below the times it was processed |
| OctoEarlyFlush.EarlyReachable | src/sketch_framework/octo.rs:1058-1091 | a concrete schedule is a run of the runtime |
| OctoEarlyFlush.FlushCanReturnEarly | src/sketch_framework/octo.rs:1083-1090 | some run returns from `flush` with a parent that misses accepted inputs |
| OctoQuietFlush.AnswerClearsStep | src/sketch_framework/octo.rs:1058-1091 | from a drain answer until `flush` returns, the sweep under way has applied a promotion or passed only empty queues |
| OctoQuietFlush.CalmStep | src/sketch_framework/octo.rs:1028-1138 | no step but an insert lets a worker owe anything again |
| OctoQuietFlush.QuietFlushIsExact | src/sketch_framework/octo.rs:1291-1315 | a `flush` without an insert since the previous one returned leaves the parent exact |
| OctoLiveness.MeasureStep | src/sketch_framework/octo.rs:1051-1132 | every step but a fruitless poll decreases a measure of the work left |
| OctoLiveness.WorkIsBounded | src/sketch_framework/octo.rs:1051-1132 | a run does no more useful steps than the measure allows |
| OctoLiveness.StuckNeedsAggregator | src/sketch_framework/octo.rs:1058-1092 | when no thread but the aggregator can move, a drain request or a full disconnection awaits it |
| OctoLiveness.IdleApproaches | src/sketch_framework/octo.rs:1056-1092 | then every fruitless poll brings the next useful step closer |
| OctoLiveness.NextAction | src/sketch_framework/octo.rs:1040-1132 | every unfinished reachable state has an enabled step that makes progress |
| OctoLiveness.NeverDeadlocks | src/sketch_framework/octo.rs:1001-1019 | every reachable state has a schedule on which `finish` completes, whatever the queue capacities |
| OctoTermination.IdleIsInvisible | src/sketch_framework/octo.rs:1056-1092 | a fruitless poll changes nothing that the client or a worker can do |
| OctoTermination.EventuallyWorks | src/sketch_framework/octo.rs:1051-1132 | in a fair run fruitless polling ends in a useful step, or the run is over |
| OctoTermination.MeasureFalls | src/sketch_framework/octo.rs:1051-1132 | no moment of an infinite run adds work, and a useful one does some of it |
| OctoTermination.FairRunsFinish | src/sketch_framework/octo.rs:1001-1019 | every infinite run in which no client or worker step is possible for ever while only the aggregator runs comes to the end of `finish`, with the single-threaded sketch |
| EhShape.WalkBoundary | src/sketch_framework/eh.rs:144-164 | at a class boundary the cascade merges exactly the overfull classes and keeps its invariant |
| EhShape.WalkMerge | src/sketch_framework/eh.rs:148-150 | merging the two oldest of an overfull class carries one bucket into the next |
| EhShape.WalkTopMerges | src/sketch_framework/eh.rs:165-167 | the merge after the loop balances the largest class |
| EhShape.ClassCounts | src/sketch_framework/eh.rs:135-169 | every class holds at most half of k, rounded up, plus one buckets, and at least half of k unless it is the largest; neighbouring classes differ by a factor of two |
| EhShape.SizesArePowersOfTwo | src/sketch_framework/eh.rs:135-169 | bucket sizes are powers of two |
| EhShape.DropBalanced | src/sketch_framework/eh.rs:101-109 | dropping old buckets keeps the balance |
| EhShape.NewerOutweighOldest | src/sketch_framework/eh.rs:135-169 | the newer buckets hold at least half of k times the oldest size less one |
| EhBuckets.L2Fixpoint | src/sketch_framework/eh.rs:171-178 | merging the newest light pair again and again ends where no pair is light |
| EhBuckets.SettledGrows | src/sketch_framework/eh.rs:171-196 | with masses of at least 1, every two buckets multiply the total mass by 1 + 1/k |
| EhBuckets.JoinSettledAbove | src/sketch_framework/eh_univ_optimized.rs:219-240 | a merge leaves all newer pairs beyond the merged bucket as they were |
| EhBuckets.JoinKeepsSettled | src/sketch_framework/eh_univ_optimized.rs:219-240 | when merging loses no mass, merging the newest light pair makes no newer pair light |
| ExponentialHistogram.Cutoff | src/sketch_framework/eh.rs:105-105 | the earliest time still within the window |
| ExponentialHistogram.ExponentialHistogram.constructor | src/sketch_framework/eh.rs:73-82 | an empty histogram with k at least 1 |
| ExponentialHistogram.ExponentialHistogram.UpdateWindow | src/sketch_framework/eh.rs:85-87 | changes the window and nothing else |
| ExponentialHistogram.ExponentialHistogram.MergeAtIndex | src/sketch_framework/eh.rs:201-209 | merges a bucket into its older neighbour, or changes nothing if the sketches refuse |
| ExponentialHistogram.JoinDescribes | src/sketch_framework/eh.rs:61-68 | a merged bucket's size, mass and time range are those of the updates merged into it |
| ExponentialHistogram.JoinAtConcat | src/sketch_framework/eh.rs:61-68 | a merge changes neither the updates held nor their order |
| ExponentialHistogram.ExponentialHistogram.EndClass | src/sketch_framework/eh.rs:147-158 | the boundary step of the cascade, merge included |
| ExponentialHistogram.ExponentialHistogram.MergeVolumesL1 | src/sketch_framework/eh.rs:135-169 | loses nothing, and restores the balance that the new bucket disturbed |
| ExponentialHistogram.ExponentialHistogram.FindL2MergeCandidate | src/sketch_framework/eh.rs:180-196 | finds the newest light pair, or none if the histogram is settled |
| ExponentialHistogram.ExponentialHistogram.MergeVolumesL2 | src/sketch_framework/eh.rs:171-178 | ends, at the fixpoint of the L2 rule |
| ExponentialHistogram.ExponentialHistogram.CountExpired | src/sketch_framework/eh.rs:101-106 | counts exactly the leading buckets that ended before the cutoff |
| ExponentialHistogram.ExponentialHistogram.Push | src/sketch_framework/eh.rs:101-120 | drops exactly the leading buckets that ended more than a window ago, hence only updates older than that, and appends a bucket for the new one |
| ExponentialHistogram.ExponentialHistogram.Update | src/sketch_framework/eh.rs:97-126 | the buckets remain a segmentation of a suffix of the stream; what has been dropped was older than the window of some update; L1 is balanced, with nondecreasing times within its window error; L2 is the fixpoint of the live buckets and the new one |
| ExponentialHistogram.DropAndAppend | src/sketch_framework/eh.rs:101-120 | what is dropped is a run of updates outside the window |
| ExponentialHistogram.OnlyOldestExpired | src/sketch_framework/eh.rs:101-109 | with nondecreasing times only the oldest bucket holds expired updates |
| ExponentialHistogram.WindowError | src/sketch_framework/eh.rs:97-169 | half of k, rounded up, times the expired updates retained is at most the live ones less one |
| ExponentialHistogram.EarnedJoin | src/sketch_framework/eh.rs:171-196 | merging a light pair keeps every merged bucket made of parts that together weigh at most 1/k of everything newer |
| ExponentialHistogram.L2WindowError | src/sketch_framework/eh.rs:171-196 | so where merging at most doubles masses, a merged bucket, the oldest included, weighs at most 2/k of everything newer |
| MapTier.MergeMaps | src/sketch_framework/eh_univ_optimized.rs:229-231 | the merged frequencies are the pointwise sums |
| MapTier.CalcMapL22 | src/sketch_framework/eh_univ_optimized.rs:23-25 | the sum of the squared frequencies, in whatever order they are visited |
| MapTier.AddFreqMass | src/sketch_framework/eh_univ_optimized.rs:229-232 | merging maps without negative frequencies loses no mass |
| MapTier.OnePassIsFixpoint | src/sketch_framework/eh_univ_optimized.rs:215-241 | without negative frequencies one backward pass reaches the fixpoint of the L2 rule |
| MapTier.PassKeepsCut | src/sketch_framework/eh_univ_optimized.rs:215-241 | the pass never removes a bucket boundary newer than the pair it has come to |
| MapTier.PassFromIff | src/sketch_framework/eh_univ_optimized.rs:215-241 | from any position with a settled newer part, the rest of the pass reaches the fixpoint exactly if each of its merges leaves no light pair behind |
| MapTier.OnePassIff | src/sketch_framework/eh_univ_optimized.rs:215-241 | the pass reaches the fixpoint of the L2 rule if no merge leaves a light pair behind, and with non-empty buckets only then, whatever the signs |
| MapTier.NonNegativeIsSmooth | src/sketch_framework/eh_univ_optimized.rs:215-241 | without negative frequencies no merge does |
| MapTier.CancellingPass | src/sketch_framework/eh_univ_optimized.rs:215-241 | for every k, the pass merges nothing before the last of 2k + 2 given updates and then only the two that cancel |
| MapTier.NegativeFrequencyLeavesLightPair | src/sketch_framework/eh_univ_optimized.rs:215-241 | for every k below 2^63, the pass leaves a light pair there and misses the fixpoint |
| MapTier.CancellingRun | src/sketch_framework/eh_univ_optimized.rs:193-241 | the same reached from an empty tier by its updates |
| MapTier.PassHolds | src/sketch_framework/eh_univ_optimized.rs:215-241 | the pass never changes how often a key is held in all |
| MapTier.UpdateHolds | src/sketch_framework/eh_univ_optimized.rs:193-241 | an update drops only wholly expired buckets and keeps every other occurrence |
| MapTier.SingleMass | src/sketch_framework/eh_univ_optimized.rs:203-213 | a new bucket's recorded mass is that of its map |
| MapTier.UpdateKeepsSize | src/sketch_framework/eh_univ_optimized.rs:203-241 | the recorded sizes add up to the values of the updates held, as long as these are not negative |
| MapTier.MapTier.MergeAt | src/sketch_framework/eh_univ_optimized.rs:224-232 | merges two neighbours in place |
| MapTier.MapTier.MergePass | src/sketch_framework/eh_univ_optimized.rs:215-241 | the loop with its running mass is one pass of the rule |
| MapTier.MapTier.CountExpired | src/sketch_framework/eh_univ_optimized.rs:194-198 | counts the leading expired buckets |
| MapTier.MapTier.Update | src/sketch_framework/eh_univ_optimized.rs:193-249 | drops exactly the leading buckets that ended more than a window ago, appends, merges and promotes: the whole new state, settled if no frequency is negative |
| SpaceSaving.SpaceSaving.constructor | examples/compare_univmon_q_bundle.rs:722-728 | an empty summary |
| SpaceSaving.SpaceSaving.Update | examples/compare_univmon_q_bundle.rs:730-752 | counts an item, seats it, or replaces a least one; the heap covers every live pair and stays within four per slot |
| SpaceSaving.SpaceSaving.PopLive | examples/compare_univmon_q_bundle.rs:742-747 | the eviction loop ends, despite stale and repeated entries, at the least key of those with the least count |
| SpaceSaving.SpaceSaving.Compact | examples/compare_univmon_q_bundle.rs:799-809 | keeps the heap's length within its bound |
| SpaceSaving.SpaceSaving.Refill | examples/compare_univmon_q_bundle.rs:803-808 | one entry per tracked key |
| SpaceSaving.SpaceSaving.Merge | examples/compare_univmon_q_bundle.rs:754-786 | keeps largest ones of the summed counts, missing sides valued at their minimum |
| SpaceSaving.LeastCount | examples/compare_univmon_q_bundle.rs:755-764 | the minimum of a full summary, zero otherwise |
| SpaceSaving.Combine | examples/compare_univmon_q_bundle.rs:765-776 | the union of both key sets with the summed bounds |
| SpaceSaving.Largest | examples/compare_univmon_q_bundle.rs:777-779 | some largest entries, ties decided arbitrarily |
| SpaceSavingBounds.CountSound | examples/compare_univmon_q_bundle.rs:730-752 | an update keeps every count between the truth and the truth plus the minimum |
| SpaceSavingBounds.MergeSound | examples/compare_univmon_q_bundle.rs:754-786 | so does a merge, for the union of the items |
| SpaceSavingBounds.EveryPlanSound | examples/compare_univmon_q_bundle.rs:730-786 | and so does every tree of updates and merges |
| SpaceSavingBounds.CeilingBound | examples/compare_univmon_q_bundle.rs:730-786 | capacity times the minimum is at most the number of items |
| SpaceSavingBounds.HeavyHittersTracked | examples/compare_univmon_q_bundle.rs:730-786 | every key above a share of one in capacity is tracked, with an error of at most that share |
| SpaceSavingBounds.CountsConserveItems | examples/compare_univmon_q_bundle.rs:730-752 | without merges the counts sum to the number of items |
| ScanHeap.BubbleUpOrders | src/common/structures/heap.rs:266-280 | sifting up restores heap order |
| ScanHeap.BubbleDownOrders | src/common/structures/heap.rs:232-263 | sifting down restores heap order |
| ScanHeap.SiftOrders | src/common/structures/heap.rs:179-187 | changing any one count and sifting keeps heap order |
| ScanHeap.SiftRearranges | src/common/structures/heap.rs:179-187 | a sift keeps the items, each as often as before, and unique keys |
| ScanHeap.Position | examples/hhheap_probe.rs:212-212 | the linear scan finds the key exactly if it is there |
| ScanHeap.UpdateKeepsHeap | examples/hhheap_probe.rs:211-233 | an update keeps heap order, unique keys and the capacity |
| ScanHeap.UpdateUpdates | examples/hhheap_probe.rs:211-233 | what an update does to the set of items: rescore, admit, refuse, or replace the root |
| ScanHeap.TurnedAwayIff | examples/hhheap_probe.rs:219-233 | a new key is turned away exactly if the heap is full and no resident counts less; otherwise one that counts least makes room |
| ScanHeap.RootIsLeast | src/common/structures/heap.rs:110-112 | the root has the least count |
| TopK.RunTracks | src/common/heap.rs:95-108 | after any run each resident has its last offered count, and there is room only if every key is resident |
| TopK.RunRetainsTop | src/common/heap.rs:95-108 | if a key's offered counts never decrease, the residents are a true top k |
| TopK.AnswersAreExact | src/common/heap.rs:91-108 | all answers of a run are true exactly if every offered key is resident, exactly if at most k keys were offered |
| TopK.LastAnswerIff | src/common/heap.rs:91-108 | a single answer tells whether every offered key is resident, except exactly if its key was resident and more than k keys were offered before |
| TopK.RescoreMisleads | src/common/heap.rs:95-108 | in that case the answer is true and some offered key is not resident |
| TopK.OneAnswerCanMislead | src/common/heap.rs:91-108 | a true answer after a key has been turned away |
| HHHeap.HHHeap.constructor | src/common/heap.rs:60-77 | an empty heap of the given capacity |
| HHHeap.HHHeap.Clear | src/common/heap.rs:144-148 | empties heap, digests and index together |
| HHHeap.PositionIn | src/common/heap.rs:284-299 | finds an entry of a bucket if there is one |
| HHHeap.HHHeap.Retarget | src/common/heap.rs:284-290 | moves one entry of one bucket |
| HHHeap.SwapIndexes | src/common/heap.rs:273-281 | retargeting one entry in each of two buckets follows a swap exactly |
| HHHeap.HHHeap.SwapEntry | src/common/heap.rs:273-281 | digests swapped, buckets again partition the positions, colliding digests included |
| HHHeap.RemovedIndexes | src/common/heap.rs:293-302 | removing an entry leaves exactly that position unlisted and no empty bucket |
| HHHeap.HHHeap.DropEntry | src/common/heap.rs:293-302 | the same in place |
| HHHeap.HHHeap.AddEntry | src/common/heap.rs:199-211 | listing the missing position completes the index |
| HHHeap.HHHeap.RebuildIndex | src/common/heap.rs:223-238 | derives digests and index from the heap array |
| HHHeap.HHHeap.Lookup | src/common/heap.rs:172-178 | the index finds what a linear scan finds |
| HHHeap.HHHeap.Find | src/common/heap.rs:80-83 | the same for callers |
| HHHeap.HHHeap.SwapReported | src/common/structures/heap.rs:257-258 | a reported swap keeps digests and index aligned with the heap |
| HHHeap.HHHeap.BubbleUpWith | src/common/structures/heap.rs:266-280 | the loop is the sift of the specification and keeps the index aligned |
| HHHeap.HHHeap.BubbleDownWith | src/common/structures/heap.rs:232-263 | likewise, and reports whether the entry moved |
| HHHeap.HHHeap.UpdateAtWith | src/common/structures/heap.rs:179-187 | sifts down, or up if that moved nothing; refuses positions out of range |
| HHHeap.HHHeap.Rescore | src/common/heap.rs:181-190 | writes a count and sifts, index aligned |
| HHHeap.HHHeap.Seat | src/common/heap.rs:194-220 | appends or replaces the root, index aligned |
| HHHeap.HHHeap.ShouldAcceptNew | src/common/heap.rs:241-255 | accepts unless a full heap's root is not beaten |
| HHHeap.HHHeap.Update | src/common/heap.rs:95-108 | heap and answer are those of the scan heap, position by position |
| Isotonic.JoinedMean | examples/compare_univmon_rank_modes.rs:977-991 | a join's mean lies between those of its parts |
| Isotonic.JoinPools | examples/compare_univmon_rank_modes.rs:985-990 | joining two blocks out of order keeps sums and the prefix-mean property |
| Isotonic.BlocksAreClosest | examples/compare_univmon_rank_modes.rs:961-999 | block means are the least-squares monotone fit; clamped, the least-squares monotone fit within [0, 1] |
| Isotonic.FitIsUnique | examples/compare_univmon_rank_modes.rs:961-999 | there is only one such fit |
| Isotonic.FitKeepsAdmissible | examples/compare_univmon_rank_modes.rs:961-999 | ranks that are already monotone within [0, 1] are left alone |
| Isotonic.PushAndPool | examples/compare_univmon_rank_modes.rs:970-992 | the inner loop ends with ascending pooled blocks |
| Isotonic.Spread | examples/compare_univmon_rank_modes.rs:993-998 | writes a block's clamped mean to exactly its points |
| Isotonic.Isotonicize | examples/compare_univmon_rank_modes.rs:961-999 | in place, only the ranks change, to the closest monotone ranks within [0, 1] |
| HydraKeys.PushEscaped | src/sketch_framework/hydra.rs:38-45 | appends the escaped string |
| HydraKeys.ReadEscaped | src/sketch_framework/hydra.rs:38-45 | reading a token undoes escaping it |
| HydraKeys.EscapeAdds | src/sketch_framework/hydra.rs:38-45 | escaping adds one character for each structural one and leaves plain text alone |
| HydraKeys.PlainWrite | src/sketch_framework/hydra.rs:51-55 | for plain text a subkey is `label:value` of the constrained columns, joined by semicolons |
| HydraKeys.DecodeWritten | src/sketch_framework/hydra.rs:169-184 | decoding a subkey gives back its labels and values, whatever their characters |
| HydraKeys.SubkeysEqualIff | src/sketch_framework/hydra.rs:51-58 | two subkeys of a schema are equal exactly if mask and values on the mask are |
| HydraKeys.BitsDetermine | src/sketch_framework/hydra.rs:175-175 | a mask below 2^D is determined by its D bits |
| HydraKeys.TryFrom | src/sketch_framework/hydra.rs:72-105 | accepts exactly the non-empty, small enough, duplicate-free label lists |
| HydraKeys.EncodeSubkeyInto | src/sketch_framework/hydra.rs:169-184 | the loop writes the subkey of the mask |
| HydraKeys.SubkeyFits | src/sketch_framework/hydra.rs:127-134 | no subkey is longer, in UTF-8 bytes, than the capacity set aside |
| HydraKeys.ResolveQuery | src/sketch_framework/hydra.rs:150-164 | succeeds exactly for full-width keys with a constrained column; the mask marks exactly those columns |
| Median.MedianOfThree | src/common/structure_utils.rs:382-397 | the network returns the value of rank 1 |
| Median.MedianOfFour | src/common/structure_utils.rs:398-419 | the mean of the values of ranks 1 and 2 |
| Median.MedianOfFive | src/common/structure_utils.rs:420-456 | the value of rank 2 |
| Median.ComputeMedian | src/common/structure_utils.rs:374-467 | the median, for every number of values |
| Median.RankedUnique | src/common/structure_utils.rs:374-467 | a rank determines its value |
| Median.MedianFollowsMajority | src/common/structure_utils.rs:374-467 | the median respects every bound that more than half of the values respect |
| HydraCells.CounterAppend | src/sketches/countminsketch.rs:247-262 | a Count-Min counter of two streams is the sum of its counters |
| HydraCells.EstimateCoversIff | src/sketches/countminsketch.rs:345-361 | whatever the signs, the estimate covers the true count exactly if in no row the other values sharing the counter sum to less than zero |
| HydraCells.EstimateExactIff | src/sketches/countminsketch.rs:345-361 | and equals it exactly if, moreover, in some row they sum to zero |
| HydraCells.EstimateCovers | src/sketches/countminsketch.rs:345-361 | in particular without negative counts it is at least the true count |
| HydraCells.EstimateExact | src/sketches/countminsketch.rs:345-361 | and exactly the true count if in some row no other value shares the counter |
| HydraCells.NegativeCountUndercounts | src/sketches/countminsketch.rs:345-361 | one negative insert of a value that shares a counter otherwise free of collisions makes the estimate too small |
| HydraCells.CountMinSketch.constructor | src/sketches/countminsketch.rs:196-208 | all counters zero |
| HydraCells.CountMinSketch.InsertMany | src/sketches/countminsketch.rs:317-325 | in place, every counter stays the sum of the counts hashed to it |
| HydraCells.CountMinSketch.EstimateValue | src/sketches/countminsketch.rs:345-361 | the loop finds the least counter of the value |
| HydraCells.CountMinSketch.Merge | src/sketches/countminsketch.rs:247-262 | the counters of both streams |
| HydraGrid.FedAppend | src/sketch_framework/hydra.rs:270-298 | a cell fed two streams holds what each of them wrote |
| HydraGrid.WantedIff | src/sketch_framework/hydra.rs:252-265 | a record writes under a query's subkey for exactly one mask, and only if it matches the query |
| HydraGrid.CellsCover | src/sketch_framework/hydra.rs:241-329 | without negative counts the query's cell holds at least the true count, in every row |
| HydraGrid.CellsExact | src/sketch_framework/hydra.rs:241-329 | and exactly the true count if no other subkey of the stream is placed there |
| HydraGrid.CountMinOverestimates | src/common/input.rs:508-510 | the estimate of a Count-Min cell covers the count of every value, in cells without negative counts |
| HydraGrid.FedNonNegative | src/sketch_framework/hydra.rs:241-267 | a stream without negative counts gives every cell none |
| HydraGrid.MedianCovers | src/sketch_framework/hydra.rs:310-329 | for every estimator that covers cells without negative counts, the median of the rows covers the subpopulation |
| HydraGrid.Hydra.constructor | src/sketch_framework/hydra.rs:208-229 | an empty grid of the given counter kind |
| HydraGrid.Hydra.FastInsert | src/common/structures/vector2d.rs:283-294 | one entry to one cell of every row |
| HydraGrid.Hydra.Update | src/sketch_framework/hydra.rs:241-267 | every cell holds what the accepted records wrote; a wrong arity changes nothing |
| HydraGrid.Hydra.Merge | src/sketch_framework/hydra.rs:270-298 | the grid of both streams; an error and no change exactly if dimensions, counter kinds or labels differ |
| HydraGrid.Hydra.QueryKey | src/sketch_framework/hydra.rs:310-329 | succeeds exactly for resolvable keys and a query the counters support; the median of the estimates of the query's cells, never below the true count if the estimator covers |
| HydraGrid.Hydra.QueryFrequency | src/sketch_framework/hydra.rs:333-335 | over Count-Min cells and a stream without negative counts, never below the true count of the value in the subpopulation |
| ElasticWorker.Vote | src/sketch_framework/octo.rs:696-738 | votes stay within their machine ranges, and the bucket has a resident |
| ElasticWorker.VoteKeeps | src/sketch_framework/octo.rs:696-738 | an arrival is counted once: as a vote held, a vote sent, or a loss |
| ElasticWorker.BooksStep | src/sketch_framework/octo.rs:696-738 | every flow stays accounted for, at home, with a truthful eviction flag |
| ElasticWorker.BooksFlush | src/sketch_framework/octo.rs:742-756 | flushing a bucket moves its votes from held to sent |
| ElasticWorker.ToldVote | src/sketch_framework/octo.rs:696-738 | votes are sent with a set flag exactly if their bucket has changed hands; with a clear one, what was sent under the key is every arrival of the flow so far |
| ElasticWorker.ToldFlush | src/sketch_framework/octo.rs:742-756 | the same for votes sent by a flush |
| ElasticWorker.VoteThreshold | src/sketch_framework/octo.rs:772-785 | votes below the threshold are held, and none are sent under it |
| ElasticWorker.GivesWayIff | src/sketch_framework/octo.rs:718-726 | a resident gives way exactly to an arrival of another flow with which the arrivals of others since it was seated reach eight times its own less those sent |
| ElasticWorker.SeatedVotes | src/sketch_framework/octo.rs:708-729 | a flow is seated with one vote, and by eviction with one against it and the flag |
| ElasticWorker.LightBooksSpill | src/sketch_framework/octo.rs:762-768 | each light counter accounts for exactly the spilled arrivals |
| ElasticWorker.ElasticWorkerSketch.constructor | src/sketch_framework/octo.rs:670-675 | no flows, no votes, at least one bucket |
| ElasticWorker.ElasticWorkerSketch.PromoteHeavy | src/sketch_framework/octo.rs:772-785 | ships, with the flag, and clears the votes that reached the threshold |
| ElasticWorker.ElasticWorkerSketch.VoteHeavy | src/sketch_framework/octo.rs:706-738 | the four branches, in place |
| ElasticWorker.ElasticWorkerSketch.InsertEmitDelta | src/sketch_framework/octo.rs:696-738 | keeps the books of both halves and every flag sent truthful; no votes are sent below the threshold; a losing arrival is counted in the light part and only there |
| ElasticWorker.ElasticWorkerSketch.Flush | src/sketch_framework/octo.rs:742-758 | sends all votes, with truthful flags, and all light counters; residents stay |
| ElasticWorker.NeverUndercounts | src/sketch_framework/octo.rs:696-785 | a flow's keyed mass plus any of its light counters covers all its occurrences |
| ElasticWorker.UnflaggedIsExact | src/sketch_framework/octo.rs:642-738 | a resident with a clear eviction flag has every occurrence in its keyed mass |
| CocoTable.InsertedKeeps | src/sketches/coco.rs:136-181 | recording keeps keys single and at home and adds exactly the inserted mass |
| CocoTable.NotResident | src/sketches/coco.rs:146-152 | a key in none of its buckets is nowhere in the table |
| CocoTable.WinningDraws | src/sketches/coco.rs:168-176 | a held bucket changes hands for the draws below the share of the increment in its new count, so never for nothing |
| CocoTable.PickedNext | src/sketches/coco.rs:153-165 | the scan keeps a smallest bucket, the last one its draws kept among equally small ones |
| CocoTable.MergeAdds | src/sketches/coco.rs:258-268 | where no two keys share a bucket, a merge adds up the counts of each key, whatever is drawn |
| Coco.Coco.constructor | src/sketches/coco.rs:121-128 | an empty table of d rows of w buckets |
| Coco.Coco.Scan | src/sketches/coco.rs:140-165 | finds the key or the smallest of its buckets that the draws pick |
| Coco.Coco.Insert | src/sketches/coco.rs:136-181 | the resident, or the smallest bucket the draws pick, takes the whole increment; the election decides its key; mass grows by the increment |
| Coco.Coco.EstimateKey | src/sketches/coco.rs:185-198 | the sum over the key's buckets is the sum over the whole table |
| Coco.Coco.RecordedFlows | src/sketches/coco.rs:203-210 | every keyed bucket in table order, no key twice |
| Coco.Coco.GroupBy | src/sketches/coco.rs:214-223 | each group is the sum of the flows that project to it, and the groups are exactly those projections |
| Coco.GroupsConserveMass | src/sketches/coco.rs:214-223 | however keys are projected, the groups hold the whole mass |
| Coco.Coco.Merge | src/sketches/coco.rs:258-268 | one insert per keyed bucket of the other table, in table order, with its own key and count; the mass of both tables |
| CocoWorker.LedgerInsert | src/sketch_framework/octo.rs:571-608 | an arrival is counted once in what is held back |
| CocoWorker.LedgerPromote | src/sketch_framework/octo.rs:609-617 | a promotion moves a bucket's count to what was sent, under a key that arrived |
| CocoWorker.CocoWorkerSketch.constructor | src/sketch_framework/octo.rs:521-528 | an empty table of d rows of w buckets |
| CocoWorker.CocoWorkerSketch.Scan | src/sketch_framework/octo.rs:571-594 | finds the key or the smallest of its buckets that the draws pick |
| CocoWorker.CocoWorkerSketch.InsertEmitDelta | src/sketch_framework/octo.rs:555-618 | records as CocoSketch does; a bucket at the threshold is sent under the key it then holds; bytes never overflow |
| CocoWorker.CocoWorkerSketch.Flush | src/sketch_framework/octo.rs:622-635 | sends each bucket that counts anything once, under its own key with its own count; afterwards what was sent is what arrived |
| Nitro.AdmitSplit | src/common/structure_utils.rs:275-294 | two updates admit what one of their joint size admits, with the same weights and schedule, where positions have no limit |
| Nitro.RunIsOneUpdate | src/common/structure_utils.rs:275-294 | the same for every cut of a stream into updates |
| Nitro.RunAdmitsRenewals | src/common/structure_utils.rs:255-294 | a run admits exactly the renewal positions within it |
| Nitro.WalkWeights | src/common/structure_utils.rs:190-232 | the i-th admitted slot weighs the reciprocal of the rate, rounded up exactly if the i-th draw is below the fraction; one draw per slot, and none if the reciprocal is an integer |
| Nitro.WalkCaps | src/common/structure_utils.rs:283-294 | the saturating walk admits the same slots and caps the skip it leaves behind |
| Nitro.WordAdmitIs | src/common/structure_utils.rs:275-294 | in machine words too, an update admits renewal positions and draws their weights one by one |
| Nitro.WordRunAdmitsTheSame | src/common/structure_utils.rs:275-294 | in machine words, a run whose slots a word can count admits the slots of one update of its joint size |
| Nitro.WordRunIff | src/common/structure_utils.rs:275-294 | a run of any length agrees with the unlimited schedule throughout exactly if each update ends with its next slot within a machine word |
| Nitro.ShortSkipsAreExact | src/common/structure_utils.rs:275-294 | in particular if every skip leaves room for the rows of one update |
| Nitro.SaturationShortens | src/common/structure_utils.rs:290-294 | a skip at the limit comes out one slot short |
| Nitro.Nitro.constructor | src/common/structure_utils.rs:153-181 | the first skip is drawn at once |
| Nitro.Nitro.DrawGeometric | src/common/structure_utils.rs:255-263 | one table entry per draw, none at full sampling |
| Nitro.Nitro.AdmittedDelta | src/common/structure_utils.rs:222-232 | the reciprocal of the rate rounded by one draw, which is left alone if there is nothing to round |
| Nitro.Nitro.AdmitRows | src/common/structure_utils.rs:275-294 | the loop is one update of the schedule in machine words: positions and weights as drawn |

## Left out

- The worker sketches of the other parents (UnivMon, DDSketch, HyperLogLog, top-k), the keyed variants of the Count-Min and Count workers, and what the parents of the Coco and Elastic workers do with a delta: further payloads of the same protocol.
- `close` as an operation of its own, read handles, thread pinning, panics and the threshold controller: the threshold is an arbitrary value in range instead.
- OctoTheorems.FlushExactIffDrained: empty queues are necessary for Count-Min alone, because signed promotions still queued can cancel; OctoTheorems.FlushExactIff has the exact condition for both.
- OctoLiveness.NeverDeadlocks: one completing schedule; that every fair one completes is OctoTermination.FairRunsFinish. That the operating system is fair is an assumption.
- OctoWorker.Clamp: the shared threshold is an argument of each step; how the atomic is read is not modelled.
- Saturation and overflow of the parents' counters, of stream lengths and of Space-Saving counts, which would need more items than fit in 64 bits.
- Rounding of `f64`: masses, means, ranks, medians and election draws are real numbers, so NaN, signed zero and rounding are excluded.
- ExponentialHistogram.ExponentialHistogram.Update: the balance and the settled state need sketches that never refuse a merge, as the comment at src/sketch_framework/eh.rs:122-124 says; the segmentation does not.
- Interval queries over histograms and the choice of their end buckets.
- MapTier.MapTier.Update: the bucket promoted to the sketch tier is handed to the caller; the sketch tier, its merging and the sketch pool are not modelled.
- SpaceSaving.SpaceSaving.Update: needs a capacity of at least 1; with capacity 0 the source has nothing to evict and panics.
- HHHeap.HHHeap.Update: keys are assumed to have lawful equality that the digest respects, which excludes floating-point keys.
- Coco.Coco.Merge: the key-by-key sum holds without competition for buckets; with it, keys can be lost to others, as the sketch intends. Tables of different shape, at which the source panics, are excluded.
- HydraGrid.Hydra.QueryKey: the estimators of counters other than Count-Min are a parameter; what they guarantee is not modelled.
- HydraGrid.Hydra.QueryFrequency: stated for Count-Min counters, which the source names as its use; for the others it is QueryKey.
- HydraGrid.Hydra.Merge: counters of one kind but different dimensions, on which merging a cell panics, are not modelled.
- HydraCells.CountMinSketch.Merge: needs equal dimensions and hashing; the source panics on different dimensions.
- MapTier.OnePassIff: the necessity of the condition is stated for buckets of size at least 1, because buckets of size zero can be indistinguishable.
- MapTier.CancellingRun: sums of bucket sizes are unbounded; in the source the sizes recorded for k and -k sum to 2^64, which a release build wraps to 0 and a debug build refuses. The merging rule never reads the size.
- Nitro.Nitro.constructor: rates outside (0, 1], at which the source panics, are not modelled; the skip table and the uniform stream are parameters.
- The probabilistic accuracy of the sketches, the hash functions and random number generators themselves, and all serialisation.
