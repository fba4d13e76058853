# Verification of BW Forge's accounting, storage and scheduling core

This project models, in Dafny 4.11, the parts of BW Forge whose correctness is not visible from
reading one function, and proves what their callers rely on. `dafny verify dfyconfig.toml` checks
everything. Automatic induction is switched off on every lemma, so each inductive proof is the one
that is written down.

**Mining opportunity cost** (`MineralSaturation`, `CurvePoints`, `OpportunityCost`,
`OpportunitySweep`, `OpportunityCalculator`, `Sums`). A calibrated curve gives a base's mineral
income for a number of workers and patches. The calculator charges to each absent worker the income
lost while it was away, by sweeping over clipped half-open intervals. Every property of the rate
comes from one fact: it is the lower envelope of finitely many linear forms. The sweep is proved
equal to the sum over all frames, and its errors are characterised exactly.

**Job queue** (`JobQueue`, `JobHistory`, `JobColumns`, `JobStore`, `WorkerLoop`). Analysis jobs are
leased to workers; results are ingested under a fence. Each SQL transaction is one step on a value
of type `Db`; `JobStore` carries the same steps out on mutable tables, `JobColumns` says what each
one answers and writes column by column, and `JobHistory` states what whole runs keep. `WorkerLoop`
adds the workers' own control flow, with crashes anywhere.

**Sparse store** (`SparseTables`, `EconomyImport`, `CompositionImport`, `TimelineStore`,
`StoredRows`). Only changes are stored, twice over: the analyzer emits changed snapshots, the
importer stores changed units. Point queries are proved to answer as the dense timeline would.

**Report viewer** (`TrackPacking`, `CombatDeaths`, `SupplyIntervals`). First-fit packing of timeline
items, matching of drone deaths to building starts, and the supply strip.

**Build-order file** (`BuildLines`). Events are printed with whole-second timestamps and read back
as windows of frames.

**Identity catalog** (`AliasCatalog`, `AliasMerge`, `CatalogValidation`, `CatalogSections`,
`CatalogTables`, `CatalogRoundTrip`, `IdentityStore`). The merge of community aliases, and the
application and export of a configuration.

**Limits on concurrency** (`ToolSlots`, `RegistrationGate`, `TurnLimits`). Two semaphores with abort
and the limits on agent turns, as state machines under any interleaving.

`Sorting` and `Options` hold the library sort, ordered listings of sets and optional values.

The main specifications are also stated without their own vocabulary, on the rows, samples, items or
calls that go in and the columns that come out (the rows below that say so).

Where the code and a natural expectation differ, the code is modelled and the difference is stated:
a heartbeat revives a lapsed lease (`WorkerLoop.LapsedRun`, with the exact condition in
`JobHistory.LapsedLeaseIsRevived`); supply samples tied at the left edge of the range are read
differently by the interval builder and by the step function (`SupplyIntervals.StripIsExactIff`); a
failure to clean up after a committed ingest makes a worker report a failed job
(`WorkerLoop.UncleanRun`, with the exact condition in `WorkerLoop.ReportedIffUnclean`).

## Model

| member | source | states |
|---|---|---|
| `MineralSaturation.MakeModel` | packages/legacy-replay-analysis/mineral_saturation.py:65-113 | the constructor's single pass, which remembers one point and one slope, accepts exactly the curves that start at the origin, increase pairwise and have falling non-negative slopes; otherwise the error is the first one of the source's order of checks |
| `MineralSaturation.JustifiesOnce` | packages/legacy-replay-analysis/mineral_saturation.py:77-113 | the first failing check is unique, so the reported error is determined by the arguments |
| `MineralSaturation.SaturationTest` | packages/legacy-replay-analysis/mineral_saturation.py:115-137 | the integer test that guards the saturation shortcut holds exactly when the scaled worker count reaches the last calibrated point |
| `MineralSaturation.ShortcutAgrees` | packages/legacy-replay-analysis/mineral_saturation.py:115-146 | the shortcut for saturated bases returns what interpolation would have returned |
| `MineralSaturation.RateIsSomeFacet` | packages/legacy-replay-analysis/mineral_saturation.py:115-146 | the rate equals one of finitely many linear forms in workers and patches, with non-negative coefficients |
| `MineralSaturation.RateBelowFacets` | packages/legacy-replay-analysis/mineral_saturation.py:115-146 | and no such form is smaller: the rate is the lower envelope of the forms |
| `MineralSaturation.RateMonotone` | packages/legacy-replay-analysis/mineral_saturation.py:115-146 | more workers or more patches never mine less |
| `MineralSaturation.RateHomogeneous` | packages/legacy-replay-analysis/mineral_saturation.py:115-146 | multiplying workers and patches by the same number multiplies the rate by it |
| `MineralSaturation.RateSuperadditive` | packages/legacy-replay-analysis/mineral_saturation.py:115-146 | two bases run together mine at least as much as apart |
| `MineralSaturation.RateConcave` | packages/legacy-replay-analysis/mineral_saturation.py:115-146 | additional workers bring less and less |
| `MineralSaturation.EqualShareFalls` | packages/legacy-replay-analysis/mineral_saturation.py:115-146 | the loss per absent worker is non-negative and never rises with more absentees |
| `MineralSaturation.DefaultModelIsValid` | packages/legacy-replay-analysis/mineral_saturation.py:157-162 | the calibration shipped as the default passes the constructor's checks |
| `CurvePoints.CurveOnPoints` | packages/legacy-replay-analysis/mineral_saturation.py:88-113 | a curve is valid exactly when each point is in range, has more workers and no lower rate than the one before, and no three neighbours bend upwards, compared without division |
| `CurvePoints.RateOnSegment` | packages/legacy-replay-analysis/mineral_saturation.py:115-146 | between two calibrated points the rate is that of the straight line through them, scaled to the patches |
| `CurvePoints.RateAtEnds` | packages/legacy-replay-analysis/mineral_saturation.py:125-132 | beyond the last point the rate is the cap, and without workers or patches it is nothing |
| `CurvePoints.RateAtPoints` | packages/legacy-replay-analysis/mineral_saturation.py:115-146 | at the reference number of patches a calibrated number of workers has its calibrated rate |
| `CurvePoints.DefaultRates` | packages/legacy-replay-analysis/mineral_saturation.py:157-162 | the rates of the shipped calibration at its own points |
| `OpportunityCost.StateIsUnique` | packages/legacy-replay-analysis/mining_opportunity_cost.py:150-160 | in tables without overlaps a base has at most one economic state per frame |
| `OpportunityCost.LossIsNonnegative` | packages/legacy-replay-analysis/mining_opportunity_cost.py:268-283 | no frame of any base is charged a negative loss |
| `OpportunityCost.CostIsAdditive` | packages/legacy-replay-analysis/mining_opportunity_cost.py:179-313 | total, per-worker and per-category cost of a coverage is the sum over its two parts, wherever it is cut |
| `OpportunitySweep.CollectEvents` | packages/legacy-replay-analysis/mining_opportunity_cost.py:241-246 | the event set holds exactly the coverage ends and the clipped ends of the intervals that meet the coverage |
| `OpportunitySweep.FillBuckets` | packages/legacy-replay-analysis/mining_opportunity_cost.py:249-255 | the start and end buckets hold, per frame, exactly the clipped absences that start or end there |
| `OpportunitySweep.LiveStep` | packages/legacy-replay-analysis/mining_opportunity_cost.py:256-262 | removing the leaving and adding the arriving absences turns the set covering the previous segment into the set covering the next |
| `OpportunitySweep.LiveIsConstant` | packages/legacy-replay-analysis/mining_opportunity_cost.py:241-262 | between two consecutive events the set of absences covering a frame does not change |
| `OpportunitySweep.Advance` | packages/legacy-replay-analysis/mining_opportunity_cost.py:259-262 | the worker dictionary keeps representing exactly the live absences across one event |
| `OpportunitySweep.CurrentState` | packages/legacy-replay-analysis/mining_opportunity_cost.py:263-267 | the moving index into the sorted states lands on the state that covers the frame and never has to go back |
| `OpportunitySweep.AllocateEqually` | packages/legacy-replay-analysis/mining_opportunity_cost.py:163-176 | the loss is shared equally among the absent workers and by category; both lists sum to the whole and list exactly the workers and categories concerned, in ascending order |
| `OpportunitySweep.MakeSegment` | packages/legacy-replay-analysis/mining_opportunity_cost.py:268-287 | a segment over a stretch of constant state carries the exact frame-by-frame loss and its exact shares |
| `OpportunitySweep.SweepStep` | packages/legacy-replay-analysis/mining_opportunity_cost.py:256-288 | one iteration yields the exact next segment and restores the loop invariant, or stops because a count leaves the curve's range |
| `OpportunitySweep.SweepBase` | packages/legacy-replay-analysis/mining_opportunity_cost.py:238-288 | the segments of a base tile the coverage, each is exact and runs from one start or end of a row to the next; the sweep fails only, and exactly, when the count of workers in some frame is out of range |
| `OpportunityCalculator.NeighboursDecide` | packages/legacy-replay-analysis/mining_opportunity_cost.py:144-147 | for intervals sorted as the code sorts them, comparing neighbours decides pairwise disjointness |
| `OpportunityCalculator.ValidateNonoverlap` | packages/legacy-replay-analysis/mining_opportunity_cost.py:144-147 | accepts exactly the lists whose intervals are pairwise disjoint |
| `OpportunityCalculator.ValidateRows` | packages/legacy-replay-analysis/mining_opportunity_cost.py:209-220 | grouping by key and checking each group accepts exactly the tables in which no two rows with the same key overlap |
| `OpportunityCalculator.ValidateTables` | packages/legacy-replay-analysis/mining_opportunity_cost.py:209-220 | economic states are checked before absences, and the first failing table decides the error |
| `OpportunityCalculator.CoverageComplete` | packages/legacy-replay-analysis/mining_opportunity_cost.py:150-160 | accepts a base exactly when every frame of the coverage lies in one of its economic intervals |
| `OpportunityCalculator.ValidateCoverage` | packages/legacy-replay-analysis/mining_opportunity_cost.py:222-228 | accepts exactly when the tables name at least one base and every base they name is completely covered |
| `OpportunityCalculator.AddSegment` | packages/legacy-replay-analysis/mining_opportunity_cost.py:288-293 | adding one exact segment extends exact running totals by base, worker and category |
| `OpportunityCalculator.AddBase` | packages/legacy-replay-analysis/mining_opportunity_cost.py:288-305 | adding all segments of a base yields its exact totals |
| `OpportunityCalculator.TotalsGrow` | packages/legacy-replay-analysis/mining_opportunity_cost.py:288-305 | totals that are exact for some bases stay exact when one more base is added |
| `OpportunityCalculator.SweepAll` | packages/legacy-replay-analysis/mining_opportunity_cost.py:238-293 | over all bases the sweep equals the sum over every frame, or fails exactly when a count is out of range |
| `OpportunityCalculator.CalculateOpportunityCost` | packages/legacy-replay-analysis/mining_opportunity_cost.py:179-313 | the whole calculation: it succeeds exactly on consistent, covered, in-range input and then equals the frame-by-frame sums; every base that an economic or absence row names then has a state in every frame, the breakdowns have exactly those bases, and exactly the workers and categories of the absences that meet the coverage; otherwise the error is the first one of the source's order of checks |
| `OpportunityCalculator.AnswerOnRows` | packages/legacy-replay-analysis/mining_opportunity_cost.py:209-228 | in terms of the rows alone: success, and each error, by rows that share a frame, frames of a named base without a state, and frames with too many workers |
| `OpportunityCalculator.LossOnRows` | packages/legacy-replay-analysis/mining_opportunity_cost.py:265-287 | the loss of one frame and its equal shares, from the economic row and the absences that contain the frame |
| `OpportunityCalculator.CategoryLossOnRows` | packages/legacy-replay-analysis/mining_opportunity_cost.py:163-176 | a category carries one share for each of its workers absent at the base in that frame |
| `OpportunityCalculator.TotalsOnFrames` | packages/legacy-replay-analysis/mining_opportunity_cost.py:266-313 | on success the total is the sum over bases and frames, each breakdown gives every key its own sum, and each breakdown adds up to the total |
| `OpportunityCalculator.SegmentsOnFrames` | packages/legacy-replay-analysis/mining_opportunity_cost.py:233-296 | every named base has exactly one segment for each frame of the coverage and none outside it; the segments are ordered by start |
| `OpportunityCalculator.SegmentBounds` | packages/legacy-replay-analysis/mining_opportunity_cost.py:247-262 | a segment runs from one start or end of a row of its base, or end of the coverage, to the next: there is a boundary at both ends and none between |
| `OpportunityCalculator.SegmentOnRows` | packages/legacy-replay-analysis/mining_opportunity_cost.py:265-293 | in each of its frames a segment has the state of the economic row, the number of absentees, the difference of the two rates, and that rate times its length as loss |
| `OpportunityCalculator.SegmentShares` | packages/legacy-replay-analysis/mining_opportunity_cost.py:163-176 | a segment lists in ascending order exactly the workers and categories absent in its frames, with their shares, which add up to its loss |
| `JobQueue.NextClaimExists` | packages/corpus-store/python/jobs.py:129-132 | when any job is claimable there is a least one in the order priority descending, available time, row id |
| `JobQueue.NextClaimIsUnique` | packages/corpus-store/python/jobs.py:129-132 | and that job is unique |
| `JobQueue.EnqueueKeepsInv` | packages/corpus-store/python/jobs.py:57-110 | enqueueing keeps the queue invariant |
| `JobQueue.ExpireKeepsInv` | packages/corpus-store/python/jobs.py:113-120 | failing jobs whose last allowed lease ran out keeps the invariant |
| `JobQueue.ClaimKeepsInv` | packages/corpus-store/python/jobs.py:123-150 | claiming, with the sweep of exhausted jobs before it, keeps the invariant |
| `JobQueue.HeartbeatKeepsInv` | packages/corpus-store/python/jobs.py:153-163 | renewing a lease keeps the invariant |
| `JobQueue.FinishKeepsInv` | packages/corpus-store/python/jobs.py:166-190 | recording success or failure keeps the invariant |
| `JobQueue.RetryKeepsInv` | packages/corpus-store/python/jobs.py:193-202 | an accepted retry keeps the invariant, including one active job per replay, which the unique index protects |
| `JobQueue.IngestKeepsInv` | packages/corpus-store/python/store.py:243-356 | an ingest, fenced or not, keeps the invariant |
| `JobQueue.JobFacts` | packages/corpus-store/python/jobs.py:113-202 | what the invariant says of one job: which columns its status sets, that its last attempt agrees with it in worker and outcome, and that its result is an indexed analysis of its own replay |
| `JobQueue.ApplyKeepsInv` | packages/corpus-store/python/jobs.py:57-202 | every transaction keeps the invariant |
| `JobQueue.ExecuteKeepsInv` | packages/corpus-store/python/jobs.py:57-202 | the invariant holds after every run, with any interleaving of workers, any crashes and any clock readings |
| `JobHistory.ApplyIsLater` | packages/corpus-store/python/jobs.py:57-202 | no transaction deletes a row, lowers an attempt count, or changes a finished attempt, a succeeded job or an analysis |
| `JobHistory.ExecuteIsLater` | packages/corpus-store/python/jobs.py:57-202 | the same over whole runs |
| `JobHistory.SupersededAttemptIsFenced` | packages/corpus-store/python/store.py:244-251 | once a later attempt was claimed, the earlier one can never again renew, finish or commit an ingest, whatever happens in between |
| `JobHistory.FencedIngestIsCurrent` | packages/corpus-store/python/store.py:244-251 | an accepted fenced ingest comes from the job's newest attempt, in progress, of that worker, for that replay, with an unexpired lease |
| `JobHistory.LapsedLeaseIsRevived` | packages/corpus-store/python/jobs.py:153-163 | after a heartbeat the fence holds if and only if the job is still leased to this attempt and the new lease is positive, whether or not the old lease had lapsed |
| `JobHistory.KeyIsIndexedOnce` | packages/corpus-store/python/store.py:254-272 | after an analysis key was indexed, every later ingest of it changes nothing and answers with the same analysis, unless its own fence is stale |
| `JobHistory.SuccessIsDurable` | packages/corpus-store/python/jobs.py:166-190 | a succeeded job keeps, for ever, an indexed analysis of its own replay |
| `JobHistory.StepLowersWeight` | packages/corpus-store/python/jobs.py:57-202 | each claimed, finished or expired job lowers the sum of 2*(max_attempts - attempt_count), plus one if running, over active jobs; only enqueue and retry raise it |
| `JobHistory.WorkIsBounded` | packages/corpus-store/python/jobs.py:57-202 | over a run, claims, finishes and expiries are bounded by the initial work plus what enqueues and retries granted |
| `JobHistory.AttemptsAreBounded` | packages/corpus-store/python/jobs.py:193-202 | a job is attempted at most as often as its initial limit plus its accepted retries allow |
| `JobColumns.EnqueueAnswers` | packages/corpus-store/python/jobs.py:57-110 | which of its answers enqueue gives, by the sizes, active jobs and current analyses of the replay, the force flag and the attempt limit |
| `JobColumns.EnqueueWrites` | packages/corpus-store/python/jobs.py:57-110 | a new job is queued with the given priority and limit; nothing else changes |
| `JobColumns.ClaimAnswers` | packages/corpus-store/python/jobs.py:123-150 | a claim takes the first job, by priority descending, available time and id, that is queued and due or whose lease has run out, and is idle exactly when there is none |
| `JobColumns.ClaimWritesJobs` | packages/corpus-store/python/jobs.py:113-150 | what a claim writes to every job: jobs out of leases and attempts fail, the claimed one is leased, all others stay |
| `JobColumns.ClaimWritesAttempts` | packages/corpus-store/python/jobs.py:113-150 | what a claim writes to every attempt: one new row, and the attempts whose lease ran out are abandoned |
| `JobColumns.HeartbeatOnColumns` | packages/corpus-store/python/jobs.py:153-163 | a heartbeat by the owner sets the lease to now plus the lease length; any other is refused |
| `JobColumns.SucceedOnColumns` | packages/corpus-store/python/jobs.py:166-180 | a success needs the lease and an indexed analysis of the same replay, and what it writes |
| `JobColumns.FailOnColumns` | packages/corpus-store/python/jobs.py:181-190 | a failure needs the lease only, and what it writes |
| `JobColumns.RetryOnColumns` | packages/corpus-store/python/jobs.py:193-203 | a retry needs a failed job and no active one for the replay; it queues the job with room for one more attempt |
| `JobColumns.IngestOnColumns` | packages/corpus-store/python/store.py:243-272 | the fence of an ingest, the no-op on a known key, and the new row |
| `JobColumns.JobAfterRun` | packages/corpus-store/python/jobs.py:57-203 | after every run: attempts are numbered from one, the columns of a job follow from its status, and so do the outcomes of its attempts |
| `JobColumns.OncePerReplayAndKey` | packages/corpus-store/python/jobs.sql:33-35 | after every run no replay has two active jobs and no key two analyses |
| `JobColumns.LeaseIsRespected` | packages/corpus-store/python/jobs.py:123-163 | over all runs: a leased job is claimed again only when the clock has reached the last lease its holder was granted, unless it was finished and retried |
| `JobColumns.EarlierAttemptIsShutOut` | packages/corpus-store/python/jobs.py:153-190 | after a claim, in every continuation, heartbeat, success, failure and fenced ingest of an earlier attempt of that job are refused and write nothing |
| `JobColumns.SameAnalysisAgain` | packages/corpus-store/python/store.py:254-272 | after an accepted ingest, in every continuation, the same key writes nothing and answers with the same analysis or, under a fence of its own, as stale |
| `JobColumns.MovesAndGrants` | packages/corpus-store/python/jobs.py:57-203 | on the columns, the moves that the bound counts, and what an enqueue or retry grants: two for every attempt it leaves to the job |
| `JobStore.JobStore.constructor` | packages/corpus-store/python/jobs.sql:12-51 | a new store is empty |
| `JobStore.JobStore.Enqueue` | packages/corpus-store/python/jobs.py:57-110 | updates the tables and replies as the enqueue transaction |
| `JobStore.JobStore.ExpireExhausted` | packages/corpus-store/python/jobs.py:113-120 | the row loop has the effect of expiring all exhausted jobs at once |
| `JobStore.JobStore.Claim` | packages/corpus-store/python/jobs.py:123-150 | updates the tables and replies as the claim transaction, whose answer and writes `JobColumns` states column by column |
| `JobStore.JobStore.Heartbeat` | packages/corpus-store/python/jobs.py:153-163 | updates the tables and replies as the heartbeat transaction |
| `JobStore.JobStore.Succeed` | packages/corpus-store/python/jobs.py:166-190 | updates the tables and replies as the succeed transaction |
| `JobStore.JobStore.Fail` | packages/corpus-store/python/jobs.py:166-190 | updates the tables and replies as the fail transaction |
| `JobStore.JobStore.Retry` | packages/corpus-store/python/jobs.py:193-202 | updates the tables and replies as the retry transaction |
| `JobStore.JobStore.Ingest` | packages/corpus-store/python/store.py:243-356 | updates the tables and replies as the ingest transaction |
| `WorkerLoop.BrokenByOwnReport` | packages/corpus-store/python/jobs.py:182-186 | an attempt becomes broken only by its own worker's failure report |
| `WorkerLoop.ActKeepsInv` | packages/corpus-store/src/jobs.ts:73-114 | every step of a worker, or of anyone else, keeps the workers' invariant |
| `WorkerLoop.RunKeepsInv` | packages/corpus-store/src/jobs.ts:73-114 | over all runs and crashes: an attempt whose ingest was accepted is never recorded as failed by its worker, unless the publisher could not clean up |
| `WorkerLoop.UncleanIsReported` | packages/corpus-store/src/publication.ts:192-323 | an error while removing the staging directory hides the publication, so a worker that still holds its lease records a failure and leaves the ingest in the database |
| `WorkerLoop.ReportedIffUnclean` | packages/corpus-store/src/jobs.ts:87-113 | the exact condition: the end of an attempt records it as failed if and only if cleaning up failed, no heartbeat was missed and the lease is still its own |
| `WorkerLoop.UncleanRun` | packages/corpus-store/src/jobs.ts:73-114 | a run from the empty database in which the exception happens: the ingest is accepted, the staging directory stays, and the attempt is recorded as failed |
| `WorkerLoop.LapsedRun` | packages/corpus-store/python/jobs.py:153-163 | a run from the empty database that ends with a lapsed lease, which the next heartbeat revives |
| `WorkerLoop.CleanIsNotReported` | packages/corpus-store/src/jobs.ts:87-113 | without such an error the worker reports success with the ingest's analysis, or leaves its lease to expire because a heartbeat or the ingest's answer was lost |
| `WorkerLoop.GiveUpIsReported` | packages/corpus-store/src/jobs.ts:87-113 | an analysis that ends in an error before publishing: if the lease is owned and no heartbeat was missed the job and its attempt are failed with that error, otherwise the database stays as it is |
| `WorkerLoop.EndIsReported` | packages/corpus-store/src/jobs.ts:87-113 | the end of an attempt after its ingest: a clean-up error is reported as failure, a heard answer as success, a lost heartbeat or answer not at all |
| `WorkerLoop.DeliveryOnColumns` | packages/corpus-store/src/publication.ts:192-323 | the ingest carries the worker's own fence and its job's replay, and the worker knows the answer it heard |
| `WorkerLoop.RefusedBeatSilences` | packages/corpus-store/src/jobs.ts:73-86 | a refused heartbeat marks the worker |
| `WorkerLoop.LostStaysSilent` | packages/corpus-store/src/jobs.ts:87-113 | a marked worker stays marked until its attempt is over, and then reports nothing |
| `SparseTables.AddCoverage` | packages/corpus-store/python/sparse.py:73-80 | a segment is added exactly when it is well-formed and overlaps none of its stream; disjointness is kept and other streams are untouched |
| `EconomyImport.CheckSamples` | packages/corpus-store/python/sparse.py:54-70 | accepts exactly the samples with non-negative, strictly increasing frames and admissible counts |
| `EconomyImport.ImportEconomy` | packages/corpus-store/python/sparse.py:83-103 | into tables without economy rows it accepts exactly the valid samples, so the overlap check never fires, and stores their runs and changes; other streams are untouched |
| `EconomyImport.EconomyAtSample` | packages/corpus-store/python/sparse.py:141-148 | at every source frame the stored rows answer with that sample's exact state and the frame at which it last changed |
| `EconomyImport.EconomyOffSample` | packages/corpus-store/python/sparse.py:129-148 | at every other frame the answer is unknown: before, in a gap or after, according to the source frames around it |
| `EconomyImport.RowsAreMinimal` | packages/corpus-store/python/sparse.py:83-103 | no stored row can be dropped without changing an answer |
| `CompositionImport.CheckSnapshots` | packages/corpus-store/python/sparse.py:54-70 | accepts exactly the snapshots with strictly increasing frames and non-negative counts |
| `CompositionImport.ImportSnapshot` | packages/corpus-store/python/sparse.py:106-126 | one snapshot adds exactly the rows of the units whose count changed, and counts the units that vanished |
| `CompositionImport.ImportComposition` | packages/corpus-store/python/sparse.py:106-126 | into tables without composition rows it accepts exactly valid snapshots over known names and stores their changes; the zero-transition count is the number of vanished units |
| `CompositionImport.CompositionInEffect` | packages/corpus-store/python/sparse.py:164-171 | a point query inside the coverage returns exactly the positive counts of the snapshot in effect |
| `CompositionImport.UnitInEffect` | packages/corpus-store/python/sparse.py:151-161 | a query for one unit returns its count in the snapshot in effect and the frame of its last change, or says that the unit is not observed |
| `CompositionImport.OutsideCoverage` | packages/corpus-store/python/sparse.py:129-138 | frames before and after the imported segment are classified as such |
| `CompositionImport.UnitRowsAreMinimal` | packages/corpus-store/python/sparse.py:106-126 | no stored row can be dropped: at its own frame both the unit's answer and the whole composition would change |
| `TimelineStore.EmitChanges` | packages/legacy-replay-analysis/replay_analysis.py:1035-1050 | the loop emits, in order, exactly the frames whose counts differ from the frame before, beginning with the first; neighbours in the result differ |
| `TimelineStore.EmissionIsLossless` | packages/legacy-replay-analysis/replay_analysis.py:1035-1050 | at every timeline frame the emitted snapshot in effect has that frame's counts |
| `TimelineStore.TimelineIsPreserved` | packages/corpus-store/python/sparse.py:106-171 | both compressions together: every timeline frame up to the last emitted snapshot is answered with exactly its positive counts, every single unit agrees, and later frames are after the coverage |
| `TimelineStore.Validate` | packages/corpus-store/python/sparse.py:174-205 | the source's oracle accepts exactly when every source frame, vanished unit and coverage edge answers as demanded |
| `TimelineStore.ImportsPassOracle` | packages/corpus-store/python/sparse.py:174-205 | it accepts every pair of imports |
| `StoredRows.OverlapIsSharedFrame` | packages/corpus-store/python/sparse.py:72-82 | a new segment is refused exactly when it shares a frame with a stored one |
| `StoredRows.CoverageOnRows` | packages/corpus-store/python/sparse.py:129-142 | a frame is covered by the segment that contains it; otherwise the answer says on which side of the segments it lies |
| `StoredRows.EconomyRowsStored` | packages/corpus-store/python/sparse.py:83-103 | a sample is stored exactly when it starts a run of consecutive frames or differs from the one before |
| `StoredRows.SegmentStarts` | packages/corpus-store/python/sparse.py:83-103 | a segment starts at a sample exactly when the frame before was not sampled |
| `StoredRows.SegmentIsRun` | packages/corpus-store/python/sparse.py:83-103 | every segment runs from a sample to the last one of consecutive frames, all of them sampled |
| `StoredRows.EconomyQueried` | packages/corpus-store/python/sparse.py:143-150 | a sampled frame answers with its state and the frame since which samples are consecutive and equal |
| `StoredRows.EconomyNotQueried` | packages/corpus-store/python/sparse.py:129-150 | any other frame is before, after or in a gap, by the frames that were sampled |
| `StoredRows.UnitRowsStored` | packages/corpus-store/python/sparse.py:106-126 | a unit row is stored exactly when the unit's count differs from the snapshot before, with the new count |
| `StoredRows.UnitRowsAreSnapshots` | packages/corpus-store/python/sparse.py:106-126 | no unit row stands at a frame without a snapshot |
| `StoredRows.CompositionQueried` | packages/corpus-store/python/sparse.py:163-175 | up to the next snapshot the composition is what the snapshot counts at least once |
| `StoredRows.UnitQueried` | packages/corpus-store/python/sparse.py:151-161 | a unit's count and the frame of its last stored row |
| `StoredRows.TimelineQueried` | packages/legacy-replay-analysis/replay_analysis.py:1035-1050 | a timeline stored through both layers answers each frame up to the last change with its own positive counts, and later ones as after the coverage |
| `StoredRows.AcceptedSamples` | packages/corpus-store/python/sparse.py:54-70 | economy samples are accepted exactly when their frames rise from zero or later, minerals and gas are present and no field is negative |
| `StoredRows.AcceptedSnapshots` | packages/corpus-store/python/sparse.py:54-70 | snapshots are accepted exactly when their frames rise from zero or later and no count is negative |
| `StoredRows.OracleOnSample` | packages/corpus-store/python/sparse.py:174-181 | tables that the oracle accepts answer every economy sample with its state |
| `StoredRows.OracleOnSnapshot` | packages/corpus-store/python/sparse.py:182-195 | tables that the oracle accepts answer every snapshot with its positive counts, and every unit that vanished with an explicit zero at that frame |
| `StoredRows.OracleOnSegment` | packages/corpus-store/python/sparse.py:196-202 | tables that the oracle accepts know the first and last frame of every segment |
| `TrackPacking.Pack` | apps/sc-forge/build-order.override.js:1139-1155 | the nested loops place each item on the first track where nothing overlaps it |
| `TrackPacking.NoOverlapOnTrack` | apps/sc-forge/build-order.override.js:1139-1182 | two items on one track never overlap |
| `TrackPacking.PackIsPermutation` | apps/sc-forge/build-order.override.js:1139-1155 | every item is placed exactly once |
| `TrackPacking.CliqueOfTracks` | apps/sc-forge/build-order.override.js:1139-1155 | for items sorted by start there are as many pairwise overlapping items as tracks |
| `TrackPacking.CliqueFitsTracks` | apps/sc-forge/build-order.override.js:1139-1155 | and no set of pairwise overlapping items is larger than the number of tracks |
| `TrackPacking.GroupIsPackedTightly` | apps/sc-forge/build-order.override.js:1120-1170 | in each group the number of tracks equals the largest pairwise overlapping subset, and no two items of a track overlap |
| `TrackPacking.UnitsComeLast` | apps/sc-forge/build-order.override.js:1128-1161 | a track holds units exactly when it lies behind all tracks of the other items |
| `TrackPacking.ArrangedIsPermutation` | apps/sc-forge/build-order.override.js:1120-1170 | the new tracks hold exactly the items of the old ones |
| `TrackPacking.SameStartRises` | apps/sc-forge/build-order.override.js:1131-1155 | with positive build times, items that start together go to ever higher tracks in processing order |
| `TrackPacking.BackOnTrack` | apps/sc-forge/build-order.override.js:1131-1155 | items of a group, sorted again with their recorded track numbers, go back to the same tracks, whatever their build times |
| `TrackPacking.SecondPassSortsTracks` | apps/sc-forge/build-order.override.js:1120-1170 | with distinct ids and any build times, normalizing the normalized tracks does exactly this: it sorts every track by start and id |
| `TrackPacking.IdempotentIffOrdered` | apps/sc-forge/build-order.override.js:1120-1170 | so a second normalization changes nothing if and only if every track is already in that order |
| `TrackPacking.ThirdPassIsStable` | apps/sc-forge/build-order.override.js:1120-1170 | and a third one never changes anything |
| `TrackPacking.NormalizingIsIdempotent` | apps/sc-forge/build-order.override.js:1120-1170 | with positive build times, which all items of the viewer have, one normalization is enough |
| `TrackPacking.ZeroBuildIsNotIdempotent` | apps/sc-forge/build-order.override.js:1120-1170 | outside the viewer's data: an item of zero length and one that starts with it swap places once, on the second pass, and then stay |
| `TrackPacking.TrackSet.Normalize` | apps/sc-forge/build-order.override.js:1120-1170 | replaces the set's tracks by the packed groups, and records in every item the position of its track and the id of the set |
| `TrackPacking.OverlapIsSharedMoment` | apps/sc-forge/build-order.override.js:1178-1182 | two items with a build time overlap exactly when there is a moment at which both are built |
| `TrackPacking.FirstFitOnItems` | apps/sc-forge/build-order.override.js:1139-1155 | an item shares no moment with the earlier ones of its track, and shares one with some earlier item of every track before |
| `TrackPacking.GroupOnItems` | apps/sc-forge/build-order.override.js:1128-1135 | the items of each kind are packed by start, recorded track and id |
| `TrackPacking.ArrangedOnItems` | apps/sc-forge/build-order.override.js:1156-1161 | the new tracks are those of the other items followed by those of the units, or one empty track |
| `CombatDeaths.CandidatesSorted` | apps/sc-forge/build-order.override.js:1559-1568 | the candidates are exactly the worker drone deaths, in time order |
| `CombatDeaths.GreedyIsMatching` | apps/sc-forge/build-order.override.js:1570-1577 | the greedy pass assigns to each building at most one death of its window, and no death twice |
| `CombatDeaths.Exchange` | apps/sc-forge/build-order.override.js:1570-1577 | taking the earliest death for a building costs any other assignment at most one pair |
| `CombatDeaths.GreedyIsBest` | apps/sc-forge/build-order.override.js:1570-1577 | no assignment of the remaining buildings and deaths is larger than the greedy one |
| `CombatDeaths.GreedyTakesFirst` | apps/sc-forge/build-order.override.js:1570-1577 | a death in a structure's window that the structure passes over, or finds and does not take, was taken by a structure before it |
| `CombatDeaths.SuppressionIsMaximum` | apps/sc-forge/build-order.override.js:1548-1577 | the suppressed deaths form a maximum matching of deaths to building starts |
| `CombatDeaths.Suppress` | apps/sc-forge/build-order.override.js:1570-1577 | the loop claims exactly the deaths of the greedy assignment |
| `CombatDeaths.FilterTerminal` | apps/sc-forge/build-order.override.js:1501-1514 | drops nothing, or exactly the deaths of the last five seconds, and the latter exactly when they look like a mass deletion |
| `CombatDeaths.SelectionsPartition` | apps/sc-forge/build-order.override.js:1587-1595 | suppressed and remaining samples together are the raw samples, each as often as recorded |
| `CombatDeaths.SelectionsKeepOrder` | apps/sc-forge/build-order.override.js:1587-1595 | both selections keep the time order |
| `CombatDeaths.Classify` | apps/sc-forge/build-order.override.js:1531-1601 | the classification returns the deaths of a largest assignment to the set's drone-built structures, each of a worker drone in the 1.5 seconds after a structure's start and none twice, no structure passing over an earlier free death, and the other samples without a terminal tail |
| `CombatDeaths.ClassifiedOnSamples` | apps/sc-forge/build-order.override.js:1531-1601 | by positions in the samples: the matched deaths are returned in order as suppressed, and the others in order as combat, less a tail of the last five seconds when that looks like a deletion |
| `CombatDeaths.StartsOfItems` | apps/sc-forge/build-order.override.js:1548-1550 | the building starts are the items built from a drone, each as often as it occurs, by start and id |
| `CombatDeaths.StartPositions` | apps/sc-forge/build-order.override.js:1548-1550 | every such item has its own place in the list of starts |
| `CombatDeaths.CandidatesInOrder` | apps/sc-forge/build-order.override.js:1559-1568 | the candidates are the worker drone deaths by time, frame and original order |
| `CombatDeaths.AccountedOnItems` | apps/sc-forge/build-order.override.js:1570-1577 | the deaths accounted for are those of an assignment to the set's own items that no other assignment exceeds |
| `CombatDeaths.FilteredOnSamples` | apps/sc-forge/build-order.override.js:1501-1514 | what is kept: all but a tail of the last five seconds with at least eight deaths, a fifth of all, of workers, buildings and units |
| `SupplyIntervals.SampleSupplyAt` | apps/sc-forge/build-order.override.js:1660-1669 | the last sample at or before the time, or the first one when the time is not after it |
| `SupplyIntervals.MergeSupplyIntervals` | apps/sc-forge/build-order.override.js:1698-1711 | the loop joins runs of touching intervals with equal state |
| `SupplyIntervals.MergedTiles` | apps/sc-forge/build-order.override.js:1698-1711 | merging a tiling gives a tiling whose neighbours differ |
| `SupplyIntervals.MergedShows` | apps/sc-forge/build-order.override.js:1698-1711 | and shows the same state at every time |
| `SupplyIntervals.RunsTile` | apps/sc-forge/build-order.override.js:1713-1732 | the intervals after the first merge tile the range, and neighbours differ |
| `SupplyIntervals.RunsAreExact` | apps/sc-forge/build-order.override.js:1713-1732 | they show, at every time, the state that the samples draw as a step function |
| `SupplyIntervals.EdgeMustAgree` | apps/sc-forge/build-order.override.js:1660-1669 | they do so only if samples tied at the left edge of the range agree in state |
| `SupplyIntervals.TiedEdgeExample` | apps/sc-forge/build-order.override.js:1660-1669 | two samples at time zero for which they do not |
| `SupplyIntervals.DistinctTimesAgree` | apps/sc-forge/build-order.override.js:1712-1731 | strictly increasing sample times rule that out |
| `SupplyIntervals.StripTiles` | apps/sc-forge/build-order.override.js:1712-1746 | the final strip tiles the range, and neighbours differ |
| `SupplyIntervals.GapsAreBridged` | apps/sc-forge/build-order.override.js:1733-1745 | a healthy gap of at most five seconds between two troubles shows the worse trouble, the earlier one on a tie |
| `SupplyIntervals.OthersAreExact` | apps/sc-forge/build-order.override.js:1733-1745 | outside such gaps the strip shows exactly what the samples draw |
| `SupplyIntervals.SeverityOnlyRises` | apps/sc-forge/build-order.override.js:1690-1746 | smoothing never hides trouble |
| `SupplyIntervals.StripBegins` | apps/sc-forge/build-order.override.js:1712-1746 | up to the first sample after the left edge the final strip shows the state of the first of the samples tied at that edge |
| `SupplyIntervals.StripIsExactIff` | apps/sc-forge/build-order.override.js:1712-1746 | so outside short gaps the final strip shows what the samples draw if and only if samples tied at the left edge agree in state |
| `SupplyIntervals.BuildSupplyIntervals` | apps/sc-forge/build-order.override.js:1712-1746 | the method computes that strip, and nothing without samples |
| `SupplyIntervals.DrawnOnSamples` | apps/sc-forge/build-order.override.js:1679-1689 | the state of the sample in force, by its current and maximal supply |
| `SupplyIntervals.GapOnSamples` | apps/sc-forge/build-order.override.js:1733-1745 | which stretches are bridged: healthy, at most five seconds long, between two troubles |
| `SupplyIntervals.GapShows` | apps/sc-forge/build-order.override.js:1690-1746 | a bridged stretch shows the worst of its two neighbours: over, else capped, else nearly capped |
| `BuildLines.WindowIsExact` | packages/corpus-store/python/store.py:145-155 | the frame window of a second is exactly the set of frames printed as that second |
| `BuildLines.WindowsTile` | packages/corpus-store/python/store.py:145-155 | windows of successive seconds tile the frames from zero on |
| `BuildLines.LineRoundTrip` | packages/corpus-store/python/store.py:145-155 | a printed line parses back to its name and second exactly when the name is not empty, has no line feed and does not begin with white space that something follows |
| `BuildLines.RenderEvents` | packages/legacy-replay-analysis/replay_analysis.py:1751-1762 | prints the first occurrence of every event, one per line |
| `BuildLines.PrepareBuilds` | packages/corpus-store/python/store.py:145-155 | reads the lines in order, skips blank ones and stops at the first that does not parse |
| `BuildLines.ReadsBack` | packages/corpus-store/python/store.py:145-155 | a printed file of plain events reads back as one row per event |
| `BuildLines.FileRoundTrip` | packages/corpus-store/python/store.py:145-155 | printing and reading return every distinct event once, in order and under its own name, if and only if every name is on one line, is not empty and does not begin with white space that something follows; each window then contains its event's frame |
| `BuildLines.DistinctKeepsAll` | packages/legacy-replay-analysis/replay_analysis.py:1751-1762 | removing duplicates keeps every event and leaves none twice |
| `BuildLines.DistinctInOrder` | packages/legacy-replay-analysis/replay_analysis.py:1751-1762 | the kept events stand in the order of their first occurrences |
| `AliasCatalog.NormalizeCatalog` | packages/corpus-store/python/identity_import.py:50-123 | the loops reject exactly the catalogs in which a key or an identity occurs twice, and otherwise return the normal form |
| `AliasCatalog.NormalizeIsNormal` | packages/corpus-store/python/identity_import.py:50-123 | the result is sorted by key and alias, without duplicates |
| `AliasCatalog.NormalizeKeeps` | packages/corpus-store/python/identity_import.py:50-123 | it has the same players and aliases as the input |
| `AliasCatalog.NormalIsUnique` | packages/corpus-store/python/identity_import.py:50-123 | a normal form is determined by its players and aliases |
| `AliasCatalog.NormalizeFixesNormal` | packages/corpus-store/python/identity_import.py:50-123 | normalizing again changes nothing |
| `AliasMerge.ClassifyRows` | packages/corpus-store/python/identity_import.py:170-182 | rows for unknown players or with another display name are conflicts; the others are eligible |
| `AliasMerge.Judge` | packages/corpus-store/python/identity_import.py:188-207 | one identity is a collision in the input, a collision with the base, already there, or added under the least proposed name |
| `AliasMerge.VerdictDecides` | packages/corpus-store/python/identity_import.py:188-207 | the four outcomes exclude each other |
| `AliasMerge.MergeCatalog` | packages/corpus-store/python/identity_import.py:165-211 | merging into a valid base always succeeds; it adds exactly the unclaimed identities on which all eligible rows agree, keeps every base alias with its owner, and reports exactly the conflicts |
| `AliasMerge.MergeIgnoresOrder` | packages/corpus-store/python/identity_import.py:165-211 | permuting, repeating or renumbering the rows changes neither the merged catalog, nor the counts, nor which identities are reported as collisions |
| `AliasMerge.MergeIsIdempotent` | packages/corpus-store/python/identity_import.py:165-211 | merging the same rows again changes nothing and adds nothing |
| `AliasMerge.OwnerIsUnique` | packages/corpus-store/python/identity_import.py:165-211 | an identity belongs to at most one player of a normal catalog, so the lookup is a function |
| `AliasMerge.CleanImportIsComplete` | packages/corpus-store/python/identity_import.py:165-211 | when no conflict is reported, every row's identity ends up with the row's own player |
| `AliasMerge.AliasesOnRows` | packages/corpus-store/python/identity_import.py:165-211 | in terms of rows and players alone: which aliases the merged catalog holds |
| `AliasMerge.RowConflictsOnRows` | packages/corpus-store/python/identity_import.py:170-182 | which rows are reported: unknown keys, and display names the player does not have |
| `AliasMerge.CollisionsOnRows` | packages/corpus-store/python/identity_import.py:188-207 | which identities are reported: several players named by fitting rows, or one other than the base's |
| `AliasMerge.ReportsOnRows` | packages/corpus-store/python/identity_import.py:165-211 | an unknown player or a different display name is reported once for every such row, a collision once for its identity |
| `AliasMerge.ReportOrder` | packages/corpus-store/python/identity_import.py:209-211 | the conflicts are listed by kind, and within a kind by row number or by namespace and folded alias |
| `AliasMerge.CountsOnCatalogs` | packages/corpus-store/python/identity_import.py:183-211 | what is counted as added and as kept |
| `CatalogValidation.ValidatedIsNormal` | packages/corpus-store/python/identities.py:71-136 | whatever validation accepts it returns sorted, without repetitions and with every reference resolved |
| `CatalogValidation.NormalIsValidated` | packages/corpus-store/python/identities.py:71-136 | a configuration in that form is accepted and returned unchanged, so an exported catalog can be applied again as it is |
| `CatalogValidation.ValidatingIsIdempotent` | packages/corpus-store/python/identities.py:71-136 | validating what validation returned returns it again |
| `CatalogValidation.AcceptedOnRows` | packages/corpus-store/python/identities.py:71-136 | exactly what is accepted: no key, identity or override twice, and every reference has its row |
| `CatalogValidation.ValidatedKeeps` | packages/corpus-store/python/identities.py:71-136 | what is accepted keeps every player, alias, group, scope and override, up to order and repetition |
| `CatalogSections.UpdateSection` | packages/corpus-store/python/identities.py:178-195 | the upsert loop and the delete leave exactly the configured rows, and keys that stay keep their surrogate ids |
| `CatalogRoundTrip.AliasesBack` | packages/corpus-store/python/identities.py:144-147 | the alias query returns a player's configured aliases in order |
| `CatalogRoundTrip.LinkedBack` | packages/corpus-store/python/identities.py:152-161 | a link query returns the configured keys in order |
| `CatalogRoundTrip.OverridesExported` | packages/corpus-store/python/identities.py:148-151 | the override query returns the configured overrides in order |
| `CatalogRoundTrip.LoadedExports` | packages/corpus-store/python/identities.py:139-163 | exporting the tables that hold a validated configuration returns that configuration |
| `IdentityStore.OrderPairs` | packages/corpus-store/python/identities.py:139-163 | ORDER BY over a set of pairs has one result, whatever order the rows arrive in |
| `IdentityStore.LoadedKeepsForeignKeys` | packages/corpus-store/python/identities.py:210-211 | the closing foreign-key check never fails |
| `IdentityStore.IdentityStore.ExportCatalog` | packages/corpus-store/python/identities.py:139-163 | the query loops compute the export |
| `IdentityStore.IdentityStore.ApplyCatalog` | packages/corpus-store/python/identities.py:166-216 | afterwards the export equals the applied configuration, kept keys have kept their ids and foreign keys hold; a configuration already in place changes nothing |
| `IdentityStore.ReferencesOnRows` | packages/corpus-store/python/identities.sql:1-42 | the foreign keys that hold: every id a row refers to has its row |
| `IdentityStore.IdsOnRows` | packages/corpus-store/python/identities.py:178-195 | a key that stays has one id, before and after |
| `ToolSlots.StepKeepsInv` | apps/discord-bot/src/agent/runtime.ts:791-812 | every acquisition, abort, resumption and release keeps the invariant |
| `ToolSlots.ExecuteKeepsInv` | apps/discord-bot/src/agent/runtime.ts:791-812 | over all interleavings: permits out are counted exactly and never exceed the limit, calls wait only while all permits are out, and nobody is served before an earlier waiting call |
| `ToolSlots.SettlesOnce` | apps/discord-bot/src/agent/runtime.ts:791-812 | a settled promise keeps its outcome, and a permit is returned once |
| `ToolSlots.MovementsAreBounded` | apps/discord-bot/src/agent/runtime.ts:791-812 | calls move at most three times each: the queue cannot churn |
| `ToolSlots.NeverStuck` | apps/discord-bot/src/agent/runtime.ts:791-812 | with at least one permit: while a call waits, some call has a permit whose use moves the queue on: no wake-up is lost when an abort races a hand-over |
| `ToolSlots.AllPermitsReturn` | apps/discord-bot/src/agent/runtime.ts:791-812 | when all calls are over, all permits are back |
| `ToolSlots.PoolOnCalls` | apps/discord-bot/src/agent/runtime.ts:791-812 | in every reachable state, by the calls alone: the active count, the limit, the queue and its order |
| `ToolSlots.AcquireOnCalls` | apps/discord-bot/src/agent/runtime.ts:791-804 | a call is refused when aborted, gets a free permit, or waits |
| `ToolSlots.PermitGoesOn` | apps/discord-bot/src/agent/runtime.ts:805-811 | a permit given up wakes the first waiter with it, or is free |
| `ToolSlots.OtherEventsOnCalls` | apps/discord-bot/src/agent/runtime.ts:799-809 | a woken call takes its permit, an aborted waiter leaves the queue, and nothing else happens |
| `ToolSlots.ToolSlotPool.Acquire` | apps/discord-bot/src/agent/runtime.ts:791-804 | updates the runtime's fields as the acquisition step |
| `ToolSlots.ToolSlotPool.Cancel` | apps/discord-bot/src/agent/runtime.ts:800-802 | the abort listener takes its own call out of the queue |
| `ToolSlots.ToolSlotPool.Resume` | apps/discord-bot/src/agent/runtime.ts:805-809 | a woken call takes its permit or, if aborted meanwhile, passes it on |
| `ToolSlots.ToolSlotPool.Release` | apps/discord-bot/src/agent/runtime.ts:810-811 | releasing wakes the first waiter or frees the permit, once |
| `RegistrationGate.AdmitIsHandOver` | packages/corpus-store/src/watcher.ts:248-253 | after a release the admission loop admits exactly the first waiter, if any |
| `RegistrationGate.ExecuteKeepsInv` | packages/corpus-store/src/watcher.ts:244-274 | over all interleavings: active slots are counted exactly and never exceed the limit, requests wait only while the gate is open and full, first come first served |
| `RegistrationGate.SettlesOnce` | packages/corpus-store/src/watcher.ts:244-274 | an admitted or refused request is never decided again, and a slot returns once |
| `RegistrationGate.ClosedAdmitsNobody` | packages/corpus-store/src/watcher.ts:263-273 | after an abort nobody obtains a slot any more |
| `RegistrationGate.MovementsAreBounded` | packages/corpus-store/src/watcher.ts:244-274 | requests move at most twice each: releases and an abort cannot churn the queue |
| `RegistrationGate.NeverStuck` | packages/corpus-store/src/watcher.ts:244-274 | with at least one slot, a waiting request has a holder whose release admits the first waiter |
| `RegistrationGate.GateOnRequests` | packages/corpus-store/src/watcher.ts:244-274 | in every reachable state, by the requests alone: the active count, the limit, the queue and its order, and when the gate is closed |
| `RegistrationGate.AcquireOnRequests` | packages/corpus-store/src/watcher.ts:268-272 | a request is turned away by a closed gate, gets a free slot, or waits |
| `RegistrationGate.ReleaseOnRequests` | packages/corpus-store/src/watcher.ts:248-262 | a slot goes to the first waiter, or is free, once |
| `RegistrationGate.AbortOnRequests` | packages/corpus-store/src/watcher.ts:263-266 | an abort turns away exactly the waiting requests |
| `RegistrationGate.RegistrationGate.Acquire` | packages/corpus-store/src/watcher.ts:268-272 | updates the gate as the acquisition step |
| `RegistrationGate.RegistrationGate.Release` | packages/corpus-store/src/watcher.ts:254-262 | updates the gate as the release step, once per slot |
| `RegistrationGate.RegistrationGate.Abort` | packages/corpus-store/src/watcher.ts:263-266 | closes the gate and refuses exactly the queued requests |
| `TurnLimits.ExecuteKeepsInv` | apps/discord-bot/src/agent/runtime.ts:396-420 | over all interleavings: running turns and user reservations are counted exactly, neither limit is exceeded, and turns are parked only while every place is taken |
| `TurnLimits.NeverStuck` | apps/discord-bot/src/agent/runtime.ts:402-416 | with at least one place, a parked turn always has a running one whose end wakes it |
| `TurnLimits.AllPlacesReturn` | apps/discord-bot/src/agent/runtime.ts:401-419 | when no turn is under way both counters are empty again |
| `TurnLimits.StoppedStartsNothing` | apps/discord-bot/src/agent/runtime.ts:399-410 | once stopped, no turn starts |
| `TurnLimits.LimitsOnTurns` | apps/discord-bot/src/agent/runtime.ts:396-420 | in every reachable state, by the turns alone: both counts, both limits, who is parked, and whether it is stopped |
| `TurnLimits.EntryOnTurns` | apps/discord-bot/src/agent/runtime.ts:397-411 | a turn sleeps while its user has no room, parks while every place is taken, else runs; when stopped it gives up |
| `TurnLimits.ResumeOnTurns` | apps/discord-bot/src/agent/runtime.ts:402-411 | a woken turn parks again, runs, or returns its reservation when stopped |
| `TurnLimits.EndOnTurns` | apps/discord-bot/src/agent/runtime.ts:413-419 | the end of a turn frees its place and reservation and rouses every parked turn; stopping only rouses them |
| `TurnLimits.TurnLimiter.Begin` | apps/discord-bot/src/agent/runtime.ts:396-412 | updates the counters as the entry of a turn, up to its first suspension |
| `TurnLimits.TurnLimiter.Resume` | apps/discord-bot/src/agent/runtime.ts:402-410 | a woken turn checks the global limit again |
| `TurnLimits.TurnLimiter.Finish` | apps/discord-bot/src/agent/runtime.ts:413-419 | frees the place, wakes every waiter and drops the reservation |

## Left out

- Floating point: rates, losses, times and supply are exact reals; `math.fsum` and rounding are not modelled. The tolerance of 1e-9 in the supply merge is.
- `rate` itself raises for negative or huge counts; in the model counts are naturals and the sweep checks their upper bound.
- The constructors of intervals, absences and coverages reject malformed rows; the calculator's model starts from rows with positive length and a coverage that is not reversed.
- Strings that only serve as keys (worker, base, player and unit names, namespaces, digests) are ordered opaque integers; case folding is an arbitrary function. Only the build-order file is modelled by character, with ASCII digits where Python's `\d` also admits others.
- A frame's second is computed exactly; the source divides by 1000 in floating point.
- Replay metadata, source rows, created and updated timestamps of the catalog, artifacts and their content checks during ingest; an analysis is its key and its replay.
- The public job key is identified with the row id; the forms of JSON payloads, keys, digests, display names, filters and chronology bounds are not checked.
- Listing and showing jobs, migrations, and reading and writing files.
- Publication itself (hashing, staging, renaming, verification of a reused publication): `WorkerLoop` only knows whether the ingest was accepted, whether its answer was heard and whether cleaning up failed.
- Polling and the interval timer of the worker: heartbeats may come at any time, or fail.
- The sparse tables hold one observation; the check that `time_seconds` agrees with the frame is not modelled; coverage rows are grouped by stream.
- Start, build time, kind and id of a timeline item are fixed; only its track index and set id change.
- The mutation of interval objects shared between two lists in the supply merge is modelled on values; no other code holds the shared object.
- The death samples enter the classification in time order, as the viewer's parser leaves them.
- The role column of the catalog's scope tables is split into one table per role; `validate` is a function, its loops over players are those of `normalize_catalog`.
- Overrides, groups and scopes in the alias import pass through unchanged and are not modelled there.
- Session pumps, which also wait among the turns' waiters, hold nothing and are not modelled.
- The duplicate elimination of tool calls, the user interface, Discord, language-model providers, MCP transport, configuration and logging.
- JobHistory.LapsedLeaseIsRevived: states what heartbeat does, since neither heartbeat nor finish looks at the expiry of a lease.
- SupplyIntervals.RunsAreExact: needs samples tied at the left edge to agree; SupplyIntervals.EdgeMustAgree shows that the condition is necessary, and SupplyIntervals.StripIsExactIff that it is exact for the final strip.
- TrackPacking.NormalizingIsIdempotent: for positive build times, which every unit of the viewer's tables has; TrackPacking.IdempotentIffOrdered gives the exact condition for any build times. Ids are distinct, as `makeItem` numbers them.
