# Verified model of the ElasticOps backend

ElasticOps analyses an Elasticsearch cluster, recommends jobs (shrink, split, merge, move, drain),
and runs the approved ones in the background. This project models the logic behind that in Dafny
and proves what it keeps. `dafny verify dfyconfig.toml` checks everything.

## What is modelled

**In-place resize** (`ResizeProtocol`, `ResizeSafety`, `ResizeVerdicts`, `Executor`). Elasticsearch is a
source index and a temporary index, each a map from document id to document with a shard count. The
executor is a program counter that stands at one awaited request; the environment answers each request: it
may fault, take effect although it faulted, hide an existing index from a probe, carry over only part of
the documents, and report a failed task as complete. A list of answers may end anywhere, which is a killed
process. The state machine is proved to keep the whole document map in the source or in the temporary
index from exactly the safe starts, and between attempts two counts tell whether a start is safe; the
class `Elasticsearch` and the methods over it run the same protocol step by step and are proved to end
where the state machine does. The protocol is not unconditionally crash safe, although the comment at
`backend/services/executor.py:272-273` says so: an attempt that stops while the recreated source is
incomplete leads the next attempt to delete the only full copy. `ResizeRecovery`, `ResizeRestart` and
`ResizeLosses` join this protocol with the job system below, for all jobs that ever resize the index: the
documents survive if every attempt begins alone and on a source that does not count fewer documents than
the temporary index, and that gate is exact at each start. Without it they are lost in two ways, each a
proved run in which no answer is false or faulty: the process is killed after the recreate and restarts
the executor by itself, or a reindex ends short, its job fails, and the same recommendation is executed
once more.

**Jobs** (`JobTable`, `RecommendRoute`, `Reconciliation`, `RouteEffects`, `Batching`, `JobSystem`,
`JobSafety`, `Outcomes`, `Stranding`, `Exclusivity`, `JobService`). The job table, one program counter per
background task, and the free slots form one transition system. A route is atomic up to its commit, and
may fail between the commit and the submission; a task moves from await to await and may be cancelled or
hit by an exception at each; deleting a cluster deletes rows under running tasks. The class `Service`
carries out each step on mutable fields, is proved to do what the transition system says, and keeps the
invariant behind the cap and the fingerprints from call to call. The windows of the code are kept and are
characterised exactly: those in which a queued row has no task (a task is lost, or was never submitted),
and those in which an interruption around the flip or a lost terminal commit leaves a row `executing`
without a slot. The gate of `execute_all` compares the index column only; which steps keep two jobs from
touching a common index, the temporary index of a resize included, is stated exactly.

**Analysis, recommendation, and their loop with the executor** (`Analyzer`, `Findings`, `Analysis`,
`ListedFigures`, `Recommender`, `Recommendation`, `ShardFactors`, `Convergence`). From index and shard
rows to opportunities, to suggested jobs, to the shard count the executor snaps to, and back. The loop
settles in at most three resizes exactly when `2 * ideal_min <= ideal_max` and `tiny_max <= tiny_limit *
ideal_max`, and in at most two exactly when the second bound is tightened to `(tiny_limit / 2 + 1) *
ideal_max` (integer division); otherwise it can go on for ever. The shipped thresholds settle in two.

**Rebalance advisory** (`Rebalance`, `RebalancePlan`). The greedy loop, with the invariant on nodes that have
received; its promises are proved to admit one plan only. The
docstring (`backend/services/rebalance.py:21-22`) says it stops once the gap is at most one; the code
stops only when the heaviest eligible node is no heavier than the lightest one. It is proved that a
gap of one is left exactly when some node above the minimum has never received, and that two nodes
with one shard and none exchange it. The model follows the code.

**Pivot tree, shard map, node list** (`Text`, `Pivot`, `PivotTrie`, `PivotShape`, `PivotFinal`,
`PivotView`, `PivotTotals`, `PivotScale`, `ShardMapView`, `ShardOwner`). The nodes are objects in nested
dictionaries, updated in place and tied to a tree of values; the tree of index-name segments with
rolled-up totals is proved equal to "filter by prefix and sum", for any non-empty separator, and to agree
with the two independently built views: with the shard map always, with the node list exactly when no
shown index is listed twice. The scale of the view is documented as the largest leaf
(`backend/services/snapshot_service.py:192`). The code takes the largest index instead: it can be too
large, because system indices count, and too small, because a leaf also shows longer names below it. When
the two agree is stated exactly.

**Login throttle** (`LoginThrottle`, `FailureCount`, `Logins`) and **exclusion list** (`ExcludeSet`). The
pruned failure lists against the full log, and the exact number of failures that overlapping logins can
leave in a window; the comma-joined set of drained nodes over runs of operations.

## Assumptions

- Counts are exact; copying or creating onto an existing index is an error; deleting a missing one too.
- No client writes to the source during an attempt. The write block is lifted at
  `backend/services/executor.py:339-347`, before the comparison and the delete, so the code does not
  enforce this itself.
- One request per step: index settings, health waits, metadata capture and progress writes between two
  requests are folded into the answer of one await. Probes swallow exceptions, so a faulting probe is a
  cancellation.
- A reindex task left behind by a stopped attempt writes documents of the original into the source at any
  time, during later attempts too, and may bring a missing source back, except while an attempt is
  looking for it (`ResizeSafety.LateCreationLoses` shows that exception to be needed).
- Nothing but the resizes of an index writes or deletes it or its temporary index. For jobs in flight
  together `Exclusivity.OnePerNameIff` says when that holds.
- The 16-digit hash of cluster, index and job type is injective. Job ids are never reused.
- A restart is one event: the old process is gone, all slots are free, and `recover` has run.
- Sizes are exact reals in gigabytes; the coefficient of variation is compared squared.
- Index names are unique in a cluster, so `_cat/indices` lists each once; where a theorem needs that, it
  says so.
- The clock of the throttle never goes back. Which nodes are data nodes is given.

## Model

| member | source | states |
|---|---|---|
| ShardFactors.LargestFactorLe | backend/services/executor.py:19-25 | the countdown loop computes the first divisor met at or below both the request and the current count less one |
| ShardFactors.LargestFactorIsGreatestDivisor | backend/services/executor.py:19-25 | for every count above one the result is the greatest proper divisor not above the request, and one for a request below one |
| ShardFactors.SmallestMultipleIsLeast | backend/services/executor.py:28-33 | the result is a multiple of the current count that reaches the request, and no positive multiple that reaches it is smaller |
| ResizeProtocol.SmallerMap | backend/services/executor.py:350-351 | why counts are enough: a submap is no larger, and one of equal size is the map itself |
| ResizeProtocol.AdvanceKeepsInv | backend/services/executor.py:291-421 | every awaited request, whatever its answer, keeps the invariant of its program point: whole map in source or temp, nothing foreign in either |
| ResizeProtocol.RunKeepsInv | backend/services/executor.py:259-421 | so does any sequence of answers, ending anywhere |
| ResizeSafety.OneAttemptSafeIff | backend/services/executor.py:291-421 | one attempt can never lose the documents, at any step and under any answers, if and only if an existing source is complete with nothing foreign in an existing temp, or the source is absent and the temp complete |
| ResizeSafety.SuccessIsComplete | backend/services/executor.py:413-421 | a finished attempt leaves the source complete and no temporary index |
| ResizeSafety.SuccessIsResized | backend/services/executor.py:385-402 | a finished attempt leaves the target shard count, and the old one exactly when its first probe missed an existing source |
| ResizeSafety.MissedProbeSkipsResize | backend/services/executor.py:227-233 | one false negative with a full stale temp finishes without resizing |
| ResizeSafety.AlwaysResizesIff | backend/services/executor.py:291-303 | from a safe start every success resizes if and only if there is no source to miss, or it has the target count already, or no full temp stands beside it |
| ResizeSafety.IncompleteSourceLoses | backend/services/executor.py:301-303 | with both indices present and the source incomplete, three truthful answers are enough to lose the map |
| ResizeSafety.ForeignTempLoses | backend/services/executor.py:295-298 | with a complete source, a temp holding foreign documents, and one missed probe, the map can be lost |
| ResizeSafety.HonestAttemptSucceeds | backend/services/executor.py:291-421 | from every safe start (fresh, stale temp, resumed) a faultless run ends complete, resized and cleaned up |
| ResizeVerdicts.FaultIsTheEnd | backend/services/executor.py:305-347 | after a fault at any request the attempt neither finishes nor touches an index again, whatever is answered |
| ResizeVerdicts.FaultWithEffect | backend/services/executor.py:331-361 | a request that took effect although it faulted leaves the indices as if it had not faulted |
| ResizeVerdicts.WrongIndexIsTheEnd | backend/services/executor.py:331-421 | using an index that is not there, or making one that is, ends the attempt and changes nothing |
| ResizeVerdicts.SuccessIsFaultless | backend/services/executor.py:259-421 | an attempt that finishes met no fault on the way |
| ResizeVerdicts.ProbesDecide | backend/services/executor.py:291-303 | a resumed attempt goes straight to the reindex, a fresh one first drops a stale copy, and without an index there is nothing to resize |
| ResizeVerdicts.CopyIsTaken | backend/services/executor.py:305-347 | the copy has the target count and what was carried over of the original, which stays |
| ResizeVerdicts.ComparisonDecides | backend/services/executor.py:349-361 | of equal counts the original goes and the copy stays; of different ones the copy goes, the original stays and the attempt is over |
| ResizeVerdicts.RecreateAndFill | backend/services/executor.py:385-408 | the recreated source has the target count and exactly the documents carried over when the reindex is reported complete |
| ResizeVerdicts.ReplacementDecides | backend/services/executor.py:411-421 | of equal counts the copy goes and the attempt is done; of different ones both stay |
| ResizeSafety.LeftBehindKeepsInv | backend/services/executor.py:402-408 | a left-behind task that writes any part of the original into the source keeps the invariant at every program point of a later attempt |
| ResizeSafety.LateCreationLoses | backend/services/executor.py:291-303 | a left-behind task that recreates a missing source just as an attempt resumes makes that attempt, on truthful answers, delete the only full copy |
| ResizeSafety.LifeKeepsInv | backend/services/executor.py:295-303 | the invariant survives any mix of answers, new attempts and left-behind reindex tasks, as long as no attempt begins on a source that counts short |
| ResizeSafety.ManyAttemptsSafe | backend/services/executor.py:295-303 | hence over any number of failed attempts and re-runs the whole map is in source or temp at every step, as long as no attempt begins while the source counts fewer documents than the temp |
| ResizeSafety.CountsTellIncomplete | backend/services/executor.py:301-303 | after any such history an existing source is incomplete if and only if a temp exists and counts more documents |
| ResizeSafety.RestartSafeIff | backend/services/executor.py:301-303 | the side condition is exact, and two counts before the attempt decide it: one more attempt is safe if and only if the source does not count short |
| ResizeSafety.CrashAfterRecreateLoses | backend/services/executor.py:385-402 | the bad state is reachable with truthful probes: a crash right after the recreate, then a re-run, loses the only full copy |
| Executor.Elasticsearch.Exists | backend/services/executor.py:227-233 | a probe reports an existing index or a false negative, never a missing index as present |
| Executor.Elasticsearch.Count | backend/services/executor.py:351 | an answered count is the number of documents |
| Executor.Elasticsearch.DeleteIndex | backend/services/executor.py:361 | a delete that succeeds removes exactly that index; a fault may have done so too |
| Executor.Elasticsearch.CopyIndex | backend/services/executor.py:336-337 | a split or shrink makes a new index with a part of the source's documents, and refuses an existing target |
| Executor.Elasticsearch.CreateIndex | backend/services/executor.py:391-401 | creating makes an empty index with the given shards and refuses an existing one |
| Executor.Elasticsearch.StartReindex | backend/services/executor.py:402-403 | starting a reindex may already carry documents over |
| Executor.Elasticsearch.GetTask | backend/services/executor.py:404-408 | polling may carry more documents over; completion says nothing about success |
| Executor.CopySource | backend/services/executor.py:305-347 | copying ends where the state machine does for the answers used, whether it succeeds or not |
| Executor.VerifyThenReplace | backend/services/executor.py:349-364 | comparing, then dropping a bad copy or deleting the source and going on, ends where the state machine does |
| Executor.RecreateSource | backend/services/executor.py:385-401 | the guarded recreate ends where the state machine does |
| Executor.PollReindex | backend/services/executor.py:404-411 | so does the polling loop, however many answers it takes |
| Executor.ReindexTempIntoSource | backend/services/executor.py:367-421 | so does the whole way back, resumed or not |
| Executor.VerifyReplacement | backend/services/executor.py:411-421 | so does the final comparison, which keeps the temp on a mismatch and drops it otherwise |
| Executor.CountsAgree | backend/services/executor.py:411-418 | the wait and the two final counts agree with the state machine, and with each other exactly when the temp may go |
| Executor.AttemptResize | backend/services/executor.py:291-364 | one attempt from the probes on is the state machine's run on the consumed answers, and touches no other index |
| Executor.ResizeInPlace | backend/services/executor.py:259-364 | from every safe start the whole map stays in source or temp; success means complete source, no temp, and the target shard count unless the first probe missed the source |
| Executor.ExecuteReduceShards | backend/services/executor.py:424-447 | a refused request touches nothing; every other one is carried out by the protocol with the greatest proper divisor, on the answers that come, and a safe start with honest answers finishes it; only a finished one rewrites the job's target; the documents are safe either way |
| Executor.ExecuteSplitShards | backend/services/executor.py:450-473 | the same with the least multiple |
| JobTable.OrderIsKeys | backend/routes/jobs.py:133 | the suggestion dictionary lists each fingerprint once, in order of first insertion |
| JobTable.MissingFacts | backend/routes/jobs.py:141-150 | inserted are exactly the fingerprints that are neither pending nor acted on, once each |
| JobTable.ToInsert | backend/routes/jobs.py:141-150 | every inserted fingerprint is one of a fresh suggestion |
| RecommendRoute.IndexSuggestions | backend/routes/jobs.py:133 | the dictionary loop builds order and last suggestion per fingerprint |
| RecommendRoute.SelectPending | backend/routes/jobs.py:112-134 | the pending dictionary has every pending fingerprint in scope and points to its last row |
| RecommendRoute.SelectActive | backend/routes/jobs.py:124-131 | the set of fingerprints approved, queued or executing |
| RecommendRoute.DeleteResolved | backend/routes/jobs.py:136-139 | exactly the pending rows in scope without a fresh suggestion go, all others stay as they are |
| RecommendRoute.Upsert | backend/routes/jobs.py:141-150 | matches are refreshed in place, acted-on ones skipped, the rest inserted with consecutive ids |
| RecommendRoute.ReconcileRows | backend/routes/jobs.py:112-150 | the whole pass yields the reconciled table and the next free id |
| Reconciliation.RecommendFrame | backend/routes/jobs.py:136-146 | no row outside the pending rows in scope changes; a pending row survives iff its suggestion does, with its id, key and status |
| Reconciliation.RecommendExact | backend/routes/jobs.py:121-150 | pending fingerprints in scope are exactly the fresh suggestions minus those acted on, each with the fresh advice and the new run |
| Reconciliation.RecommendKeepsUnique | backend/routes/jobs.py:121-150 | at most one live row per fingerprint stays at most one |
| Reconciliation.RecommendIdempotent | backend/routes/jobs.py:133-150 | a second pass over the same suggestions changes nothing but the run link |
| RouteEffects.RecommendRow | backend/routes/jobs.py:112-139 | on columns: a row of another cluster, status or job type stays as it is; a pending row in scope survives if and only if its key is that of a fresh suggestion in scope |
| RouteEffects.RecommendRefreshes | backend/routes/jobs.py:133-146 | of several pending rows of a key the last one takes over the figures of the last suggestion of that key |
| RouteEffects.RecommendInsertsIff | backend/routes/jobs.py:121-150 | a row of a key is added if and only if it is suggested in scope and no pending, approved, queued or executing row has it; then one only |
| RouteEffects.RecommendedRow | backend/routes/jobs.py:148-150 | an added row is a pending job of the cluster with the columns of the last suggestion of its key |
| RouteEffects.RecommendCounts | backend/routes/jobs.py:97-150 | a recommendation takes one run and as many ids as it adds rows, and leaves the tasks alone |
| Batching.BatchFacts | backend/routes/jobs.py:293-308 | the batch queues approved rows of the cluster only, changes nothing else, and its busy set is what the table says |
| Batching.ExecuteAllExclusiveAndMaximal | backend/routes/jobs.py:288-307 | one in-flight job per index is kept, and every approved job left behind has an index that another in-flight row occupies |
| Batching.SingleExecuteIsUngated | backend/routes/jobs.py:227-251 | the single route has no such gate: two approved jobs of one index both get queued |
| RouteEffects.ExecuteAllRow | backend/routes/jobs.py:279-307 | on columns: only approved rows of the cluster change, and one stays approved if and only if another row of its index is queued or executing afterwards |
| RouteEffects.ApproveAndReject | backend/routes/jobs.py:204-224 | only a pending row is approved or rejected, and no other row changes |
| RouteEffects.ApproveAllRow | backend/routes/jobs.py:254-270 | the pending rows of the cluster are approved, of one tier only if one is given |
| RouteEffects.ExecuteRow | backend/routes/jobs.py:227-251 | an approved row is queued and submitted if the cluster in the path is writable, otherwise nothing happens |
| RouteEffects.SubmitDirectRow | backend/routes/jobs.py:389-432 | a fresh id, a run of its own, a queued row without key, a new task |
| RouteEffects.ClearQueueRow | backend/routes/jobs.py:314-335 | approved rows of the cluster go, and exactly the unfinished tasks of its queued rows are asked to stop |
| RouteEffects.ClearHistoryRow | backend/routes/jobs.py:338-348 | exactly the completed, failed, cancelled and rejected rows of the cluster go |
| RouteEffects.CancelJobTask | backend/routes/jobs.py:370-378 | exactly the unfinished task of a queued or executing job is asked to stop, and no row changes |
| RouteEffects.RestartRow | backend/services/job_runner.py:134-155 | every queued or executing row is queued with a new task, every other row stays, and there is no other task |
| Exclusivity.OnePerIndexIff | backend/routes/jobs.py:227-308 | any step of the system keeps one in-flight job per value of the index column if and only if it is not a single execution or an operator-made job sent for a busy value |
| Exclusivity.ResizesCollideIff | backend/services/executor.py:285 | two resizes of a cluster share an index if and only if they have the same one or one resizes the temporary index of the other |
| Exclusivity.OnePerNameIff | backend/routes/jobs.py:227-308 | any step keeps jobs in flight from touching a common index, temporary and target indices included, if and only if it does not queue a job that meets another one |
| Exclusivity.TemporaryIndexIsNotGated | backend/routes/jobs.py:288-307 | `execute_all` queues a resize of an index and one of its temporary index together |
| Exclusivity.NoTwoExecutorsOnOneIndex | backend/routes/jobs.py:288-292 | over any run in which no job is queued that meets another one, no two running executors touch a common index |
| JobSafety.LifecycleEdge | backend/routes/jobs.py:204-348 | every event, cluster deletion included, moves a job along an edge of its lifecycle that belongs to that event, or not at all |
| JobSafety.RunKeepsInv | backend/services/job_runner.py:164-256 | row and task position fit together in every reachable state |
| JobSafety.SlotsConserved | backend/services/job_runner.py:164-175 | in every interleaving free slots plus tasks between acquire and release make up the cap, so at most the cap of executors run at once |
| JobSafety.OrphanedIff | backend/services/job_runner.py:209-215 | a row is left `executing` without a slot by exactly an interruption around the flip or a lost terminal write, and a restart leaves none |
| JobSafety.ExecutingRowsWithinCap | backend/services/job_runner.py:199-209 | without a fault in these windows the rows labelled `executing` stay within the cap |
| JobSafety.FaultsExceedCap | backend/services/job_runner.py:209-215 | with such faults they exceed any number |
| JobSafety.CancelBeforeFirstStep | backend/services/job_runner.py:164-171 | a task cancelled before its first step leaves its row queued with no task to run it |
| Stranding.StrandedIff | backend/services/job_runner.py:164-209 | an event newly leaves exactly these queued rows without a task: one cancelled before the first step, one with a lost `cancelled` or `executing` commit, and those whose route fails between commit and submission; a restart leaves none |
| Stranding.SubmitsWhatItQueues | backend/routes/jobs.py:244-250 | a route submits exactly the rows it queues, or none of them if it fails in between |
| Stranding.QueuedRowsHaveTasks | backend/services/job_runner.py:164-187 | without these windows every queued row has, after any run, a task that is still to run it |
| JobSafety.StartsBound | backend/services/job_runner.py:134-155 | starts of a job's executor are paid for by its one queueing and by restarts that found it executing |
| JobSafety.AtMostOneStartPerRecovery | backend/services/job_runner.py:134-155 | over any run a job's executor starts at most once plus once per such restart |
| JobSafety.TerminalForever | backend/services/job_runner.py:240-242 | a terminal row keeps its status for the rest of any run, or is deleted |
| JobSafety.GoneForever | backend/routes/jobs.py:338-348 | a deleted row never comes back |
| JobSafety.OnlyRestartGoesBack | backend/services/job_runner.py:146-151 | the one backward edge is a restart that queues an executing job, and it always does |
| Outcomes.SuccessCompletes | backend/services/job_runner.py:231-256 | an executor that returns, once its status is committed, leaves exactly its row completed and its slot free |
| Outcomes.FailureFails | backend/services/job_runner.py:228-230 | an executor that raises leaves exactly its row failed |
| Outcomes.UnknownTypeFails | backend/services/job_runner.py:222-230 | a job type without an executor leaves exactly its row failed |
| Outcomes.CancellationCancels | backend/services/job_runner.py:225-227 | a cancellation delivered to a running executor leaves exactly its row cancelled |
| Outcomes.CancelledWhileWaiting | backend/services/job_runner.py:166-187 | a cancellation delivered while the task waits leaves exactly its row cancelled and takes no slot |
| Outcomes.QueueToExecutor | backend/services/job_runner.py:164-224 | with a free slot a submitted job gets to its executor in four steps, its row executing from the third on |
| Outcomes.GoneBeforeStart | backend/services/job_runner.py:203-206 | a job that is no longer queued when its slot comes is not executed and gives the slot back |
| Outcomes.SuccessIsRecorded | backend/services/job_runner.py:231-256 | whatever other jobs and routes do between the return of an executor and its terminal write, its row is recorded as completed if it is still there |
| Outcomes.NoUnearnedOutcome | backend/services/job_runner.py:189-256 | over any run a row is completed only after its executor returned, failed only after it raised or was not found, cancelled only after a requested cancellation reached its waiting task or its executor, rejected only by the operator |
| Outcomes.CancelledOnlyWhenAsked | backend/services/job_runner.py:117-132 | over any run no job is cancelled that nobody asked to stop while its task was unfinished |
| JobSafety.OneLiveJobPerFingerprint | backend/routes/jobs.py:121-150 | from an empty table, after any run, no fingerprint has two live jobs |
| JobService.Service.constructor | backend/services/job_runner.py:82-95 | no tasks, all slots free, and a sound state |
| JobService.StaysSound | backend/services/job_runner.py:164-256 | every event keeps rows, tasks, slots and fingerprints sound |
| JobService.Service.Promises | backend/services/job_runner.py:97-100 | between any two calls at most the cap of executors run, slots are accounted for, and no fingerprint has two live jobs |
| JobService.Service.Submit | backend/services/job_runner.py:102-108 | a new task unless one is in flight |
| JobService.Service.Cancel | backend/services/job_runner.py:117-123 | flags a task that is not over, and says whether there was a task |
| JobService.Service.StopAll | backend/services/job_runner.py:125-132 | every unfinished task is flagged |
| JobService.Service.Recover | backend/services/job_runner.py:134-155 | rows in flight are queued and submitted, whatever they were |
| JobService.Service.Acquire | backend/services/job_runner.py:164-175 | a waiting task takes a free slot or keeps waiting |
| JobService.Service.EndTask | backend/services/job_runner.py:172-175 | a slot is released on every way out, once |
| JobService.Service.MarkCancelledIfQueued | backend/services/job_runner.py:177-187 | only a still-queued row becomes cancelled; a failed commit is swallowed |
| JobService.Service.FlipToExecuting | backend/services/job_runner.py:199-209 | only a still-queued row becomes executing; otherwise the slot is given back |
| JobService.Service.Finalize | backend/services/job_runner.py:234-256 | the first terminal writer wins; a failed commit leaves the row and frees the slot |
| JobService.Service.Begin | backend/services/job_runner.py:164-166 | a new task goes to wait for its slot |
| JobService.Service.StartExecutor | backend/services/job_runner.py:215-224 | the executor of a flipped job starts; an unknown type fails at once |
| JobService.Service.Succeed | backend/services/job_runner.py:231-232 | a returned executor is to be persisted as completed |
| JobService.Service.Evict | backend/services/job_runner.py:108 | a finished task is forgotten |
| JobService.Service.Interrupt | backend/services/job_runner.py:164-232 | a cancellation or an exception at each await: what it does to row, task and slot, the windows included |
| JobService.Service.Recommend | backend/routes/jobs.py:112-150 | the route's table is the reconciled one |
| JobService.Service.ApproveJob | backend/routes/jobs.py:204-213 | only a pending job is approved, otherwise refused |
| JobService.Service.RejectJob | backend/routes/jobs.py:216-224 | only a pending job is rejected, otherwise refused |
| JobService.Service.ExecuteJob | backend/routes/jobs.py:227-251 | only an approved job is queued and submitted, and only if the cluster in the path is writable; the job's own cluster is not compared with it |
| JobService.Service.ExecuteAll | backend/routes/jobs.py:273-311 | the batch loop does what the specification of the batch says, then submits |
| JobService.Service.BulkApproveJobs | backend/routes/jobs.py:254-270 | exactly the pending rows of the cluster and tier become approved |
| JobService.Service.ClearQueueOf | backend/routes/jobs.py:314-335 | approved rows are deleted, queued ones keep their row and have their tasks flagged |
| JobService.Service.CancelJob | backend/routes/jobs.py:351-378 | only a queued or executing job is cancelled; its row is left to the task |
| JobService.Service.SubmitOperatorJob | backend/routes/jobs.py:401-432 | a run of its own, a queued row without fingerprint, and a task |
| JobService.Service.ClearHistoryOf | backend/routes/jobs.py:338-348 | exactly the terminal rows of the cluster go |
| JobService.Service.DeleteClusterJobs | backend/routes/clusters.py:142-147 | all rows of the cluster go, their tasks stay |
| ResizeRecovery.GatedRunsKeepDocuments | backend/services/executor.py:291-303 | whatever routes, failed, repeated and restarted resizes of an index do, its documents survive every run in which each attempt begins alone and on a source that does not count short |
| ResizeRecovery.StartGateIff | backend/services/executor.py:301-303 | the gate is exact at each start: what the executor does afterwards can lose the documents if and only if the source counts short |
| ResizeRecovery.TameIsAlone | backend/routes/jobs.py:288-292 | attempts begin alone when no job is queued that meets another one and the cluster is not deleted |
| ResizeRecovery.ResizedIndexSurvives | backend/services/job_runner.py:134-232 | from an empty job table and a safe start, under these two provisos, two counts at each start are enough to keep the documents |
| ResizeRestart.RestartGateIff | backend/services/job_runner.py:146-153 | when no other job in flight touches the indices: after a restart that finds the resize executing, the runner on its own can lose the documents if and only if the source counted short |
| ResizeLosses.KilledResizeLoses | backend/services/executor.py:385-402 | an approved resize is executed, every answer is truthful, the process is killed after the recreate: the restarted executor deletes the only full copy with no operator involved |
| ResizeLosses.RecommendedAgain | backend/routes/jobs.py:121-150 | once a resize is no longer live, the next recommendation inserts it again |
| ResizeLosses.FailedThenRecommendedLoses | backend/services/executor.py:413-418 | without any restart: a reindex ends short, its job fails, the same recommendation is approved and executed, and the only full copy is deleted |
| Text.JoinOfSplit | backend/services/snapshot_service.py:246-255 | joining the segments of a name gives the name back |
| Text.SplitOfPrefix | backend/services/snapshot_service.py:254-255 | a path key splits into exactly its path |
| Text.SplitAtLeftmost | backend/services/snapshot_service.py:246-255 | a string is cut at its leftmost separator and the rest is split in the same way, until none is left |
| Pivot.InsertFind | backend/services/snapshot_service.py:252-270 | one index adds its share at exactly the prefixes of its path, creates exactly those nodes, marks exactly the last as leaf |
| PivotShape.InsertKeepsNamed | backend/services/snapshot_service.py:254-259 | key, label and depth of every node are those of the path that leads to it |
| PivotShape.InsertKeepsDistinct | backend/services/snapshot_service.py:256-259 | siblings have distinct labels throughout the tree |
| PivotShape.InsertChildSum | backend/services/snapshot_service.py:260-267 | an insertion adds the share to the children's total of every proper prefix |
| PivotView.GroupShards | backend/services/snapshot_service.py:208-222 | each bucket's count, size and per-node figures are the sums over the rows of its index |
| PivotView.DocsByIndex | backend/services/snapshot_service.py:224 | the last listed row of a name gives its document count |
| PivotTrie.TrieNode.constructor | backend/services/snapshot_service.py:228-240 | a new node has its key, label and depth, nothing counted, and a children dictionary of its own |
| PivotTrie.TrieNode.AddInfo | backend/services/snapshot_service.py:260-267 | every aggregate of the node grows by the index's share, children and leaf mark stay |
| PivotTrie.TrieNode.Grow | backend/services/snapshot_service.py:260-270 | the share is added here and along the rest of the path, which ends in a leaf |
| PivotTrie.Branch.GetOrCreate | backend/services/snapshot_service.py:256-259 | the segment's node is found, or entered last |
| PivotTrie.Branch.Insert | backend/services/snapshot_service.py:252-270 | the walk in place has the effect of the insertion on values; every node keeps belonging to one dictionary, and nothing else is touched |
| PivotTrie.Branch.Finish | backend/services/snapshot_service.py:277-303 | the payload read off the objects is the finalised, sorted tree of values |
| PivotView.BuildTrie | backend/services/snapshot_service.py:226-270 | a node exists for a path iff a listed non-system index lies under it; every aggregate is the sum over those indices, and own share plus children's totals |
| PivotFinal.SortDescFacts | backend/services/snapshot_service.py:277-303 | the sort is a descending permutation that keeps the order of equals |
| PivotFinal.FinalizeKeepsPaths | backend/services/snapshot_service.py:277-297 | finalising changes nothing a path leads to but the order of children |
| PivotView.FinalRefines | backend/services/snapshot_service.py:277-303 | the finished tree still refines the listing, with every sibling list in descending size |
| PivotView.BuildPivot | backend/services/snapshot_service.py:181-310 | the payload's roots refine the prefix specification and are sorted throughout |
| PivotView.MaxCellSize | backend/services/snapshot_service.py:272-275 | the scale is the largest size of any index, system indices included, on any data node |
| PivotScale.ScaleFitsIff | backend/services/snapshot_service.py:192 | over all shard tables of the listed indices the scale is the largest leaf if and only if no listed name is a system name, is listed twice, or is a leading group of another one |
| PivotScale.SystemIndexSetsScale | backend/services/snapshot_service.py:272-275 | a system index alone sets the scale although no leaf shows anything |
| PivotScale.LeafOutgrowsScale | backend/services/snapshot_service.py:260-275 | a leaf with a longer or repeated name below it shows more than the scale |
| PivotView.KeysIdentifyNodes | backend/services/snapshot_service.py:242-270 | a key is the join of its path, no two nodes share one, and a node is a leaf iff its key is a listed non-system index |
| ShardMapView.BuildCells | backend/services/snapshot_service.py:130-147 | each cell holds exactly the chips of the rows with its key, in table order, and no cell is empty |
| ShardMapView.CountByNode | backend/services/snapshot_service.py:73-80 | each node's count is the number of rows it owns |
| ShardMapView.CellKeyInjective | backend/services/snapshot_service.py:138 | without spaces in index names a cell key determines index and node |
| ShardMapView.ColumnIsTotal | backend/services/snapshot_service.py:130-147 | the chips of a data node's column are the pivot's grand total for that node, repeated names or not |
| ShardMapView.TotalIsOccurrences | backend/services/snapshot_service.py:242-267 | the grand total counts each shard a node owns once for every listing of its index |
| ShardMapView.TotalAtMostOwned | backend/services/snapshot_service.py:73-80 | when no shown name is listed twice the pivot's grand total is at most the node list's count |
| ShardMapView.ViewsAgree | backend/services/snapshot_service.py:73-270 | the pivot and the shard map, built independently, always agree; the node list counts at least as many when no shown index is listed twice |
| ShardMapView.DuplicateListingDisagrees | backend/services/snapshot_service.py:242-264 | with an index listed twice pivot and column still agree and exceed the node list |
| ShardMapView.NodeListCoversIff | backend/services/snapshot_service.py:73-147 | over all shard tables the node list covers the columns if and only if no shown index is listed twice |
| ShardOwner.RelocatingOwner | backend/services/snapshot_service.py:26-37 | a report with a space in it counts for its first word |
| ShardOwner.ArrowOwner | backend/services/snapshot_service.py:26-37 | so does a report with an arrow, whatever blank stands before it |
| ShardOwner.OwnerAsReported | backend/services/snapshot_service.py:26-37 | no node, an empty name, a name without blanks and a name with neither space nor arrow count for themselves |
| ShardOwner.RelocatingCountsOnce | backend/services/snapshot_service.py:73-270 | one more relocating shard counts for the node it leaves in the pivot, the shard map and the node list, and for no other node in any of them |
| ShardOwner.RelocatingCell | backend/services/snapshot_service.py:130-147 | its size counts on that node and its chip, column by column, is the last one of that cell |
| ShardOwner.CellHasItsRows | backend/services/snapshot_service.py:130-147 | every cell has one chip for each row of its index that its node owns, and none if the index is not shown or the node is no data node |
| PivotTotals.ShardAdds | backend/services/snapshot_service.py:208-267 | one more shard row adds one shard and its size to the totals of every path to its index, and to its data node's part of them, once for each listing |
| PivotTotals.IndexAdds | backend/services/snapshot_service.py:242-267 | one more index row adds one index and the documents of the last row of its name under exactly the paths that lead to it, and nothing if its name begins with a dot |
| Rebalance.GroupByNode | backend/services/rebalance.py:27-32 | each data node's started shards in table order |
| Rebalance.PickSource | backend/services/rebalance.py:40-43 | the first listed heaviest node among those not frozen with a shard left, if there is one |
| Rebalance.PickTarget | backend/services/rebalance.py:44 | the first listed lightest data node |
| Rebalance.StepKeepsInv | backend/services/rebalance.py:39-59 | a move keeps the invariant: every receiver is at most one above every other node, counts are projections of the plan |
| Rebalance.SuggestMoves | backend/services/rebalance.py:15-60 | a plan shorter than allowed leaves counts that differ by at most one; every move goes from the first listed heaviest eligible node to the first listed lightest one and takes the last shard there is, each once, and no receiver gives |
| RebalancePlan.PlanIsDetermined | backend/services/rebalance.py:15-60 | these promises admit exactly one plan for every cluster and limit |
| RebalancePlan.EvenEnds | backend/services/rebalance.py:43-46 | from even counts no further move qualifies |
| Rebalance.GoesOnIff | backend/services/rebalance.py:40-46 | in every state of the loop it goes on if and only if the counts are not even |
| Rebalance.GapOneGoesOnIff | backend/services/rebalance.py:21-22 | at a gap of one it goes on if and only if some node above the minimum has never received |
| RebalancePlan.GapOneMoves | backend/services/rebalance.py:43-50 | two nodes with one shard and none: every plan moves the shard |
| RebalancePlan.MovesAreRows | backend/services/rebalance.py:26-59 | every planned move relocates a row of the shard table that is started on the move's source, with its index, number and size |
| Rebalance.PlanTotals | backend/services/rebalance.py:47-50 | the total is conserved and the sum of squared counts never rises |
| Rebalance.SpreadNeverWidens | backend/services/rebalance.py:43-50 | no count leaves the range the plan started from |
| Analyzer.IdealCountBounds | backend/services/analyzer.py:96 | the ideal count is the least whose shards stay strictly under the maximum |
| Analyzer.LargestIsMaximum | backend/services/analyzer.py:68 | the largest shard is attained and bounds all |
| Analyzer.AdvisedShrinkIsExecutable | backend/services/analyzer.py:84-107 | an advised shrink passes the executor's guard: greatest proper divisor within the target, saving at least the estimate |
| Analyzer.AdvisedSplitIsExecutable | backend/services/analyzer.py:110-121 | an advised split passes its guard: least multiple reaching the target, mean shard under the ideal maximum |
| Analyzer.BothNeedsTinyRule | backend/services/analyzer.py:84-121 | shrink and split together force the tiny bound above the room of one shard more than the tiny limit |
| Analyzer.NeverBothIff | backend/services/analyzer.py:84-121 | no index ever gets both if and only if `tiny_max <= (tiny_limit + 1) * ideal_max` |
| Findings.OverShardedIff | backend/services/analyzer.py:84-107 | over-sharding is found if and only if the index is tiny with too many primaries, or its shards are small on average and one shard fewer has room for it; target and saving are exact |
| Findings.UnderShardedIff | backend/services/analyzer.py:110-121 | under-sharding is found if and only if some shard exceeds the maximum and the index has no room in its primaries; the target is the least count with room |
| Findings.FragmentedIff | backend/services/analyzer.py:124-133 | fragmentation is found if and only if the index is open and some primary has more segments than allowed |
| Findings.DeletedDocsIff | backend/services/analyzer.py:136-145 | deleted documents are found if and only if the index is open and they are at least a fifth of all |
| Findings.ImbalancedIff | backend/services/analyzer.py:75-79 | imbalance is found if and only if several primaries have sizes whose mean square exceeds the square of the mean by more than nine percent |
| Findings.FoundIff | backend/services/analyzer.py:55-157 | for every index an opportunity is reported if and only if the figures say so, without mean, maximum, ideal count or division |
| Findings.SuggestedIff | backend/services/recommender.py:11-52 | from listed rows to suggested jobs: a job is suggested if and only if the figures of a visible index call for it, with tier and figures as they are |
| ListedFigures.DescribedByLastRow | backend/services/analyzer.py:18-66 | an index is analysed with the columns of the last row of its name and with exactly the primaries listed under it |
| ListedFigures.ReportedIff | backend/services/analyzer.py:177-186 | a report is made if and only if the name is listed, does not begin with a dot, and has an opportunity if only problems are wanted |
| ListedFigures.ReportsInOrder | backend/services/analyzer.py:177-186 | reports are in the order in which their names are first listed |
| Analysis.BuildIndexMap | backend/services/analyzer.py:18-53 | one entry per named index, from its last row and all shards listed under it, in order |
| Analysis.AnalyzeIndex | backend/services/analyzer.py:81-157 | the appended list is that of the detectors in order; `Findings.FoundIff` says what is on it |
| Analysis.OpportunitiesDiffer | backend/services/analyzer.py:81-157 | no detector speaks twice about one index |
| Analysis.AnalyzeAll | backend/services/analyzer.py:177-186 | exactly one report for every visible index worth showing, and no other, in the order the names are first listed |
| Analysis.FirstNamesExact | backend/services/analyzer.py:19-23 | the listing order has every non-empty name once |
| Recommender.SuggestFacts | backend/routes/jobs.py:41-47 | the route's table of job types agrees with the classification of every opportunity |
| Recommender.GenerateJobs | backend/services/recommender.py:30-52 | the nested loops yield the suggestions of all reports in order |
| Recommender.FromReportsExact | backend/services/recommender.py:30-52 | a suggestion is generated iff it comes from a report |
| Recommender.SeparateLosesNone | backend/routes/jobs.py:92-133 | keyed by fingerprint, no suggestion shadows another |
| Recommender.DetectorScopeIsJobTypeScope | backend/routes/jobs.py:77-90 | dropping other detectors' opportunities first is keeping the selected job types afterwards |
| Recommender.FreshSuggestions | backend/routes/jobs.py:83-90 | analysis and generation yield the specified suggestions |
| Recommender.FreshExact | backend/services/recommender.py:30-52 | a suggestion is made exactly for every opportunity with a job type of every visible index |
| Recommender.FreshSeparate | backend/routes/jobs.py:92-95 | no two suggestions share a fingerprint |
| Recommender.SuggestedResizesAreExecutable | backend/services/recommender.py:30-52 | every suggested shrink or split gets past the executor's guards with the promised effect |
| Recommendation.PendingIffAdvised | backend/routes/jobs.py:77-150 | from listed rows to pending jobs: after recommending, an index has a pending job of a type iff a selected detector finds the opportunity and no such job is approved or in flight |
| Recommendation.PendingCarriesAdvice | backend/routes/jobs.py:49-60 | every such pending job carries the figures of its opportunity and the new run |
| Convergence.StepRules | backend/services/analyzer.py:84-121 | for evenly spread primaries an executed advice is one of three rules on size and count |
| Convergence.SettledIff | backend/services/analyzer.py:84-121 | the loop stops exactly where neither resize is advised |
| Convergence.AfterSparse | backend/services/executor.py:19-33 | snapping down and back up to one ideal never exceeds the first count |
| Convergence.AfterSplit | backend/services/executor.py:28-33 | a split overshoots its ideal by less than the old count and is not undone for size when halving is harmless |
| Convergence.ShrinkSplitEnds | backend/services/analyzer.py:84-121 | a shrink followed by a split leaves nothing to advise |
| Convergence.ConvergesIff | backend/services/analyzer.py:84-121 | every size and count settles within three resizes, or within any given larger bound, if and only if both threshold conditions hold |
| Convergence.TwoResizesIff | backend/services/analyzer.py:84-121 | two resizes always suffice if and only if one split stays within the tiny limit as well |
| Convergence.EndlessResizes | backend/services/analyzer.py:84-121 | otherwise there are runs of every length |
| Convergence.DefaultsSettle | config/settings.py:33-38 | the shipped thresholds settle every index in two |
| LoginThrottle.RecentTwice | backend/services/rate_limit.py:31-34 | pruning twice is pruning at the later cutoff |
| LoginThrottle.PrunedListIsEnough | backend/services/rate_limit.py:31-45 | from the present window on the pruned list and the full log hold the same failures, for any interleaving of keys |
| LoginThrottle.LoginThrottle.PruneKey | backend/services/rate_limit.py:31-34 | the answer is the recent part of the full log |
| LoginThrottle.LoginThrottle.Check | backend/services/rate_limit.py:36-39 | refuses iff the full log since the last reset has too many failures in the window |
| LoginThrottle.LoginThrottle.RecordFailure | backend/services/rate_limit.py:41-42 | one more failure of that key |
| LoginThrottle.LoginThrottle.Reset | backend/services/rate_limit.py:44-45 | the key's log starts anew |
| LoginThrottle.LoginThrottle.Login | backend/routes/auth.py:57-73 | a locked-out request records nothing; otherwise wrong credentials record, success resets, a deactivated account does neither |
| FailureCount.LockedIff | backend/services/rate_limit.py:31-39 | on the bare history: a login is refused if and only if its key has at least the permitted number of failures within the window that no reset has cleared |
| FailureCount.LoginLeaves | backend/routes/auth.py:57-73 | wrong credentials leave one failure more, a success none, a refusal or a deactivated account what there was; other keys keep theirs |
| Logins.LoginRoute.BeginLogin | backend/routes/auth.py:57-63 | the first half of a login: refused by the throttle, or open until its end, whatever comes in between |
| Logins.LoginRoute.EndLogin | backend/routes/auth.py:65-73 | the second half: the verdict is recorded |
| Logins.LoginsArePaced | backend/routes/auth.py:57-73 | every recorded failure closes a window with at most the permitted number and one for each further attempt that may be open |
| Logins.OverlapBound | backend/services/rate_limit.py:36-42 | with at most `c` attempts of a key open at a time, other keys in between as they please, no closed window holds more than `max_failures + c - 1` of its failures between resets |
| Logins.OverlapBoundIff | backend/services/rate_limit.py:36-42 | that number is exact: no smaller one bounds all such runs |
| Logins.NoCrowdedWindow | backend/services/rate_limit.py:36-42 | for attempts of one key in turn no closed window anywhere holds more than the permitted failures |
| ExcludeSet.SortedIsSorted | backend/services/executor.py:559 | the print lists each name once, in code point order |
| ExcludeSet.LessIff | backend/services/executor.py:559 | code point order: the first difference, or the end of the shorter name, decides |
| ExcludeSet.ParseName | backend/services/executor.py:541-544 | a name is read back as itself if and only if it is non-empty and comma-free |
| ExcludeSet.ParseOfPrint | backend/services/executor.py:541-544 | parsing the sorted print of read-back names gives the same set |
| ExcludeSet.DrainAdds | backend/services/executor.py:557-559 | a drain adds the parts of the name and loses nobody; it adds exactly the name iff that is plain |
| ExcludeSet.UndrainRemoves | backend/services/executor.py:574-583 | an undrain removes the name iff it is not excluded persistently, and nothing else |
| ExcludeSet.ClusterSettings.DrainNode | backend/services/executor.py:547-559 | the written setting and what is read back afterwards |
| ExcludeSet.ClusterSettings.UndrainNode | backend/services/executor.py:574-583 | the written or cleared setting and what is read back afterwards |
| ExcludeSet.ReadBackAfterRun | backend/services/executor.py:533-583 | after any operations the set read back is the persistent names plus those held: first excluded or drained, and not undrained since |
| ExcludeSet.DrainInForce | backend/services/executor.py:533-544 | a drain puts everything that was read into force, although the transient value overrides the persistent one |
| ExcludeSet.UndrainInForce | backend/services/executor.py:574-583 | an undrained node is out of force, except when it was the last name and is excluded persistently: clearing brings it back |

## Left out

- The frontend, the site, HTTP, SQLAlchemy, authentication tokens, secrets, cluster administration, the poller.
- Force-merge, relocate, promote and standalone reindex executors: bounded polling around one call.
- Mappings, aliases and analyzers of a recreated index; progress texts, details, severities, timestamps.
- Two executors at work on one index at once (`Exclusivity.NoTwoExecutorsOnOneIndex` says when jobs cannot), client writes during an attempt, concurrent changes of the exclude setting.
- Delays and attempt limits of the polling loops; a wait that gives up is a fault of that await.
- `README.md` of the repository calls resize jobs non-destructive copies; the code replaces the index in place, and the model follows the code.
- PivotTrie.Branch.Insert: the walk down a path is a recursion here, a loop in the code; the per-node breakdown is a map, so the order of the per-node list is not captured.
- PivotView.BuildPivot: the sorted column headers are left out; the scale is `PivotView.MaxCellSize`.
- PivotTrie.Branch.Finish: the per-node breakdown stays a map, without the order of its list.
- ShardMapView.BuildCells: the sorted rows and columns of the grid are left out.
- Pivot.NormalizeShardNode: whitespace is space, tab, newline and carriage return; a name of blanks alone has no owner here, while the code raises an error.
- JobService.Service.Acquire: the semaphore's first-come order is not stated; any waiting task may be next.
- JobService.Service.Cancel: a cancellation is requested here and delivered by a later event, at any await or never.
- JobService.Service.CancelJob: undraining the node of a drain job before its cancellation is not part of the job table.
- JobService.Service.StopAll: awaiting the cancelled tasks and clearing the registry afterwards are the tasks' own later events.
- JobSafety.LifecycleEdge: deleting a cluster (backend/routes/clusters.py:142) is modelled for the job rows only, not for runs, snapshots and access rights.
- JobSafety.OneLiveJobPerFingerprint: drain, promote, reindex and relocate rows carry no fingerprint and may repeat.
- ResizeRecovery.GatedRunsKeepDocuments: executors of other kinds, and resizes of other indices, leave the two indices alone; a resize of the temporary index, a reindex into one of them or a promotion that deletes one would break the assumption.
- PivotScale.ScaleFitsIff: stated for non-empty index names and a data node whose name is reported as it is.
- Logins.OverlapBoundIff: stated for a limit of at least one failure; with a limit of zero every login is refused.
- Convergence.ConvergesIff: primaries share the size evenly and the size does not change between resizes.
- Analysis.AnalyzeIndex: severities, details and the rounded statistics of the report are left out.
- ExcludeSet.ClusterSettings.DrainNode: polling until the node is empty is left out.
