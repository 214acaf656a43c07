# Overup, verified

Overup is a CI control plane (`backend/`) and the runner that executes its jobs (`runner/`), with a
message crate between them (`protocol/`). This project models the parts of both whose correctness
spans several functions, and proves what they keep.

The SQL code is read as guarded atomic steps. An `UPDATE … WHERE guard` is one step on a table, a
table is a map from id to row, and a transaction is a working copy that is committed or dropped. The
three execution tables appear twice: as values with one function per step (`JobProtocol`), over which
whole runs are reasoned about, and as the fields of a class with one method per step
(`ControlPlaneModel`), each method proved to do the step and to extend the recorded run by it. A handler
is several steps; the steps other tasks take between two of them are a parameter, so that its contract
holds under any interleaving, and says which of them it tolerates.

| module | what it models |
|---|---|
| `JobProtocol`, `Stages`, `ControlPlaneModel` | jobs, runners and pipelines; the 24 guarded steps; the handlers that combine them |
| `Lifecycle`, `StartOrder`, `Exclusivity`, `OrphanRecovery`, `PipelineProgress`, `Settling`, `Outcomes` | what holds in every run of those steps |
| `JobHistory`, `RunnerHistory` | where each column of a job, runner or pipeline row comes from, in every run |
| `Pairing`, `DrainingRunners`, `BootRecovery` | concurrent handlers: endings and releases at any distance, draining, recovery at boot |
| `RunnerSlotModel` | the runner's single job slot |
| `PipelineCreationModel` | concurrent `create` transactions with locks and rollback |
| `WebhookQueueModel`, `NotificationsModel` | the delivery queue and the merging notification table |
| `Utf8`, `LogTable`, `LogTransport`, `LogBackfill` | cutting output into chunks, storing, reading back, replaying in batches |
| `Digits`, `Rfc3339`, `UuidText`, `OrderedScan`, `Paging` | times and ids as text, ordered scans under any strict order, cursors and pages |
| `Segments`, `PathNormalisation`, `Repackage` | path splitting, workspace paths, the source tarball transformer |
| `LikeEscape`, `Csv`, `TsQuery` | three printers, each with the reader on the other side |
| `ManifestModel`, `ManifestJson`, `ChangedPaths` | two capped accumulators, and the JSON of one of them |
| `Options`, `Limits`, `Sequences` | optional values, clamping and cutting, a sequence fact: shared by the others |

## What the code does not keep

Where a property fails, the model keeps the code as it is and states exactly when the property holds.

- A reconnect or a resume sets a runner idle without looking at its jobs
  (`backend/src/db/runners.rs:748-761`, `957-1001`). Runs stay exclusive exactly when each
  idle-making update finds no job in flight (`Exclusivity.ExclusiveThroughoutIff`); three steps from
  an ordinary state reach a double assignment (`Exclusivity.ReconnectDoubleAssigns`).
- A release does not look either (`backend/src/db/runners.rs:826-839`), and the handlers run as concurrent
  tasks. A job ends, its runner reconnects with nothing in flight and is claimed again, and the release
  that belongs to the first job comes last: the runner is idle with the second job in flight
  (`Pairing.LateReleaseBreaks`). What the pairing of endings and releases needs is that nothing makes the
  runner idle in between; then every state of every run is exclusive (`Pairing.PairedRunIsExclusive`).
- A dispatch that fails for good releases the runner before it ends the job
  (`backend/src/services/scheduler.rs:161-225`). In between the runner is idle with a job in flight;
  the ending repairs it (`Pairing.EarlyReleaseIsRepaired`), and no runner has two jobs as long as no
  claim takes effect on it meanwhile (`Pairing.EarlyReleasesKeepOneEach`).
- A draining runner can be scheduled again iff it is still busy and not revoked
  (`DrainingRunners.DrainingComesBackIff`): one drained while idle keeps a flag that only `release`
  clears, and `release` needs a busy row (`DrainingRunners.StrandedIsReachable`).
- Recovery at boot fails repeat offenders and finalizes, but never skips their dependents
  (`backend/src/main.rs:63-84`). A queued dependent is then neither eligible nor ever claimed, and its
  pipeline has no verdict until something cancels it (`BootRecovery.RecoveryLeavesSweptIff`,
  `LeftWaiting`, `NeverClaimed`, `OffenderIsReachable`). Once every ending is followed by its sweep and its
  attempt to finalize, no pipeline stalls (`Settling.NeverStalls`); the endings by this recovery are the
  ones that no sweep follows.
- A claim is unacknowledged as long as its stage is `assigned`, and `assigned` is a stage a runner may report
  (`backend/src/handlers/runner_ws.rs:482-491`). A job whose runner last reported that very stage is
  reverted by the next sweep of stale claims although it was acknowledged (`JobHistory.UnansweredIff`,
  `JobHistory.StaleClaimGoesBackIff`).
- Full-text queries lose their control characters before they are split on whitespace
  (`backend/src/handlers/search.rs:158-164`), so two words with only a line break or a tab between them are
  searched as one (`TsQuery.ControlSpaceJoins`).
- A redelivery revives a failed webhook with whatever payload the redelivery has, none for an event
  kind that is not processed (`WebhookQueueModel.RevivalKeepsRowIff`).
- `record_failure` has no status guard (`backend/src/db/webhook_deliveries.rs:112-132`), and it follows a
  completion whose commit reports an error (`backend/src/services/webhook_processor.rs:153-170`). If that
  commit took effect, the processed row is pending again, without payload
  (`WebhookQueueModel.MisreportedCompletionReopens`). Finished rows stay as they are iff no failure is
  recorded on one (`WebhookQueueModel.WebhookQueue.Fail`).
- Webhooks are claimed in (received_at, delivery_id) order, so of two with equal times the later stored may
  sort first and still leave second (`WebhookQueueModel.EqualTimesOvertake`). Departures are in order iff
  none of them was stored after a later-sorting one left, or during the attempt in which that one left
  (`WebhookQueueModel.DeparturesAscendIff`). If each arrival sorts after all that have left and after the
  row in work, they are in order however often attempts are repeated
  (`WebhookQueueModel.InOrderArrivalsLeaveInOrder`); with every attempt successful and the queue drained,
  only then (`WebhookQueueModel.DrainedInOrderIff`).
- The log overflow marker is stored under the largest sequence number, where the replay cursor
  saturates. A replay sends it twice exactly when it ends a full batch
  (`LogBackfill.ReplayIsOneScanIff`, `MarkerEndsFullBatch`).
- Sequence numbers restart on the second attempt, and conflicting rows are dropped: of the second
  attempt only the messages beyond the first one's count are stored
  (`LogTransport.SecondAttemptKeepsTail`).
- The manifest caps of the runner and the server agree for paths that are not empty, not longer than
  512 characters and free of JSON escapes. A path of 513 characters, or 128 paths of 480 quotes, stays
  within the runner's caps and is dropped by the server (`ManifestModel.LongPathIsDropped`,
  `QuotesAreDropped`).
- A CSV field `'=x` and a field `=x` print alike; `Csv.PrintAlikeIff` says these are the only ones.

## Model

| member | source | states |
|---|---|---|
| JobProtocol.RunOf | backend/src/db/pipeline_jobs.rs:271-583 | every sequence of guarded steps is the step sequence of a run, so results about runs cover all of them |
| JobProtocol.RowAfter | backend/src/db/pipeline_jobs.rs:271-583 | a step deletes no job row, changes the others row by row, and new rows come from a pipeline being created, with the column defaults |
| JobProtocol.RowStep | backend/src/db/pipeline_jobs.rs:271-583 | no step changes a row's pipeline, key or needs, or any column of a completed row |
| Lifecycle.StepKeepsRow | backend/src/db/pipeline_jobs.rs:271-583 | each step keeps a row's lifecycle invariant, given the stage filter of the handler |
| Lifecycle.LifecycleInvariant | backend/src/db/pipeline_jobs.rs:271-583 | in every reachable state: queued iff stage queued, without runner or assignment time; in progress only with a runner; completed iff stage done iff concluded; attempt 1 or 2 |
| Lifecycle.SetStageKeepsLifecycleIff | backend/src/handlers/runner_ws.rs:482-491 | the stage update keeps the invariant iff the handler's filter passed or the runner does not hold the row |
| Lifecycle.RunPreserves | backend/src/db/pipeline_jobs.rs:402-583 | over any stretch of any run completed jobs and pipelines never change, identities are fixed, no row of an existing pipeline appears late |
| Lifecycle.LinksInvariant | backend/migrations/20260709100004_create_pipelines.sql:70-101 | in every run each job has its pipeline, and (pipeline, key) names one job |
| StartOrder.ConclusionsInvariant | backend/migrations/20260709100004_create_pipelines.sql:70-101 | the table's CHECK holds in every run: completed iff a conclusion is set |
| StartOrder.OnlyClaimStarts | backend/src/db/pipeline_jobs.rs:271-312 | only a claim that takes effect starts a job |
| StartOrder.ChosenPairIsClaimed | backend/src/db/runners.rs:844-857 | an eligible job and a schedulable runner on the same tables: the claim takes effect |
| StartOrder.StartedWasClaimed | backend/src/db/pipeline_jobs.rs:271-312 | a running or successful job was claimed at an earlier step |
| StartOrder.DependenciesSucceeded | backend/src/db/pipeline_jobs.rs:50-71 | once a job was claimed on any earlier eligibility read, however stale, all its present dependencies are completed with success in every later state |
| StartOrder.ClaimsFollowNeeds | backend/src/db/pipeline_jobs.rs:50-71 | first starts are a topological order of needs: each dependency was claimed before the job and is never claimed after |
| StartOrder.CyclesNeverStart | backend/src/db/pipeline_jobs.rs:50-71 | a job on a dependency cycle is never claimed in any run |
| JobHistory.HeldWasClaimed | backend/src/db/pipeline_jobs.rs:271-312 | in every run a job in progress was taken from the queue by a claim for a runner then idle and unrevoked, and has been held by that runner with that assignment time in every state since |
| JobHistory.StageIsReported | backend/src/db/pipeline_jobs.rs:331-398 | the stage of a held job is what its runner's messages since the claim lead to: assigned, preparing from the acknowledgement on, and whatever was reported last |
| JobHistory.UnansweredIff | backend/src/db/pipeline_jobs.rs:331-398 | those messages leave a claim unacknowledged iff there are none or the last one reports the stage `assigned` |
| JobHistory.StaleClaimGoesBackIff | backend/src/db/pipeline_jobs.rs:352-375 | a sweep of unacknowledged claims puts a claimed job back in the queue, without runner and assignment time, iff the messages leave it unacknowledged, it was claimed before the cutoff, and it is not locked; else it leaves the row as it is |
| JobHistory.SilentClaimGoesBackIff | backend/src/db/pipeline_jobs.rs:352-375 | so a claim without an answer is kept when it is as young as the cutoff, and queued again when it is older |
| JobHistory.SweepTakesStaleClaims | backend/src/db/pipeline_jobs.rs:352-375 | each job in progress at a sweep is judged by its own latest claim |
| JobHistory.OpenIsBlank | backend/src/db/pipeline_jobs.rs:402-583 | in every run a job that is not over has no exit code, error category or finishing time |
| JobHistory.CompletedWasEnded | backend/src/db/pipeline_jobs.rs:402-583 | every completed job was ended by one step, and carries its conclusion, category, exit code, time and start for good: what was reported or forced, `skipped` or `cancelled` from the queue, or a failure as `runner_lost` |
| JobHistory.StartWasRecorded | backend/src/db/pipeline_jobs.rs:331-583 | a start time is that of an acknowledgement or a terminal step which found none, and has not changed since |
| JobHistory.AckRecordsStart | backend/src/db/pipeline_jobs.rs:331-348 | after its acknowledgement a held job has a start time: the earlier one, or that of the acknowledgement |
| RunnerHistory.StatusChangesIff | backend/src/db/runners.rs:748-1001 | a step brings a runner into another status iff it is one of those that set it, from the statuses and flags each of them demands |
| RunnerHistory.StatusComesFrom | backend/src/db/runners.rs:748-1001 | in every run a runner has had its status in every state since one step that set it, or since it was registered |
| RunnerHistory.DrainComesFrom | backend/src/db/runners.rs:861-905 | a drain flag carries the time of a drain of this runner, then idle or busy, and has stood since |
| RunnerHistory.RevokedIsOffline | backend/src/db/runners.rs:601-642 | in every state of every run a revoked runner is offline |
| RunnerHistory.RevokedForGood | backend/src/db/runners.rs:601-642 | after a revoke within the runner's workspace it is offline in every later state, and no claim for it takes effect |
| RunnerHistory.PipelineStatusIs | backend/src/db/pipelines.rs:326-360 | in every run a pipeline is completed iff it was finalized, with the first verdict given, else in progress iff it was started, else queued |
| Exclusivity.ExclusiveIff | backend/src/db/runners.rs:748-839 | from an exclusive state, a step of any kind keeps exclusivity iff it is not an idle-making update that finds a job in flight |
| Exclusivity.SafeRunIsExclusive | backend/src/db/pipeline_jobs.rs:271-312 | in every state of a run whose idle-making updates all find nothing in flight each runner has at most one job in progress, and none while idle |
| Exclusivity.ExclusiveThroughoutIff | backend/src/db/runners.rs:748-839 | a run is exclusive in all its states iff all its steps were safe |
| Exclusivity.IdleComesFrom | backend/src/db/runners.rs:748-1001 | a runner becomes idle only by a reconnect, a resume or a release |
| Exclusivity.HeldComesFrom | backend/src/db/pipeline_jobs.rs:271-312 | a job is held after a step only if it was held by the same runner before or the step claimed it |
| Exclusivity.UnsafeThenDoubleAssigned | backend/src/db/pipeline_jobs.rs:271-312 | an idle row with a job in flight lets the next claim assign a second one |
| Exclusivity.ReconnectDoubleAssigns | backend/src/db/runners.rs:748-761 | claim, reconnect, claim gives one runner two jobs, from any state with an idle runner and two queued jobs |
| Exclusivity.ReconnectRaceIsReachable | backend/src/db/runners.rs:748-761 | such a state is reached from the empty tables |
| Exclusivity.EndingFreesRunner | backend/src/db/pipeline_jobs.rs:316-454 | ending or reverting the one job a runner holds makes its release safe |
| Exclusivity.RecoveryFreesRunner | backend/src/db/pipeline_jobs.rs:518-550 | after the second statement of orphan recovery the runner holds nothing, so reconnect and release are safe |
| Exclusivity.ClaimIsAtomic | backend/src/db/pipeline_jobs.rs:271-312 | a claim changes the job row and the runner row together and nothing else, or changes nothing |
| Pairing.AtMostOneIff | backend/src/db/pipeline_jobs.rs:271-312 | a step gives a runner a second job iff it is a claim that takes effect while the first is in flight |
| Pairing.AtMostOneThroughoutIff | backend/src/db/pipeline_jobs.rs:271-312 | a run never gives a runner two jobs iff none of its claims does so |
| Pairing.StaysFree | backend/src/db/pipeline_jobs.rs:271-312 | a runner that holds nothing and is not idle stays so until a reconnect, a resume or a release concerns it |
| Pairing.PairedRunIsExclusive | backend/src/services/pipeline_run.rs:385-399 | in every run in which each release that sets a runner idle comes any number of steps after the ending of its job, with nothing making it idle in between, and reconnects and resumes concern free runners, all states are exclusive |
| Pairing.EarlyReleasesKeepOneEach | backend/src/services/scheduler.rs:161-225 | with releases before the ending allowed too, no runner has two jobs, and one is idle with a job only between such a release and its ending |
| Pairing.LateReleaseBreaks | backend/src/db/runners.rs:826-839 | claim, finish, reconnect, claim, and then the first job's release: all but the last are safe, and it leaves the runner idle with a job in flight |
| Pairing.EarlyReleaseIsRepaired | backend/src/services/scheduler.rs:161-225 | the early release never doubles an assignment, breaks exclusivity iff the runner was busy and not draining, and the ending restores it |
| Pairing.EndingThenRelease | backend/src/services/pipeline_run.rs:385-399 | an ending, any quiet steps of other tasks, and the release keep exclusivity and leave the runner free |
| Pairing.DownStretch | backend/src/services/pipeline_run.rs:810-819 | a runner that is down stays down and exclusive, and free once it is free, while nothing reconnects or resumes it |
| Pairing.DispatchFailure | backend/src/services/scheduler.rs:161-225 | release, any steps that are quiet for the window, forced ending: exclusive again, and whoever held the job is free |
| DrainingRunners.DrainingBusyToIdleIff | backend/src/db/runners.rs:748-761 | of all steps only a reconnect takes a draining busy runner to idle |
| DrainingRunners.DrainedByLaterRelease | backend/src/db/runners.rs:826-839 | a release any number of steps after a runner's job ended, with the drain begun at any time before the release, takes it offline and not to idle, clearing the flag, with nothing in flight; a row no longer busy is left as it is |
| DrainingRunners.DrainingComesBackIff | backend/src/db/runners.rs:826-905 | a draining runner can be scheduled again by some further steps iff it is still busy and not revoked |
| DrainingRunners.StrandedIsReachable | backend/src/db/runners.rs:861-905 | register, connect, drain gives a runner that never comes back |
| OrphanRecovery.RecoverySplits | backend/src/db/pipeline_jobs.rs:518-583 | the two statements send each job in scope to exactly one of requeued (second attempt) and failed, leave none in progress, and touch no other row |
| OrphanRecovery.SecondAttemptsRemain | backend/src/db/pipeline_jobs.rs:518-583 | what the first statement leaves to the second is exactly the repeat offenders |
| OrphanRecovery.RequeuedAtMostOnce | backend/src/db/pipeline_jobs.rs:518-583 | in every run the attempt column is one plus the orphan requeues so far, and at most 2 |
| OrphanRecovery.RankFalls | backend/src/db/pipeline_jobs.rs:271-583 | the rank (4,3,2,1,0) strictly falls at every status change except an undone claim, which gives one back |
| OrphanRecovery.ChangesBounded | backend/src/db/pipeline_jobs.rs:271-583 | a job changes status at most four times, plus twice per claim undone, in any run |
| OrphanRecovery.RunsTerminate | backend/src/db/pipeline_jobs.rs:518-583 | without undone claims n jobs make at most 4n status changes |
| PipelineProgress.FindDependentsToSkip | backend/src/services/pipeline_run.rs:466-517 | the fixpoint loop returns exactly the queued rows in the least set closed under needing an unsuccessful job |
| PipelineProgress.SkippingLeaves | backend/src/services/pipeline_run.rs:466-517 | whatever happens between listing and update, a job still queued that needs an unsuccessful one was not queued at the listing or needs one that ended after it |
| PipelineProgress.SkippingSweeps | backend/src/services/pipeline_run.rs:466-517 | with nothing in between, no queued job is left that needs an unsuccessful one |
| PipelineProgress.StuckIffNeedsItself | backend/src/db/pipeline_jobs.rs:50-71 | in a swept pipeline with nothing running, no job is eligible iff every waiting job needs another waiting job |
| PipelineProgress.NeverStuck | backend/src/services/pipeline_run.rs:466-517 | with acyclic needs, a swept pipeline with nothing running is finished or has an eligible job |
| PipelineProgress.VerdictIgnoresOrder | backend/src/services/pipeline_run.rs:520-540 | the conclusion does not depend on the order the rows are listed in |
| PipelineProgress.VerdictIsStable | backend/src/services/pipeline_run.rs:544-584 | a verdict computed from any listing is still the right one in every later state |
| PipelineProgress.CompletedPipelineIsOver | backend/src/db/pipelines.rs:342-360 | a completed pipeline carries the verdict of its jobs as they now stand, and they are all completed, however stale the read was |
| Settling.UnsuccessfulWasEnded | backend/src/services/pipeline_run.rs:385-431 | in every run an unsuccessful job was ended by one of the steps before |
| Settling.QueuedAllAlong | backend/src/db/pipeline_jobs.rs:50-71 | a job queued at the end that needs an unsuccessful one has been queued in every state since its pipeline was there: it was never claimed and put back |
| Settling.EveryPipelineIsSwept | backend/src/services/pipeline_run.rs:385-517 | in every run, at any point where each unsuccessful ending in a pipeline was followed by a listing and its skips, came of such a sweep, or cancelled all that was queued, no queued job of it needs an unsuccessful one, whatever ran in between |
| Settling.LastEnding | backend/src/services/pipeline_run.rs:385-431 | a pipeline whose jobs are all over has an ending after which they were |
| Settling.OverIsCompleted | backend/src/services/pipeline_run.rs:544-584 | where each ending was followed by a listing and a finalization if that showed all jobs over, a pipeline whose jobs are all over is completed |
| Settling.NeverStalls | backend/src/services/pipeline_run.rs:385-584 | at any such point of any run a pipeline with acyclic needs is completed, has a job in progress, or has one that can be claimed |
| Outcomes.VerdictMeans | backend/src/services/pipeline_run.rs:520-540 | there is a verdict iff the rows are all over and there are some; it is cancelled iff some job was cancelled, timed out iff some timed out and none was cancelled, else partial iff there are a failure and a success, failed iff there are a failure and no success, passed iff each succeeded or was skipped |
| Outcomes.CompletedPipelineMeans | backend/src/services/pipeline_run.rs:520-584 | in every run a completed pipeline has jobs, all over, and its verdict says this about their conclusions as they stand |
| Outcomes.SkippedHasCulprit | backend/src/services/pipeline_run.rs:466-517 | in every run whose skips come from sweeps, behind a skipped job there is one of its pipeline that failed, was cancelled, or ran out of time |
| Outcomes.PassedIffAllSucceeded | backend/src/services/pipeline_run.rs:520-584 | so a completed pipeline has passed iff each of its jobs succeeded, and then each of them was claimed |
| BootRecovery.RecoveryLeavesSweptIff | backend/src/main.rs:63-84 | recovery leaves no queued job behind a failed one iff none that it leaves queued needs a job that is unsuccessful or lost for the second time |
| BootRecovery.LeftWaiting | backend/src/main.rs:76-83 | such a job is not eligible, and its pipeline has no verdict to be finalized with |
| BootRecovery.NeverClaimed | backend/src/db/pipeline_jobs.rs:50-71 | a job that needs an unsuccessful one is never claimed again in any run |
| BootRecovery.OffenderIsReachable | backend/src/db/pipeline_jobs.rs:554-583 | claim, recovery, reconnect, claim gives a job lost twice with a dependent waiting |
| BootRecovery.StartIsReachable | backend/src/db/pipelines.rs:42-185 | its start is reached from the empty tables by creating two jobs and connecting a runner |
| Stages.NameMeansStage | protocol/src/lib.rs:21-32 | a name stands for a stage iff it is the one the stage goes by |
| ControlPlaneModel.ControlPlane.InsertPipeline | backend/src/db/pipelines.rs:42-185 | inserts the rows with their defaults iff ids and keys are new, and extends the run by that step |
| ControlPlaneModel.ControlPlane.ClaimForRunner | backend/src/db/pipeline_jobs.rs:271-312 | returns the row iff both guards hold, and otherwise leaves all tables as they were; the run grows by the claim |
| ControlPlaneModel.ControlPlane.UndoClaim | backend/src/db/pipeline_jobs.rs:316-328 | takes an unacknowledged claim back to the queue; does the step and says when a row was selected |
| ControlPlaneModel.ControlPlane.Acknowledge | backend/src/db/pipeline_jobs.rs:331-348 | moves an assigned job of this runner to preparing; does the step and says when |
| ControlPlaneModel.ControlPlane.RevertStale | backend/src/db/pipeline_jobs.rs:352-375 | reverts exactly the stale unacknowledged rows that are not locked, and returns each with the runner it had |
| ControlPlaneModel.ControlPlane.UpdateStage | backend/src/db/pipeline_jobs.rs:379-398 | sets the stage iff this runner holds the job in progress |
| ControlPlaneModel.ControlPlane.Finish | backend/src/db/pipeline_jobs.rs:402-430 | concludes the job iff this runner holds it in progress, and returns the new row |
| ControlPlaneModel.ControlPlane.Force | backend/src/db/pipeline_jobs.rs:434-454 | concludes the job iff it was not completed, keeping its runner |
| ControlPlaneModel.ControlPlane.Skip | backend/src/db/pipeline_jobs.rs:458-470 | skips exactly the listed rows that are queued |
| ControlPlaneModel.ControlPlane.CancelOne | backend/src/db/pipeline_jobs.rs:475-487 | cancels the job iff it is queued |
| ControlPlaneModel.ControlPlane.CancelAllQueued | backend/src/db/pipeline_jobs.rs:490-502 | cancels exactly the queued rows of the pipeline |
| ControlPlaneModel.ControlPlane.RequeueOrphans | backend/src/db/pipeline_jobs.rs:518-583 | the requeued ids are the first attempts in scope, the failed ones the rest of the lost jobs, and the tables are those of the two steps in turn |
| ControlPlaneModel.ControlPlane.Connect | backend/src/db/runners.rs:748-761 | sets an unrevoked row idle, whatever it was |
| ControlPlaneModel.ControlPlane.TakeOffline | backend/src/db/runners.rs:807-813 | sets the row offline |
| ControlPlaneModel.ControlPlane.TakeAllOffline | backend/src/db/runners.rs:816-821 | sets every row offline |
| ControlPlaneModel.ControlPlane.Free | backend/src/db/runners.rs:826-839 | takes a busy row to offline if draining and to idle if not, clearing the flag |
| ControlPlaneModel.ControlPlane.StartDrain | backend/src/db/runners.rs:861-905 | does the guarded drain step and reports whether the tables changed |
| ControlPlaneModel.ControlPlane.DisableRunner | backend/src/db/runners.rs:910-952 | does the guarded step and reports whether the tables changed |
| ControlPlaneModel.ControlPlane.ResumeRunner | backend/src/db/runners.rs:957-1001 | does the guarded step and reports whether the tables changed |
| ControlPlaneModel.ControlPlane.RevokeRow | backend/src/db/runners.rs:601-643 | does the guarded step and reports whether the tables changed |
| ControlPlaneModel.ControlPlane.StartPipeline | backend/src/db/pipelines.rs:327-339 | starts the pipeline iff it is queued |
| ControlPlaneModel.ControlPlane.FinalizePipeline | backend/src/db/pipelines.rs:342-360 | completes the pipeline with the verdict iff it was not completed, and changes nothing otherwise |
| ControlPlaneModel.ControlPlane.MaybeFinalize | backend/src/services/pipeline_run.rs:544-584 | takes exactly the steps it should: none unless the listing shows all jobs over, else one finalization with the verdict their conclusions call for; whatever happens between listing and update, the listing is then still that of the pipeline |
| ControlPlaneModel.ControlPlane.SkipDependents | backend/src/services/pipeline_run.rs:466-517 | takes no step or skips exactly the ids decided on its listing, whatever other tasks do in between |
| ControlPlaneModel.ControlPlane.SettlePipeline | backend/src/services/pipeline_run.rs:417-429 | after it, under any interleaving, each ending so far has been attended to and followed by an attempt to finalize, as `Settling` requires |
| ControlPlaneModel.ControlPlane.OnJobStage | backend/src/handlers/runner_ws.rs:482-491 | a name the vocabulary has, other than the first and the last, stores the stage it stands for iff the runner holds the job, and nothing else; any other name takes no step; the lifecycle invariant is kept |
| ControlPlaneModel.ControlPlane.OnJobResult | backend/src/handlers/runner_ws.rs:593-615 | a report on a job the runner does not hold changes nothing; otherwise the job concludes for good, and with quiet steps between ending and release exclusivity is kept and the runner free |
| ControlPlaneModel.ControlPlane.ForceFinishAndRelease | backend/src/services/pipeline_run.rs:765-781 | the same for a forced ending; a job not in progress is ended without a release |
| ControlPlaneModel.ControlPlane.FailDispatch | backend/src/services/scheduler.rs:161-225 | release, steps, forced ending, steps, release: the job is over, and with quiet stretches exclusive tables end exclusive, whether or not the job was still held |
| ControlPlaneModel.ControlPlane.RecoverAndRelease | backend/src/services/pipeline_run.rs:810-819 | its steps are the two statements and one release for each job the second one found, with any steps between; recovery of a runner that stays down keeps exclusivity and leaves nothing in flight |
| ControlPlaneModel.ControlPlane.Disconnect | backend/src/handlers/runner_ws.rs:420-431 | from any exclusive tables, if nothing reconnects or resumes the runner meanwhile, it ends down and free, so a reconnect is safe |
| ControlPlaneModel.ControlPlane.RevokeRunner | backend/src/handlers/runners.rs:553-595 | the same for a revoked runner; without effect if the row is not there or revoked |
| ControlPlaneModel.ControlPlane.Boot | backend/src/main.rs:63-84 | every runner is offline, no job in progress, the failed jobs are the repeat offenders, and each of their pipelines is completed if all its jobs are over |
| RunnerSlotModel.RunnerSlot.OnJobAssign | runner/src/ws.rs:271-320 | accepts iff verified, addressed to this runner and the slot free; then one executor runs that job, and an ack is queued unless the queue is full |
| RunnerSlotModel.RunnerSlot.OnJobCancel | runner/src/ws.rs:321-329 | a cancel marks the slot iff it holds that very job |
| RunnerSlotModel.RunnerSlot.SendResult | runner/src/executor.rs:223-234 | reports come once per accepted job, in acceptance order, before the slot is freed |
| RunnerSlotModel.RunnerSlot.FreeSlot | runner/src/executor.rs:235-238 | the unconditional take only ever takes the executor's own job |
| PipelineCreationModel.CommitKeepsGapless | backend/src/db/pipelines.rs:42-185 | committing a row with the number it holds keeps a repository's numbers exactly 1 to next-1, each used once |
| PipelineCreationModel.CommitKeepsDeliveryUnique | backend/migrations/20260717100001_pipeline_delivery_idempotency.sql:7-14 | a commit keeps at most one pipeline per (delivery, workflow) |
| PipelineCreationModel.CommitKeepsOthers | backend/src/db/pipelines.rs:42-185 | what the other open transactions rely on still holds after a commit |
| PipelineCreationModel.PipelineStore.Begin | backend/src/db/pipelines.rs:47-55 | the early check answers with the recorded pipeline, or opens a transaction iff there is none |
| PipelineCreationModel.PipelineStore.BumpCounter | backend/src/db/pipelines.rs:57-68 | waits iff another transaction has bumped this counter, then holds the next number |
| PipelineCreationModel.PipelineStore.InsertPipeline | backend/src/db/pipelines.rs:70-123 | waits for an uncommitted row of the same delivery; loses to a committed one by rolling back, number included; the number it holds is never taken |
| PipelineCreationModel.PipelineStore.InsertJobs | backend/src/db/pipelines.rs:125-146 | the loop writes a row for each planned job, in order, into the transaction's working copy, nothing visible to others |
| PipelineCreationModel.PipelineStore.RollBack | backend/src/db/pipelines.rs:105-122 | dropping a transaction at any point keeps every invariant and leaves no trace |
| PipelineCreationModel.PipelineStore.Commit | backend/src/db/pipelines.rs:125-184 | pipeline, jobs and counter become visible together, under any interleaving |
| PipelineCreationModel.PipelineStore.Create | backend/src/db/pipelines.rs:42-185 | beside open transactions it need not wait for: a retried delivery gets the recorded pipeline and changes nothing; a new one takes exactly one number and gets its job rows |
| PipelineCreationModel.PipelineStore.CreateAmong | backend/src/db/pipelines.rs:42-185 | under any interleaving with the statements of other transactions, waiting where it must: an answer is the one pipeline of its delivery and workflow, and a created one has the request's row and all its job rows; without an answer nothing of it is visible |
| PipelineCreationModel.PipelineStore.NoDeadlock | backend/src/db/pipelines.rs:42-185 | of the open transactions at least one does not wait |
| PipelineCreationModel.PipelineStore.AnswersAgree | backend/src/db/pipelines.rs:188-200 | two answers for one (delivery, workflow) name the same pipeline |
| WebhookQueueModel.RevivalKeepsRowIff | backend/src/db/webhook_deliveries.rs:30-60 | a revived row is processable iff the redelivered event is of a processed kind |
| WebhookQueueModel.FailureKeepsRowIff | backend/src/db/webhook_deliveries.rs:112-132 | recording a failure keeps the row's invariant iff it has a payload or the retries are now spent |
| WebhookQueueModel.ArrivalTracked | backend/src/db/webhook_deliveries.rs:68-86 | an arrival is late iff something that sorts after it has left, and undecided iff it sorts before the row in work |
| WebhookQueueModel.OutOfOrderIsTracked | backend/src/db/webhook_deliveries.rs:68-86 | an arrival in order is one that is neither |
| WebhookQueueModel.LaterArrivesInOrder | backend/src/db/webhook_deliveries.rs:68-86 | a strictly later arrival is in order |
| WebhookQueueModel.ClaimTracked | backend/src/db/webhook_deliveries.rs:68-86 | claiming the oldest pending row starts an attempt that nothing waiting sorts before |
| WebhookQueueModel.DepartureTracked | backend/src/db/webhook_deliveries.rs:90-132 | a departure makes the undecided arrivals late, and breaks the order iff the row itself was late |
| WebhookQueueModel.RetryTracked | backend/src/db/webhook_deliveries.rs:112-132 | an attempt that goes back to the queue decides nothing |
| WebhookQueueModel.DeparturesAscendIff | backend/src/db/webhook_deliveries.rs:63-86 | in every run without crash, revival or failure on a finished row, deliveries leave in (received_at, delivery_id) order iff none that left was late |
| WebhookQueueModel.InOrderArrivalsLeaveInOrder | backend/src/db/webhook_deliveries.rs:63-132 | in every such run, arrivals in order leave in order, however often attempts are repeated |
| WebhookQueueModel.DrainedInOrderIff | backend/src/services/webhook_processor.rs:101-112 | with every attempt successful and the queue drained, iff every arrival came in order |
| WebhookQueueModel.EqualTimesOvertake | backend/src/db/webhook_deliveries.rs:68-86 | two deliveries of one time that leave out of order |
| WebhookQueueModel.RetryRestoresOrder | backend/src/db/webhook_deliveries.rs:112-132 | the same arrivals leave in order when the first attempt is repeated |
| WebhookQueueModel.MisreportedCompletionReopens | backend/src/services/webhook_processor.rs:153-170 | a completion that took effect but was reported as failed leaves the processed row pending without payload |
| WebhookQueueModel.ArrivalTells | backend/src/db/webhook_deliveries.rs:30-60 | a stored row carries the time and the payload of its arrival, no retry, and is ignored iff its event is of no processed kind |
| WebhookQueueModel.RevivalTells | backend/src/db/webhook_deliveries.rs:44-47 | a revived row keeps its time, takes the payload of the redelivery and starts counting anew |
| WebhookQueueModel.FinishTells | backend/src/db/webhook_deliveries.rs:90-108 | a finished row is processed or ignored as it was concluded |
| WebhookQueueModel.FailureTells | backend/src/db/webhook_deliveries.rs:112-132 | a failure adds one retry, and the row is failed iff the retries have reached the maximum |
| WebhookQueueModel.WebhookQueue.Receive | backend/src/handlers/github_webhooks.rs:187-210 | stores, revives a failed row, or drops the redelivery; processed and ignored rows never change |
| WebhookQueueModel.WebhookQueue.ClaimNext | backend/src/db/webhook_deliveries.rs:68-86 | claims the oldest pending row, none iff nothing waits |
| WebhookQueueModel.WebhookQueue.Complete | backend/src/services/webhook_processor.rs:197-232 | the commit takes effect, acknowledged or not: the row in work ends without payload, rows that were over are left alone |
| WebhookQueueModel.WebhookQueue.Fail | backend/src/db/webhook_deliveries.rs:112-132 | back to pending, or failed with no payload once the retries are spent, whatever the row was; finished rows are untouched iff the completion was not one that took effect unacknowledged |
| WebhookQueueModel.WebhookQueue.RevertStuck | backend/src/db/webhook_deliveries.rs:136-149 | reverts exactly the stuck rows; in a crash-free run there are none |
| NotificationsModel.BulkBreaksIndexIff | backend/src/db/notifications.rs:278-317 | a bulk verb breaks the unique index iff it is an unread that reopens a key that is live or reopened twice |
| NotificationsModel.MergeKeeps | backend/src/db/notifications.rs:59-96 | merging keeps the index and adds one to the total of occurrences |
| NotificationsModel.InsertKeeps | backend/src/db/notifications.rs:59-96 | inserting when there is nothing to merge into does so too |
| NotificationsModel.FlagsKeep | backend/src/db/notifications.rs:232-274 | changing flags without reopening rows keeps index and total |
| NotificationsModel.TotalSplit | backend/src/db/notifications.rs:458-475 | a delete splits the total into what stays and what goes |
| NotificationsModel.NotificationCenter.Upsert | backend/src/db/notifications.rs:59-96 | every upsert is counted once: the row of its user and key shows its text, is unread, and is the only such row; a new one starts at one, a live one gains one and keeps the rest |
| NotificationsModel.NotificationCenter.MarkRead | backend/src/db/notifications.rs:232-250 | marks the caller's own unread row, nothing else |
| NotificationsModel.NotificationCenter.MarkAllRead | backend/src/db/notifications.rs:254-274 | marks the caller's own unread rows of the category and leaves none of them unread |
| NotificationsModel.BulkLeaves | backend/src/db/notifications.rs:278-317 | in flags: `read` sets what is unread, `unread` clears what is not archived, `archive` sets both and keeps older times, on the caller's listed rows only, and nothing else changes |
| NotificationsModel.NotificationCenter.BulkUpdate | backend/src/db/notifications.rs:278-317 | aborts with nothing changed iff it would break the index, and otherwise does the verb to the caller's listed rows |
| NotificationsModel.NotificationCenter.AutoArchiveRead | backend/src/db/notifications.rs:438-455 | archives the batch; archived rows are read, occurrences are kept |
| NotificationsModel.NotificationCenter.PurgeArchived | backend/src/db/notifications.rs:458-475 | present and purged occurrences together still equal the upserts |
| Utf8.WellFormedIff | runner/src/executor.rs:107-131 | a text is well-formed UTF-8 (section 4 of RFC 3629) iff it encodes a sequence of scalar values |
| Utf8.EncodingUnique | runner/src/executor.rs:107-131 | and of only one |
| Utf8.CutAtBoundary | runner/src/executor.rs:107-131 | a well-formed text cut at a character boundary is two well-formed texts |
| Utf8.BoundaryNear | runner/src/executor.rs:111-113 | a character boundary is never more than three bytes ahead |
| LogTransport.CutPoint | runner/src/executor.rs:109-114 | the next piece is not empty, well-formed, at most 32768+3 bytes, and short only if it is the last |
| LogTransport.JobLog.Emit | runner/src/executor.rs:107-131 | emits consecutively numbered pieces with the current section whose texts join to the input, after everything emitted before |
| LogTransport.LogStore.InsertChunks | backend/src/db/pipeline_logs.rs:20-50 | inserts what has a free number, the first of several copies, and touches no other job |
| LogTransport.InsertAllIs | backend/src/db/pipeline_logs.rs:20-50 | when copies agree, the table ends up with what it had and every chunk whose number was free |
| LogTransport.BatchesAreOne | backend/src/db/pipeline_logs.rs:20-50 | how the chunks are grouped into inserts does not matter |
| LogTransport.ReadsBack | backend/src/db/pipeline_logs.rs:76-88 | a table holding numbered messages is fetched as their text |
| LogTransport.Lossless | backend/src/db/pipeline_logs.rs:20-88 | within one attempt, any order, grouping and repetition of the deliveries is read back as exactly the chunks sent, with their attribution, and so as the whole text |
| LogTransport.SecondAttemptKeepsTail | runner/src/executor.rs:202-208 | after a second attempt the log is the first attempt's text and the second one's messages beyond it; it is the second attempt's text iff the overlap is equal |
| LogTable.RangeIsExact | backend/src/db/pipeline_logs.rs:52-88 | an ordered fetch is strictly ascending and holds exactly the stored chunks from its start on |
| LogTable.FetchIsPrefix | backend/src/db/pipeline_logs.rs:52-72 | a fetch is the beginning of the ordered rest, at least 1 and at most 2000 chunks of it |
| LogBackfill.SendBatch | backend/src/handlers/browser_ws.rs:219-235 | sends the batch in order and leaves the cursor past its last chunk, saturating |
| LogBackfill.Backfill | backend/src/handlers/browser_ws.rs:209-239 | over a table that grows between fetches the replay ends, is ascending, and sends everything stored at the start; over a fixed one its output is exactly determined |
| LogBackfill.ReplayIsOneScanIff | backend/src/handlers/browser_ws.rs:209-239 | a replay is one scan, each chunk once, iff the marker does not end a full batch |
| LogBackfill.MarkerEndsFullBatch | backend/src/services/log_hub.rs:30-32 | 1999 chunks and the overflow marker are such a log |
| LogBackfill.RangeRest | backend/src/db/pipeline_logs.rs:52-72 | a fetch continues, after any of its chunks, with the fetch from the next number |
| OrderedScan.ScanLists | backend/src/db/pipelines.rs:265-266 | a scan under a strict order lists every key once, in order |
| OrderedScan.ListingUnique | backend/src/db/pipelines.rs:265-266 | and is the only such listing |
| Digits.FixedReads | backend/src/handlers/pipelines.rs:82-84 | a number printed in a fixed width it fits is read back, in any base up to 16 |
| Rfc3339.DateOf | backend/src/handlers/pipelines.rs:75-78 | every day number has a date of the Gregorian calendar with that number |
| Rfc3339.FourDigitYear | backend/src/handlers/pipelines.rs:82-84 | the days of the years 0 to 9999 are the first 3652425 |
| Rfc3339.FractionReads | backend/src/handlers/pipelines.rs:75-84 | a fraction printed with none, three or six digits is read back in microseconds |
| Rfc3339.RoundTrip | backend/src/handlers/pipelines.rs:75-84 | the RFC 3339 text of an instant parses back to it |
| Rfc3339.SpellingReads | backend/src/handlers/pipelines.rs:75-78 | a local time with an offset is read as the instant they make, if it is in range |
| Rfc3339.OffsetReads | backend/src/handlers/pipelines.rs:75-78 | an offset of hours and minutes is read as so many minutes ahead of UTC or behind, `Z` as none |
| Rfc3339.DateShape | backend/src/handlers/pipelines.rs:75-78 | whatever is read as a date is a year, a month of 1 to 12 and a day, in this order, with hyphens between |
| Rfc3339.ClockShape | backend/src/handlers/pipelines.rs:75-78 | whatever is read as a clock is an hour below 24, a minute and a second below 60, with colons between |
| Rfc3339.ParsedShape | backend/src/handlers/pipelines.rs:75-78 | whatever is read as an instant is a date, a letter, a clock, a fraction if there is one, and an offset |
| UuidText.RoundTrip | backend/src/handlers/pipelines.rs:79-84 | the hyphenated text of a UUID parses back to it |
| Paging.CursorRoundTrip | backend/src/handlers/pipelines.rs:69-84 | every printed cursor parses back to its key |
| Paging.CursorParsesIff | backend/src/handlers/pipelines.rs:69-80 | a text is accepted iff it has at most 128 characters and is a time and an id around its first `~` |
| Paging.CursorsAreFaithful | backend/src/handlers/pipelines.rs:69-84 | so the server's printer and parser are a codec the paging results apply to |
| Paging.PageIs | backend/src/db/pipelines.rs:233-286 | a page is the first of the rows after the cursor, all of them if it is short |
| Paging.PagesCover | backend/src/handlers/pipelines.rs:49-62 | the pages so far hold everything up to the cursor, newest first, once, even if rows were added meanwhile |
| Paging.PagingIsOneScan | backend/src/handlers/pipelines.rs:41-65 | following the server's cursors to the end returns all rows present at the start, none twice; over fixed rows it is the one ordered scan, in a number of requests fixed by their count |
| Paging.PagingIsNewestFirst | backend/src/db/pipelines.rs:265-266 | the rows collected come latest creation first, and of equal times the larger id first |
| Paging.FirstPageIsLatest | backend/src/handlers/pipelines.rs:41-65 | the first page holds 50 rows, or as many as asked for between 1 and 100, or all there are, and no row left off it was created later than one on it |
| Paging.LaterPageIsOlder | backend/src/db/pipelines.rs:233-266 | a row on a page asked for with a cursor was created before the row the cursor was printed for, or at the same time with a smaller id |
| Paging.PagingGoesOn | backend/src/handlers/pipelines.rs:57-80 | a cursor the server printed is never rejected, and over fixed rows the cursors run out |
| Paging.PagingEnds | backend/src/handlers/pipelines.rs:57-61 | so over fixed rows a client that keeps following reaches a page without a cursor |
| Segments.JoinThenSplit | protocol/src/lib.rs:410-410 | splitting joined parts gives the parts |
| Segments.SplitThenJoin | protocol/src/lib.rs:410-410 | joining split parts gives the text |
| PathNormalisation.NormalizeRelativePath | protocol/src/lib.rs:402-426 | returns y iff y is in normal form and the value is y after an optional `./` and before any number of slashes |
| PathNormalisation.NormalizeIdempotent | protocol/src/lib.rs:402-426 | the result normalises to itself, and there is only one |
| PathNormalisation.AllowedAreListed | protocol/src/lib.rs:417-422 | the accepted characters, one by one |
| PathNormalisation.ResolveContainerWorkdir | runner/src/executor.rs:794-802 | the workspace itself, the workspace with the normalised path, or an error iff there is none |
| PathNormalisation.StaysInside | runner/src/executor.rs:790-802 | resolving the directory component by component never leaves the workspace and ends at the path's own segments below it |
| PathNormalisation.SameDirectory | protocol/src/lib.rs:389-426 | normalising does not change where the value leads |
| Repackage.StripWrapper | runner/src/executor.rs:1058-1083 | the component loop computes the path below the wrapper, or finds it unsafe or empty |
| Repackage.ReadHeader | runner/src/executor.rs:1024-1035 | the last usable path record of a header wins, the carried path stays if there is none |
| Repackage.ProcessEntry | runner/src/executor.rs:1020-1096 | one turn of the loop replaces, keeps, drops or uses up the carried path, and copies at most one entry under its stripped name |
| Repackage.Repackage | runner/src/executor.rs:1005-1099 | the loop with the carried pax path maps and filters every entry on its own, counts the regular files it emits, and fails iff a copied entry's own path is needed and unreadable |
| Repackage.OutputIsSafe | runner/src/executor.rs:1058-1083 | no link or pseudo-entry is emitted, and every output path is a non-empty list of plain segments |
| Repackage.UnwrapsArchive | runner/src/executor.rs:1005-1099 | items archived under one wrapper, with or without `./`, long names in pax headers, come back in order with paths and contents, links gone |
| LikeEscape.EscapeLike | backend/src/handlers/pipelines.rs:163-172 | the loop computes the escaped text |
| LikeEscape.EscapedConsumes | backend/src/handlers/pipelines.rs:163-172 | escaped text consumes exactly the text it stands for, whatever pattern follows |
| LikeEscape.SubstringSearch | backend/src/handlers/pipelines.rs:139-143 | `%` escaped `%` matches iff the query occurs in the text |
| LikeEscape.PrefixSearch | backend/src/handlers/search.rs:97-101 | escaped `%` matches iff the text begins with the query |
| LikeEscape.SearchPatternsAccepted | backend/src/handlers/pipelines.rs:139-143 | both patterns are ones the database accepts |
| Csv.Export | backend/src/handlers/activity.rs:203-227 | the assembled document is the header line and the rows' lines in order |
| Csv.QuotedReads | backend/src/handlers/activity.rs:174-184 | a printed field is read back as its cell by a reader of section 2 of RFC 4180, whatever characters it holds |
| Csv.LineReads | backend/src/handlers/activity.rs:207-227 | a printed line is read back as its cells |
| Csv.ExportReadsBack | backend/src/handlers/activity.rs:203-227 | a reader of the whole document gets the header and each row's cells, neutralised only, none beginning a formula |
| Csv.PrintAlikeIff | backend/src/handlers/activity.rs:174-184 | two fields print alike iff equal or one is the other with its formula already quoted |
| Csv.QuotedIffNeeded | backend/src/handlers/activity.rs:174-184 | a cell is quoted iff it holds a quote, a comma or a line break |
| Csv.NeutralisedIff | backend/src/handlers/activity.rs:168-178 | a cell gets an apostrophe iff it begins with one of the six characters a spreadsheet takes for a formula |
| TsQuery.LexemeReads | backend/src/handlers/search.rs:163-168 | a quoted token is read back whatever quotes and backslashes it holds |
| TsQuery.JoinedReads | backend/src/handlers/search.rs:163-172 | the joined query is read back as its tokens |
| TsQuery.QueryReadsBack | backend/src/handlers/search.rs:158-173 | the query reads back as exactly the first eight searchable tokens, each a non-empty run without spaces; there is none iff no token is searchable; too long iff over 200 characters |
| TsQuery.WantedAreFirst | backend/src/handlers/search.rs:163-167 | the tokens searched for stand at ascending places in the text, and a searchable token left out stands after eight of them |
| TsQuery.TrimmedIs | backend/src/handlers/search.rs:159-159 | trimming takes the spaces off both ends and nothing else |
| TsQuery.ControlVanishes | backend/src/handlers/search.rs:159-159 | control characters vanish wherever they stand |
| TsQuery.ControlSpaceJoins | backend/src/handlers/search.rs:158-164 | so two words with only a line break between them are one token |
| TsQuery.RunIsToken | backend/src/handlers/search.rs:163-164 | a run without spaces is one token |
| TsQuery.SpaceSeparates | backend/src/handlers/search.rs:163-164 | a space separates the tokens before it from those after it |
| ManifestModel.ManifestBuilder.Add | runner/src/artifacts.rs:243-256 | for every input sequence the totals are the minimum of the true sum and the type's maximum, and the entries are those that fit when they come |
| ManifestModel.ManifestBuilder.Finish | runner/src/artifacts.rs:258-260 | a manifest iff a file was seen |
| ManifestModel.ListedWithinCaps | runner/src/artifacts.rs:243-256 | the listed entries respect both caps |
| ManifestModel.ListedIsCompleteIff | runner/src/artifacts.rs:21-29 | every file is listed iff they all fit |
| ManifestModel.SanitizeManifest | backend/src/handlers/runner_ws.rs:774-809 | keeps all three values or drops all of them |
| ManifestJson.JsonReads | backend/src/handlers/runner_ws.rs:797-800 | whatever bytes the paths hold, the printed entries are read back by a reader of RFC 8259 |
| ManifestJson.JsonLengthIs | backend/src/handlers/runner_ws.rs:797-800 | the text is as long as its objects, the brackets, and a comma between two of them |
| ManifestModel.CharCountIs | backend/src/handlers/runner_ws.rs:790-796 | bytes that are not continuations count the characters of a path |
| ManifestModel.LengthBound | runner/src/artifacts.rs:27-29 | the estimate is short by at most 13 bytes per entry when nothing needs escaping |
| ManifestModel.CapsAgree | backend/src/handlers/runner_ws.rs:764-809 | a manifest within the runner's caps, with plain paths and totals in range, prints to at most 65536+14000+2 bytes and is kept whole |
| ManifestModel.StoredIff | backend/src/handlers/runner_ws.rs:774-809 | a finished manifest is stored iff its totals and paths are in range and its JSON is not too long |
| ManifestModel.LongPathIsDropped | backend/src/handlers/runner_ws.rs:790-796 | one listed path of 513 characters fails the server's check |
| ManifestModel.QuotesAreDropped | backend/src/handlers/runner_ws.rs:797-800 | 128 paths of 480 quotes are all listed and print to more than the server accepts |
| ChangedPaths.Aggregate | backend/src/handlers/github_webhooks.rs:279-303 | the nested loops collect the first 300 of the distinct usable paths, all of them among what some commit added, removed or modified, and set the flag iff the push declares more commits or there are more than 300; without the flag every such path of at most 512 bytes is collected |
| ChangedPaths.AllPathsAre | backend/src/handlers/github_webhooks.rs:282-286 | the paths read are those that some commit of the push added, removed or modified |
| ChangedPaths.CommitReads | backend/src/handlers/github_webhooks.rs:283-285 | a commit is read as what it added, then what it removed, then what it modified |
| ChangedPaths.PushReads | backend/src/handlers/github_webhooks.rs:282-286 | and a push commit by commit |
| ChangedPaths.DistinctIs | backend/src/handlers/github_webhooks.rs:286-298 | the distinct list has every usable path, once |
| ChangedPaths.FirstOccurrence | backend/src/handlers/github_webhooks.rs:286-298 | each collected path stands where it first occurred |
| ChangedPaths.UnsetFlagIsComplete | backend/src/handlers/github_webhooks.rs:276-278 | an unset flag means the set is complete: exactly the usable paths the listed commits added, removed or modified, and no more commits declared |

## Left out

- Docker, HTTP, WebSocket framing, object storage, the file system, gzip and tar decoding: foreign calls. Tar input is a sequence of decoded entries, and a channel is a sequence.
- HMAC signatures, token hashing, encryption, OAuth, sessions and permission checks. Whether an assignment verifies is a parameter of `RunnerSlot.OnJobAssign`.
- Real time: timestamps are natural numbers given by the caller. Uuids are natural numbers with their order.
- Audit rows, dashboards, summaries, search index maintenance, JSON response shapes, config parsing, telemetry and backoff: reporting, or one-branch facts.
- The frontend.
- The log hub between runner and store (secret masking, line caps, the per-job byte budget, its own replay filter) is taken as the identity; only its overflow marker is modelled.
- Label matching and the choice of a runner: a claim may name any idle runner, and any job that an earlier read found eligible.
- Unicode normalisation and the case folding of ILIKE: text starts in NFC, folding is a function of a character.
- JobLog.Emit: counts without a bound where the source has a 64-bit counter, and a send on a closed channel, whose error the source drops, is a message like any other.
- Exclusivity.SafeRunIsExclusive: assumes that each release finds nothing in flight; `Pairing.PairedRunIsExclusive` derives it from the pairing of endings and releases.
- ControlPlane.Disconnect: the test of the hub for a newer connection is not modelled; a reconnect between its statements is a step of another task, and the contract then promises nothing about exclusivity.
- ControlPlane.Boot: publishing, audit rows and the check run that follow a finalization are left out.
- Rfc3339.RoundTrip: instants of the years 0 to 9999 in whole microseconds, as the database keeps them; the parser takes section 5.6 of RFC 3339 without leap seconds, where the library takes a few more spellings.
- UuidText.RoundTrip: the parser takes the hyphenated form in either case; the library takes three more forms, none of which the server prints.
- PipelineStore.Create: waits for no one; `PipelineStore.CreateAmong` is the function under any interleaving, with waits.
- PipelineStore.CreateAmong: how long the other transactions take is a parameter; if they never let it through, it ends without an answer.
- LogStore.InsertChunks: the creation time of a row is not modelled.
- Paging.PagingIsOneScan: rows may be added between requests but not removed or changed so that the filter no longer selects them.
- LogBackfill.Backfill: chunks may be added while the replay runs but not pruned.
- PipelineStore.InsertPipeline: the only waits modelled are those on the counter row and on the delivery index; other database errors are rollbacks at any point.
- WebhookQueue.ClaimNext: one consumer, as the server runs it; the row locks that would let several share the queue are not modelled.
- NotificationCenter.Upsert: the fan-out to recipients and their preferences decides who gets an upsert and is not modelled.
- Repackage.Repackage: headers other than path and type (mode, times, size) are copied by foreign code and not modelled.
- TsQuery.QueryReadsBack: the reader covers conjunctions of quoted prefix lexemes, which is all the builder prints, not PostgreSQL's whole query language.
- LikeEscape.SubstringSearch: a pattern that ends in the escape character matches nothing in the model where the database raises an error; `SearchPatternsAccepted` shows that no such pattern is built.
- ManifestJson.JsonReads: the reader takes the arrays of objects that are printed, with escapes by number below U+0080, not all of RFC 8259.
