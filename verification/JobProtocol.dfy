/** The job, runner and pipeline tables as values, and every guarded UPDATE on
    them as one step. A table is a map from id to row. `NextRow` and
    `NextRunner` say what a step does to one row; rows a step's WHERE clause
    does not select are left alone. A `Run` is a history of steps and states. */
module JobProtocol {
  import opened Options

  type JobId = nat
  type RunnerId = nat
  type PipelineId = nat
  type Time = nat

  datatype Status = Queued | InProgress | Completed
  datatype Conclusion = Success | Failure | Cancelled | TimedOut | Skipped
  datatype Stage =
    | AtQueue | Preparing | WaitingForRunner | Assigned | PullingImage | StartingContainer
    | Running | UploadingArtifacts | CleaningWorkspace | Done

  datatype Job = Job(
    pipeline: PipelineId, key: string, needs: seq<string>,
    status: Status, stage: Stage, conclusion: Option<Conclusion>,
    runner: Option<RunnerId>, attempt: nat,
    exitCode: Option<int>, category: Option<string>,
    assignedAt: Option<Time>, startedAt: Option<Time>, finishedAt: Option<Time>)

  datatype NewJob = NewJob(key: string, needs: seq<string>)

  datatype RunnerStatus = Offline | Idle | Busy | Disabled
  datatype Runner = Runner(workspace: nat, status: RunnerStatus, draining: Option<Time>, revoked: Option<Time>)

  datatype Verdict = Passed | Failed | Partial | WasCancelled | WasTimedOut
  datatype Pipeline = Pipeline(status: Status, verdict: Option<Verdict>)

  datatype Db = Db(jobs: map<JobId, Job>, runners: map<RunnerId, Runner>, pipelines: map<PipelineId, Pipeline>)

  const EMPTY := Db(map[], map[], map[])

  datatype Step =
    // rows appearing
    | CreatePipeline(pipeline: PipelineId, rows: map<JobId, NewJob>)
    | RegisterRunner(runner: RunnerId, workspace: nat)
    // pipeline_jobs
    | Claim(job: JobId, runner: RunnerId, now: Time)
    | Unclaim(job: JobId)
    | Ack(job: JobId, runner: RunnerId, now: Time)
    | RevertUnacked(cutoff: Time, locked: set<JobId>)
    | SetStage(job: JobId, runner: RunnerId, stage: Stage)
    | FinishFromRunner(job: JobId, runner: RunnerId, conclusion: Conclusion, exitCode: Option<int>,
                       category: Option<string>, now: Time)
    | ForceFinish(job: JobId, conclusion: Conclusion, category: Option<string>, now: Time)
    | MarkSkipped(jobs: set<JobId>, now: Time)
    | CancelOneQueued(job: JobId, now: Time)
    | CancelQueued(pipeline: PipelineId, now: Time)
    | RequeueFirstAttempts(scope: Option<RunnerId>)
    | FailRepeatOffenders(scope: Option<RunnerId>, now: Time)
    // runners
    | MarkConnected(runner: RunnerId)
    | MarkOffline(runner: RunnerId)
    | MarkAllOffline
    | Release(runner: RunnerId)
    | DrainStart(workspace: nat, runner: RunnerId, now: Time)
    | Disable(workspace: nat, runner: RunnerId)
    | Resume(workspace: nat, runner: RunnerId, connected: bool)
    | Revoke(workspace: nat, runner: RunnerId, now: Time)
    // pipelines
    | MarkPipelineStarted(pipeline: PipelineId)
    | Finalize(pipeline: PipelineId, verdict: Verdict)

  function Coalesce<T>(a: Option<T>, b: T): Option<T> {
    if a.Some? then a else Some(b)
  }

  function FreshJob(pipeline: PipelineId, n: NewJob): Job {
    Job(pipeline, n.key, n.needs, Queued, AtQueue, None, None, 1, None, None, None, None, None)
  }

  function BackToQueue(j: Job): Job {
    j.(status := Queued, stage := AtQueue, runner := None, assignedAt := None)
  }

  function Concluded(j: Job, c: Conclusion, now: Time): Job {
    j.(status := Completed, conclusion := Some(c), stage := Done, finishedAt := Some(now))
  }

  /** The two UPDATE guards of a claim; the transaction commits when both select a row. */
  predicate ClaimFires(db: Db, job: JobId, runner: RunnerId) {
    && job in db.jobs && db.jobs[job].status == Queued && db.jobs[job].runner == None
    && runner in db.runners && db.runners[runner].status == Idle && db.runners[runner].revoked == None
  }

  predicate HeldBy(j: Job, runner: RunnerId) {
    j.status == InProgress && j.runner == Some(runner)
  }

  predicate InScope(j: Job, scope: Option<RunnerId>) {
    j.status == InProgress && (scope == None || j.runner == scope)
  }

  predicate Unacked(j: Job) {
    j.status == InProgress && j.stage == Assigned
  }

  predicate StaleUnacked(id: JobId, j: Job, cutoff: Time, locked: set<JobId>) {
    Unacked(j) && id !in locked && j.assignedAt.Some? && j.assignedAt.value < cutoff
  }

  /** What one step does to the job row `j` stored under `id`. */
  function NextRow(db: Db, s: Step, id: JobId, j: Job): Job {
    match s
    case Claim(job, runner, now) =>
      if id == job && ClaimFires(db, job, runner)
      then j.(status := InProgress, stage := Assigned, runner := Some(runner), assignedAt := Some(now)) else j
    case Unclaim(job) =>
      if id == job && Unacked(j) then BackToQueue(j) else j
    case Ack(job, runner, now) =>
      if id == job && HeldBy(j, runner) && j.stage == Assigned
      then j.(stage := Preparing, startedAt := Coalesce(j.startedAt, now)) else j
    case RevertUnacked(cutoff, locked) =>
      if StaleUnacked(id, j, cutoff, locked) then BackToQueue(j) else j
    case SetStage(job, runner, stage) =>
      if id == job && HeldBy(j, runner) then j.(stage := stage) else j
    case FinishFromRunner(job, runner, conclusion, exitCode, category, now) =>
      if id == job && HeldBy(j, runner)
      then Concluded(j, conclusion, now).(exitCode := exitCode, category := category,
                                          startedAt := Coalesce(j.startedAt, now))
      else j
    case ForceFinish(job, conclusion, category, now) =>
      if id == job && j.status != Completed
      then Concluded(j, conclusion, now).(category := category, startedAt := Coalesce(j.startedAt, now)) else j
    case MarkSkipped(jobs, now) =>
      if id in jobs && j.status == Queued then Concluded(j, Skipped, now) else j
    case CancelOneQueued(job, now) =>
      if id == job && j.status == Queued then Concluded(j, Cancelled, now) else j
    case CancelQueued(pipeline, now) =>
      if j.pipeline == pipeline && j.status == Queued then Concluded(j, Cancelled, now) else j
    case RequeueFirstAttempts(scope) =>
      if InScope(j, scope) && j.attempt < 2
      then BackToQueue(j).(startedAt := None, attempt := j.attempt + 1) else j
    case FailRepeatOffenders(scope, now) =>
      if InScope(j, scope)
      then Concluded(j, Failure, now).(category := Some("runner_lost"), startedAt := Coalesce(j.startedAt, now)) else j
    case _ => j
  }

  /** What one step does to the runner row `r` stored under `id`. */
  function NextRunner(db: Db, s: Step, id: RunnerId, r: Runner): Runner {
    match s
    case Claim(job, runner, now) =>
      if id == runner && ClaimFires(db, job, runner) then r.(status := Busy) else r
    case MarkConnected(runner) =>
      if id == runner && r.revoked == None then r.(status := Idle) else r
    case MarkOffline(runner) =>
      if id == runner then r.(status := Offline) else r
    case MarkAllOffline => r.(status := Offline)
    case Release(runner) =>
      if id == runner && r.status == Busy
      then r.(status := if r.draining.Some? then Offline else Idle, draining := None) else r
    case DrainStart(workspace, runner, now) =>
      if id == runner && r.workspace == workspace && r.revoked == None && r.draining == None
        && (r.status == Idle || r.status == Busy)
      then r.(draining := Some(now), status := if r.status == Idle then Offline else r.status) else r
    case Disable(workspace, runner) =>
      if id == runner && r.workspace == workspace && r.revoked == None && r.status != Disabled
      then r.(status := Disabled) else r
    case Resume(workspace, runner, connected) =>
      if id == runner && r.workspace == workspace && r.revoked == None && r.status == Disabled
      then r.(status := if connected then Idle else Offline) else r
    case Revoke(workspace, runner, now) =>
      if id == runner && r.workspace == workspace && r.revoked == None
      then r.(revoked := Some(now), status := Offline) else r
    case _ => r
  }

  function NextPipeline(s: Step, id: PipelineId, p: Pipeline): Pipeline {
    match s
    case MarkPipelineStarted(pipeline) =>
      if id == pipeline && p.status == Queued then p.(status := InProgress) else p
    case Finalize(pipeline, verdict) =>
      if id == pipeline && p.status != Completed then Pipeline(Completed, Some(verdict)) else p
    case _ => p
  }

  predicate KeysUnique(rows: map<JobId, NewJob>) {
    forall a, b :: a in rows && b in rows && rows[a].key == rows[b].key ==> a == b
  }

  /** New ids, and the unique key (pipeline_id, job_key). */
  predicate Creatable(db: Db, pipeline: PipelineId, rows: map<JobId, NewJob>) {
    pipeline !in db.pipelines && rows.Keys !! db.jobs.Keys && KeysUnique(rows)
  }

  function NextJobs(db: Db, s: Step): (jobs: map<JobId, Job>) {
    match s
    case CreatePipeline(pipeline, rows) =>
      if Creatable(db, pipeline, rows) then db.jobs + map id | id in rows :: FreshJob(pipeline, rows[id]) else db.jobs
    case _ => map id | id in db.jobs :: NextRow(db, s, id, db.jobs[id])
  }

  function NextRunners(db: Db, s: Step): (runners: map<RunnerId, Runner>) {
    match s
    case RegisterRunner(runner, workspace) =>
      if runner in db.runners then db.runners else db.runners[runner := Runner(workspace, Offline, None, None)]
    case _ => map id | id in db.runners :: NextRunner(db, s, id, db.runners[id])
  }

  function NextPipelines(db: Db, s: Step): (pipelines: map<PipelineId, Pipeline>) {
    match s
    case CreatePipeline(pipeline, rows) =>
      if Creatable(db, pipeline, rows) then db.pipelines[pipeline := Pipeline(Queued, None)] else db.pipelines
    case _ => map id | id in db.pipelines :: NextPipeline(s, id, db.pipelines[id])
  }

  function Apply(db: Db, s: Step): Db {
    Db(NextJobs(db, s), NextRunners(db, s), NextPipelines(db, s))
  }

  /** Rows are never deleted, and a new one comes from a pipeline being created. */
  lemma RowAfter(db: Db, s: Step, id: JobId)
    ensures id in db.jobs ==> id in Apply(db, s).jobs && Apply(db, s).jobs[id] == NextRow(db, s, id, db.jobs[id])
    ensures id in Apply(db, s).jobs && id !in db.jobs ==>
      (s.CreatePipeline? && Creatable(db, s.pipeline, s.rows) && id in s.rows
       && Apply(db, s).jobs[id] == FreshJob(s.pipeline, s.rows[id]))
  {
  }

  lemma RunnerAfter(db: Db, s: Step, r: RunnerId)
    ensures r in db.runners ==>
      r in Apply(db, s).runners && Apply(db, s).runners[r] == NextRunner(db, s, r, db.runners[r])
  {
  }

  lemma PipelineAfter(db: Db, s: Step, p: PipelineId)
    ensures p in db.pipelines ==>
      p in Apply(db, s).pipelines && Apply(db, s).pipelines[p] == NextPipeline(s, p, db.pipelines[p])
    ensures s.CreatePipeline? && Creatable(db, s.pipeline, s.rows) ==> s.pipeline in Apply(db, s).pipelines
  {
  }

  /** What no step changes about a row, and that a completed row stays as it is. */
  lemma RowStep(db: Db, s: Step, id: JobId)
    requires id in db.jobs
    ensures var (j, n) := (db.jobs[id], NextRow(db, s, id, db.jobs[id]));
      && n.pipeline == j.pipeline && n.key == j.key && n.needs == j.needs
      && (j.status == Completed ==> n == j)
  {
  }

  /** A run from the empty database: `states[k]` are the tables just before `steps[k]`. */
  datatype Run = Run(states: seq<Db>, steps: seq<Step>) {
    function Last(): Db
      requires |states| == |steps| + 1
    {
      states[|steps|]
    }
  }

  predicate StepTaken(run: Run, k: nat)
    requires k < |run.steps| && |run.states| == |run.steps| + 1
  {
    run.states[k + 1] == Apply(run.states[k], run.steps[k])
  }

  ghost predicate IsRun(run: Run) {
    && |run.states| == |run.steps| + 1
    && run.states[0] == EMPTY
    && forall k {:trigger StepTaken(run, k)} :: 0 <= k < |run.steps| ==> StepTaken(run, k)
  }

  const START := Run([EMPTY], [])

  function Extend(run: Run, s: Step): (longer: Run)
    requires |run.states| == |run.steps| + 1
    ensures |longer.states| == |longer.steps| + 1 && longer.Last() == Apply(run.Last(), s)
  {
    Run(run.states + [Apply(run.Last(), s)], run.steps + [s])
  }

  lemma ExtendIsRun(run: Run, s: Step)
    requires IsRun(run)
    ensures IsRun(Extend(run, s))
  {
    var longer := Extend(run, s);
    forall k | 0 <= k < |longer.steps|
      ensures StepTaken(longer, k)
    {
      if k < |run.steps| { assert StepTaken(run, k); }
    }
  }

  /** `after` goes on where `before` ends. */
  ghost predicate Continues(before: Run, after: Run) {
    && |before.states| == |before.steps| + 1 && |after.states| == |after.steps| + 1
    && before.states <= after.states && before.steps <= after.steps
  }

  lemma ContinuesFurther(a: Run, b: Run, s: Step)
    requires Continues(a, b)
    ensures Continues(a, Extend(b, s))
  {
  }

  /** Every sequence of steps is the step sequence of a run. */
  lemma {:induction false} RunOf(steps: seq<Step>) returns (run: Run)
    ensures IsRun(run) && run.steps == steps
  {
    if steps == [] {
      run := START;
    } else {
      var shorter := RunOf(steps[..|steps| - 1]);
      ExtendIsRun(shorter, steps[|steps| - 1]);
      run := Extend(shorter, steps[|steps| - 1]);
    }
  }

  // Queries

  /** `d` is a present dependency of `j`: same pipeline, and its key is listed in `needs`. */
  predicate DependsOn(j: Job, d: Job) {
    d.pipeline == j.pipeline && d.key in j.needs
  }

  /** A row that `find_eligible` returns. */
  predicate Eligible(db: Db, job: JobId) {
    && job in db.jobs && db.jobs[job].status == Queued
    && db.jobs[job].pipeline in db.pipelines && db.pipelines[db.jobs[job].pipeline].status != Completed
    && forall d :: d in db.jobs && DependsOn(db.jobs[job], db.jobs[d]) ==> db.jobs[d].conclusion == Some(Success)
  }

  /** A row that `find_idle_by_ids` returns. */
  predicate Schedulable(db: Db, runner: RunnerId) {
    && runner in db.runners && db.runners[runner].status == Idle
    && db.runners[runner].draining == None && db.runners[runner].revoked == None
  }

  predicate HasInFlight(db: Db, runner: RunnerId) {
    exists id :: id in db.jobs && HeldBy(db.jobs[id], runner)
  }
}
