/** The control plane's tables as fields, updated in place by one method per
    guarded UPDATE, and by the handlers that put those UPDATEs together. The
    ghost `run` is the history: what holds of all runs holds of the tables. */
module ControlPlaneModel {
  import opened Options
  import opened JobProtocol
  import opened Lifecycle
  import opened Exclusivity
  import opened Pairing
  import opened Stages
  import opened Settling
  import opened Outcomes
  import OrphanRecovery
  import PipelineProgress
  import StartOrder

  /** A report on a row the runner does not hold selects nothing. */
  lemma FinishMisses(db: Db, job: JobId, runner: RunnerId, s: Step)
    requires s.FinishFromRunner? && s.job == job && s.runner == runner
    requires !(job in db.jobs && HeldBy(db.jobs[job], runner))
    ensures Apply(db, s) == db
  {
    assert Apply(db, s).jobs == db.jobs && Apply(db, s).runners == db.runners && Apply(db, s).pipelines == db.pipelines;
  }

  lemma RequeueApplied(db: Db, scope: Option<RunnerId>, jobs: map<JobId, Job>)
    requires jobs == map id | id in db.jobs ::
      if InScope(db.jobs[id], scope) && db.jobs[id].attempt < 2
      then BackToQueue(db.jobs[id]).(startedAt := None, attempt := db.jobs[id].attempt + 1) else db.jobs[id]
    ensures Apply(db, RequeueFirstAttempts(scope)) == Db(jobs, db.runners, db.pipelines)
  {
    var next := Apply(db, RequeueFirstAttempts(scope));
    assert next.jobs == jobs && next.runners == db.runners && next.pipelines == db.pipelines;
  }

  lemma FinalizeApplied(db: Db, pipeline: PipelineId, verdict: Verdict)
    ensures Apply(db, Finalize(pipeline, verdict)) == Db(db.jobs, db.runners,
      if pipeline in db.pipelines && db.pipelines[pipeline].status != Completed
      then db.pipelines[pipeline := Pipeline(Completed, Some(verdict))] else db.pipelines)
  {
    var next := Apply(db, Finalize(pipeline, verdict));
    assert next.jobs == db.jobs && next.runners == db.runners;
    assert next.pipelines == if pipeline in db.pipelines && db.pipelines[pipeline].status != Completed
      then db.pipelines[pipeline := Pipeline(Completed, Some(verdict))] else db.pipelines;
  }

  /** The verdict of a listing, by the conclusions it shows. */
  lemma ListingVerdict(run: Run, pipeline: PipelineId, rows: seq<PipelineProgress.JobRow>)
    requires IsRun(run) && PipelineProgress.ListsPipeline(run.Last(), pipeline, rows)
    ensures var verdict := PipelineProgress.ComputeVerdict(rows);
      (verdict.Some? <==> Settled(rows)) && (verdict.Some? ==> Says(verdict.value, Conclusions(rows)))
  {
    StartOrder.ConclusionsInvariant(run, |run.steps|);
    var verdict := PipelineProgress.ComputeVerdict(rows);
    VerdictMeans(rows, if verdict.Some? then verdict.value else Passed);
  }

  lemma SweepDone(before: Run, skipped: Run, run: Run, pipeline: PipelineId, ids: set<JobId>, now: Time,
    others: seq<Step>)
    requires Continues(before, skipped) && Continues(skipped, run) && Decides(before.Last(), pipeline, ids)
    requires skipped.steps == before.steps + others + if ids == {} then [] else [MarkSkipped(ids, now)]
    ensures forall k, d :: 0 <= k < |before.steps| ==> Attended(run, |run.steps|, k, pipeline, d)
  {
    var l, m := |before.steps|, |before.steps + others|;
    assert run.states[l] == before.Last();
    assert ids != {} ==> run.steps[m] == skipped.steps[m];
    assert Sweep(run, l, m, pipeline, ids);
    forall k, d | 0 <= k < l ensures Attended(run, |run.steps|, k, pipeline, d) {
      assert SweepAttends(|run.steps|, k, d, l, m, ids);
    }
  }

  lemma TryDone(before: Run, listed: Run, run: Run, pipeline: PipelineId, rows: seq<PipelineProgress.JobRow>,
    others: seq<Step>)
    requires IsRun(listed) && Continues(before, listed) && Continues(listed, run)
    requires PipelineProgress.ListsPipeline(listed.Last(), pipeline, rows)
    requires Settled(rows) ==> exists v ::
      Says(v, Conclusions(rows)) && run.steps == listed.steps + others + [Finalize(pipeline, v)]
    requires !Settled(rows) ==> run.steps == listed.steps + others
    ensures forall k :: 0 <= k < |before.steps| ==> FinalizeTried(run, |run.steps|, k, pipeline)
  {
    var l, m := |listed.steps|, |listed.steps + others|;
    assert run.states[l] == listed.Last();
    ListingVerdict(listed, pipeline, rows);
    if Settled(rows) {
      var v :| Says(v, Conclusions(rows)) && run.steps == listed.steps + others + [Finalize(pipeline, v)];
      StartOrder.ConclusionsInvariant(listed, |listed.steps|);
      VerdictMeans(rows, v);
    }
    assert ActsOn(run, |run.steps|, m, pipeline, rows);
    forall k | 0 <= k < |before.steps| ensures FinalizeTried(run, |run.steps|, k, pipeline) {
      assert k < l <= m <= |run.steps|;
    }
  }

  /** A verdict read earlier in the run is that of the rows as they stand. */
  lemma VerdictStillRight(before: Run, run: Run, pipeline: PipelineId, rows: seq<PipelineProgress.JobRow>, v: Verdict)
    requires IsRun(run) && Continues(before, run) && pipeline in before.Last().pipelines
    requires PipelineProgress.VerdictAt(before.Last(), pipeline, rows, v)
    ensures PipelineProgress.VerdictAt(run.Last(), pipeline, rows, v)
  {
    assert run.states[|before.steps|] == before.Last();
    RunPreserves(run, |before.steps|, |run.steps|);
    PipelineProgress.VerdictIsStable(before.Last(), run.Last(), pipeline, rows, v);
  }

  lemma FailApplied(db: Db, scope: Option<RunnerId>, now: Time, jobs: map<JobId, Job>)
    requires jobs == map id | id in db.jobs ::
      if InScope(db.jobs[id], scope)
      then Concluded(db.jobs[id], Failure, now).(category := Some("runner_lost"),
                                                 startedAt := Coalesce(db.jobs[id].startedAt, now))
      else db.jobs[id]
    ensures Apply(db, FailRepeatOffenders(scope, now)) == Db(jobs, db.runners, db.pipelines)
  {
    var next := Apply(db, FailRepeatOffenders(scope, now));
    assert next.jobs == jobs && next.runners == db.runners && next.pipelines == db.pipelines;
  }

  class ControlPlane {
    var jobs: map<JobId, Job>
    var runners: map<RunnerId, Runner>
    var pipelines: map<PipelineId, Pipeline>
    ghost var run: Run

    function Tables(): Db
      reads this
    {
      Db(jobs, runners, pipelines)
    }

    ghost predicate Valid()
      reads this
    {
      IsRun(run) && run.Last() == Tables()
    }

    constructor ()
      ensures Valid() && run == START && Tables() == EMPTY
    {
      jobs, runners, pipelines := map[], map[], map[];
      run := START;
    }

    ghost method Record(s: Step)
      requires IsRun(run) && Tables() == Apply(run.Last(), s)
      modifies this`run
      ensures Valid() && run == Extend(old(run), s)
    {
      ExtendIsRun(run, s);
      run := Extend(run, s);
    }

    // The rest of the system

    method Take(s: Step)
      requires Valid()
      modifies this
      ensures Valid() && run == Extend(old(run), s)
    {
      var next := Apply(Tables(), s);
      jobs, runners, pipelines := next.jobs, next.runners, next.pipelines;
      Record(s);
    }

    /** What other tasks do while a handler awaits: any steps, in any order. */
    method OtherTasks(steps: seq<Step>)
      requires Valid()
      modifies this
      ensures Valid() && Continues(old(run), run) && run.steps == old(run).steps + steps
      ensures steps == [] ==> Tables() == old(Tables())
    {
      for k := 0 to |steps|
        invariant Valid() && Continues(old(run), run) && run.steps == old(run).steps + steps[..k]
        invariant k == 0 ==> Tables() == old(Tables())
      {
        ContinuesFurther(old(run), run, steps[k]);
        Take(steps[k]);
      }
    }

    // Rows appearing

    method InsertPipeline(pipeline: PipelineId, rows: map<JobId, NewJob>) returns (inserted: bool)
      requires Valid()
      modifies this
      ensures Valid() && run == Extend(old(run), CreatePipeline(pipeline, rows))
      ensures inserted <==> Creatable(old(Tables()), pipeline, rows)
    {
      inserted := pipeline !in pipelines && rows.Keys !! jobs.Keys && KeysUnique(rows);
      if inserted {
        jobs := jobs + map id | id in rows :: FreshJob(pipeline, rows[id]);
        pipelines := pipelines[pipeline := Pipeline(Queued, None)];
      }
      Record(CreatePipeline(pipeline, rows));
    }

    method InsertRunner(runner: RunnerId, workspace: nat)
      requires Valid()
      modifies this
      ensures Valid() && run == Extend(old(run), RegisterRunner(runner, workspace))
    {
      if runner !in runners {
        runners := runners[runner := Runner(workspace, Offline, None, None)];
      }
      Record(RegisterRunner(runner, workspace));
    }

    // pipeline_jobs

    /** Both updates happen in a working copy; only the commit makes them visible. */
    method ClaimForRunner(job: JobId, runner: RunnerId, now: Time) returns (claimed: Option<Job>)
      requires Valid()
      modifies this
      ensures Valid() && run == Extend(old(run), Claim(job, runner, now))
      ensures claimed.Some? <==> ClaimFires(old(Tables()), job, runner)
      ensures claimed.Some? ==> claimed.value == jobs[job] && HeldBy(claimed.value, runner)
      ensures claimed == None ==> Tables() == old(Tables())
    {
      claimed := None;
      if job in jobs && jobs[job].status == Queued && jobs[job].runner == None {
        var row := jobs[job].(status := InProgress, stage := Assigned, runner := Some(runner), assignedAt := Some(now));
        var workingJobs := jobs[job := row];
        if runner in runners && runners[runner].status == Idle && runners[runner].revoked == None {
          var workingRunners := runners[runner := runners[runner].(status := Busy)];
          jobs, runners := workingJobs, workingRunners;
          claimed := Some(row);
        }
      }
      Record(Claim(job, runner, now));
    }

    method UndoClaim(job: JobId) returns (row: Option<Job>)
      requires Valid()
      modifies this
      ensures Valid() && run == Extend(old(run), Unclaim(job))
      ensures row.Some? <==> job in old(jobs) && Unacked(old(jobs[job]))
      ensures row.Some? ==> row.value == jobs[job]
    {
      row := None;
      if job in jobs && jobs[job].status == InProgress && jobs[job].stage == Assigned {
        jobs := jobs[job := jobs[job].(status := Queued, stage := AtQueue, runner := None, assignedAt := None)];
        row := Some(jobs[job]);
      }
      Record(Unclaim(job));
    }

    method Acknowledge(job: JobId, runner: RunnerId, now: Time) returns (row: Option<Job>)
      requires Valid()
      modifies this
      ensures Valid() && run == Extend(old(run), Ack(job, runner, now))
      ensures row.Some? <==> job in old(jobs) && HeldBy(old(jobs[job]), runner) && old(jobs[job]).stage == Assigned
      ensures row.Some? ==> row.value == jobs[job]
    {
      row := None;
      if job in jobs && jobs[job].runner == Some(runner) && jobs[job].status == InProgress
        && jobs[job].stage == Assigned {
        jobs := jobs[job := jobs[job].(stage := Preparing, startedAt := Coalesce(jobs[job].startedAt, now))];
        row := Some(jobs[job]);
      }
      Record(Ack(job, runner, now));
    }

    /** The ids reverted, each with the runner the row named before. */
    method RevertStale(cutoff: Time, locked: set<JobId>) returns (reverted: map<JobId, Option<RunnerId>>)
      requires Valid()
      modifies this
      ensures Valid() && run == Extend(old(run), RevertUnacked(cutoff, locked))
      ensures reverted == map id | id in old(jobs) && StaleUnacked(id, old(jobs)[id], cutoff, locked) ::
        old(jobs)[id].runner
      ensures forall id :: id in reverted <==>
        && id in old(jobs) && id !in locked
        && old(jobs)[id].status == InProgress && old(jobs)[id].stage == Assigned
        && old(jobs)[id].assignedAt.Some? && old(jobs)[id].assignedAt.value < cutoff
      ensures forall id :: id in reverted ==>
        jobs[id] == old(jobs)[id].(status := Queued, stage := AtQueue, runner := None, assignedAt := None)
    {
      reverted := map id | id in jobs && StaleUnacked(id, jobs[id], cutoff, locked) :: jobs[id].runner;
      jobs := map id | id in jobs :: if id in reverted then BackToQueue(jobs[id]) else jobs[id];
      Record(RevertUnacked(cutoff, locked));
    }

    method UpdateStage(job: JobId, runner: RunnerId, stage: Stage) returns (row: Option<Job>)
      requires Valid()
      modifies this
      ensures Valid() && run == Extend(old(run), SetStage(job, runner, stage))
      ensures row.Some? <==> job in old(jobs) && HeldBy(old(jobs[job]), runner)
      ensures row.Some? ==> row.value == old(jobs[job]).(stage := stage)
      ensures jobs == if row.Some? then old(jobs)[job := row.value] else old(jobs)
      ensures runners == old(runners) && pipelines == old(pipelines)
    {
      row := None;
      if job in jobs && jobs[job].runner == Some(runner) && jobs[job].status == InProgress {
        jobs := jobs[job := jobs[job].(stage := stage)];
        row := Some(jobs[job]);
      }
      Record(SetStage(job, runner, stage));
    }

    method Finish(job: JobId, runner: RunnerId, conclusion: Conclusion, exitCode: Option<int>,
      category: Option<string>, now: Time)
      returns (row: Option<Job>)
      requires Valid()
      modifies this
      ensures Valid() && run == Extend(old(run), FinishFromRunner(job, runner, conclusion, exitCode, category, now))
      ensures row.Some? <==> job in old(jobs) && HeldBy(old(jobs[job]), runner)
      ensures row.Some? ==> row.value == jobs[job] && row.value.runner == Some(runner)
    {
      row := None;
      if job in jobs && jobs[job].runner == Some(runner) && jobs[job].status == InProgress {
        var j := jobs[job];
        jobs := jobs[job := j.(status := Completed, conclusion := Some(conclusion), stage := Done, exitCode := exitCode,
                               category := category, startedAt := Coalesce(j.startedAt, now), finishedAt := Some(now))];
        row := Some(jobs[job]);
      }
      Record(FinishFromRunner(job, runner, conclusion, exitCode, category, now));
    }

    method Force(job: JobId, conclusion: Conclusion, category: Option<string>, now: Time) returns (row: Option<Job>)
      requires Valid()
      modifies this
      ensures Valid() && run == Extend(old(run), ForceFinish(job, conclusion, category, now))
      ensures row.Some? <==> job in old(jobs) && old(jobs[job]).status != Completed
      ensures row.Some? ==> row.value == jobs[job] && row.value.runner == old(jobs[job]).runner
    {
      row := None;
      if job in jobs && jobs[job].status != Completed {
        var j := jobs[job];
        jobs := jobs[job := j.(status := Completed, conclusion := Some(conclusion), stage := Done, category := category,
                               startedAt := Coalesce(j.startedAt, now), finishedAt := Some(now))];
        row := Some(jobs[job]);
      }
      Record(ForceFinish(job, conclusion, category, now));
    }

    method Skip(ids: set<JobId>, now: Time) returns (skipped: set<JobId>)
      requires Valid()
      modifies this
      ensures Valid() && run == Extend(old(run), MarkSkipped(ids, now))
      ensures skipped == set id | id in ids && id in old(jobs) && old(jobs)[id].status == Queued
    {
      skipped := set id | id in ids && id in jobs && jobs[id].status == Queued;
      jobs := map id | id in jobs :: if id in skipped then Concluded(jobs[id], Skipped, now) else jobs[id];
      Record(MarkSkipped(ids, now));
    }

    method CancelOne(job: JobId, now: Time) returns (row: Option<Job>)
      requires Valid()
      modifies this
      ensures Valid() && run == Extend(old(run), CancelOneQueued(job, now))
      ensures row.Some? <==> job in old(jobs) && old(jobs[job]).status == Queued
    {
      row := None;
      if job in jobs && jobs[job].status == Queued {
        jobs := jobs[job := jobs[job].(status := Completed, conclusion := Some(Cancelled), stage := Done,
                                       finishedAt := Some(now))];
        row := Some(jobs[job]);
      }
      Record(CancelOneQueued(job, now));
    }

    method CancelAllQueued(pipeline: PipelineId, now: Time) returns (cancelled: set<JobId>)
      requires Valid()
      modifies this
      ensures Valid() && run == Extend(old(run), CancelQueued(pipeline, now))
      ensures cancelled == set id | id in old(jobs) && old(jobs)[id].pipeline == pipeline
        && old(jobs)[id].status == Queued
    {
      cancelled := set id | id in jobs && jobs[id].pipeline == pipeline && jobs[id].status == Queued;
      jobs := map id | id in jobs :: if id in cancelled then Concluded(jobs[id], Cancelled, now) else jobs[id];
      Record(CancelQueued(pipeline, now));
    }

    /** Orphan recovery, two statements with no transaction around them; `None` is the boot-time form. */
    method RequeueOrphans(scope: Option<RunnerId>, now: Time) returns (requeued: set<JobId>, failed: set<JobId>)
      requires Valid()
      modifies this
      ensures Valid() && run == Extend(Extend(old(run), RequeueFirstAttempts(scope)), FailRepeatOffenders(scope, now))
      ensures Tables() == OrphanRecovery.Recovered(old(Tables()), scope, now)
      ensures requeued == OrphanRecovery.FirstAttempts(old(Tables()), scope)
      ensures failed == OrphanRecovery.Lost(old(Tables()), scope) - requeued
    {
      ghost var before := Tables();
      requeued := RequeueFirst(scope);
      failed := FailOrphans(scope, now);
      OrphanRecovery.SecondAttemptsRemain(before, scope);
    }

    method RequeueFirst(scope: Option<RunnerId>) returns (requeued: set<JobId>)
      requires Valid()
      modifies this
      ensures Valid() && run == Extend(old(run), RequeueFirstAttempts(scope))
      ensures requeued == OrphanRecovery.FirstAttempts(old(Tables()), scope)
    {
      requeued := set id | id in jobs && InScope(jobs[id], scope) && jobs[id].attempt < 2;
      jobs := map id | id in jobs ::
        if id in requeued then BackToQueue(jobs[id]).(startedAt := None, attempt := jobs[id].attempt + 1) else jobs[id];
      RequeueApplied(run.Last(), scope, jobs);
      Record(RequeueFirstAttempts(scope));
    }

    method FailOrphans(scope: Option<RunnerId>, now: Time) returns (failed: set<JobId>)
      requires Valid()
      modifies this
      ensures Valid() && run == Extend(old(run), FailRepeatOffenders(scope, now))
      ensures failed == OrphanRecovery.Lost(old(Tables()), scope)
    {
      failed := set id | id in jobs && InScope(jobs[id], scope);
      jobs := map id | id in jobs ::
        if id in failed
        then Concluded(jobs[id], Failure, now).(category := Some("runner_lost"),
                                                startedAt := Coalesce(jobs[id].startedAt, now))
        else jobs[id];
      FailApplied(run.Last(), scope, now, jobs);
      Record(FailRepeatOffenders(scope, now));
    }

    // runners

    method Connect(runner: RunnerId)
      requires Valid()
      modifies this
      ensures Valid() && run == Extend(old(run), MarkConnected(runner))
    {
      if runner in runners && runners[runner].revoked == None {
        runners := runners[runner := runners[runner].(status := Idle)];
      }
      Record(MarkConnected(runner));
    }

    method TakeOffline(runner: RunnerId)
      requires Valid()
      modifies this
      ensures Valid() && run == Extend(old(run), MarkOffline(runner))
    {
      if runner in runners {
        runners := runners[runner := runners[runner].(status := Offline)];
      }
      Record(MarkOffline(runner));
    }

    method TakeAllOffline()
      requires Valid()
      modifies this
      ensures Valid() && run == Extend(old(run), MarkAllOffline)
    {
      runners := map id | id in runners ::
        if runners[id].status != Offline then runners[id].(status := Offline) else runners[id];
      Record(MarkAllOffline);
    }

    method Free(runner: RunnerId)
      requires Valid()
      modifies this
      ensures Valid() && run == Extend(old(run), Release(runner))
    {
      if runner in runners && runners[runner].status == Busy {
        var r := runners[runner];
        runners := runners[runner := r.(status := if r.draining.Some? then Offline else Idle, draining := None)];
      }
      Record(Release(runner));
    }

    method StartDrain(workspace: nat, runner: RunnerId, now: Time) returns (drained: bool)
      requires Valid()
      modifies this
      ensures Valid() && run == Extend(old(run), DrainStart(workspace, runner, now))
      ensures drained <==> Tables() != old(Tables())
    {
      drained := runner in runners && runners[runner].workspace == workspace && runners[runner].revoked == None
        && runners[runner].draining == None && (runners[runner].status == Idle || runners[runner].status == Busy);
      if drained {
        var r := runners[runner];
        runners := runners[runner := r.(draining := Some(now),
                                        status := if r.status == Idle then Offline else r.status)];
        assert runners[runner] != old(runners)[runner];
      }
      Record(DrainStart(workspace, runner, now));
    }

    method DisableRunner(workspace: nat, runner: RunnerId) returns (disabled: bool)
      requires Valid()
      modifies this
      ensures Valid() && run == Extend(old(run), Disable(workspace, runner))
      ensures disabled <==> Tables() != old(Tables())
    {
      disabled := runner in runners && runners[runner].workspace == workspace && runners[runner].revoked == None
        && runners[runner].status != Disabled;
      if disabled {
        runners := runners[runner := runners[runner].(status := Disabled)];
        assert runners[runner] != old(runners)[runner];
      }
      Record(Disable(workspace, runner));
    }

    method ResumeRunner(workspace: nat, runner: RunnerId, connected: bool) returns (resumed: bool)
      requires Valid()
      modifies this
      ensures Valid() && run == Extend(old(run), Resume(workspace, runner, connected))
      ensures resumed <==> Tables() != old(Tables())
    {
      resumed := runner in runners && runners[runner].workspace == workspace && runners[runner].revoked == None
        && runners[runner].status == Disabled;
      if resumed {
        runners := runners[runner := runners[runner].(status := if connected then Idle else Offline)];
        assert runners[runner] != old(runners)[runner];
      }
      Record(Resume(workspace, runner, connected));
    }

    method RevokeRow(workspace: nat, runner: RunnerId, now: Time) returns (revoked: bool)
      requires Valid()
      modifies this
      ensures Valid() && run == Extend(old(run), Revoke(workspace, runner, now))
      ensures revoked <==> Tables() != old(Tables())
      ensures revoked <==>
        runner in old(runners) && old(runners)[runner].workspace == workspace && old(runners)[runner].revoked == None
    {
      revoked := runner in runners && runners[runner].workspace == workspace && runners[runner].revoked == None;
      if revoked {
        runners := runners[runner := runners[runner].(revoked := Some(now), status := Offline)];
        assert runners[runner] != old(runners)[runner];
      }
      Record(Revoke(workspace, runner, now));
    }

    // pipelines

    method StartPipeline(pipeline: PipelineId) returns (started: bool)
      requires Valid()
      modifies this
      ensures Valid() && run == Extend(old(run), MarkPipelineStarted(pipeline))
      ensures started <==> pipeline in old(pipelines) && old(pipelines)[pipeline].status == Queued
    {
      started := pipeline in pipelines && pipelines[pipeline].status == Queued;
      if started {
        pipelines := pipelines[pipeline := pipelines[pipeline].(status := InProgress)];
      }
      Record(MarkPipelineStarted(pipeline));
    }

    method FinalizePipeline(pipeline: PipelineId, verdict: Verdict) returns (finalized: bool)
      requires Valid()
      modifies this
      ensures Valid() && run == Extend(old(run), Finalize(pipeline, verdict))
      ensures finalized <==> pipeline in old(pipelines) && old(pipelines)[pipeline].status != Completed
      ensures finalized ==> pipeline in pipelines && pipelines[pipeline] == Pipeline(Completed, Some(verdict))
      ensures !finalized ==> Tables() == old(Tables())
      ensures jobs == old(jobs) && runners == old(runners) && pipelines.Keys == old(pipelines).Keys
    {
      finalized := pipeline in pipelines && pipelines[pipeline].status != Completed;
      if finalized {
        pipelines := pipelines[pipeline := Pipeline(Completed, Some(verdict))];
      }
      FinalizeApplied(run.Last(), pipeline, verdict);
      Record(Finalize(pipeline, verdict));
    }

    // Handlers. Each statement is one step; `others` are the steps that fall between two of them.

    /** A stage report: the stage the name stands for is stored if the runner holds the job. Names outside the
        vocabulary, and the first and last stages, are dropped before they reach the table. */
    method OnJobStage(runner: RunnerId, job: JobId, name: string)
      requires Valid()
      modifies this
      ensures Valid() && runners == old(runners) && pipelines == old(pipelines)
      ensures forall stage :: name == WireName(stage) && stage != AtQueue && stage != Done ==>
        && run == Extend(old(run), SetStage(job, runner, stage))
        && jobs == if HeldAt(old(Tables()), job, runner)
                   then old(jobs)[job := old(jobs)[job].(stage := stage)] else old(jobs)
      ensures (forall stage :: name == WireName(stage) ==> stage == AtQueue || stage == Done) ==> run == old(run)
      ensures LifecycleOk(old(Tables())) ==> LifecycleOk(Tables())
    {
      var stage := StageNamed(name);
      forall s ensures stage == Some(s) <==> name == WireName(s) {
        NameMeansStage(name, s);
      }
      if stage == None || stage == Some(AtQueue) || stage == Some(Done) {
        return;
      }
      var _ := UpdateStage(job, runner, stage.value);
      if LifecycleOk(old(Tables())) {
        SetStageKeepsLifecycleIff(old(Tables()), job, runner, stage.value);
      }
    }

    /** A terminal report: nothing happens, or the row concludes for good and its runner is released, at
        whatever distance. */
    method OnJobResult(runner: RunnerId, job: JobId, conclusion: Conclusion, exitCode: Option<int>,
      category: Option<string>, now: Time, others: seq<Step>)
      requires Valid()
      modifies this
      ensures Valid()
      ensures !HeldAt(old(Tables()), job, runner) ==>
        Tables() == old(Tables())
        && run == Extend(old(run), FinishFromRunner(job, runner, conclusion, exitCode, category, now))
      ensures HeldAt(old(Tables()), job, runner) ==>
        EndedAndReleased(old(run), run, FinishFromRunner(job, runner, conclusion, exitCode, category, now),
                         job, conclusion, runner, others)
    {
      ghost var before, s := run, FinishFromRunner(job, runner, conclusion, exitCode, category, now);
      var row := Finish(job, runner, conclusion, exitCode, category, now);
      if row.Some? && row.value.runner.Some? {
        OtherTasks(others);
        Free(row.value.runner.value);
        EndsAndReleases(before, run, s, job, conclusion, runner, others);
      } else {
        FinishMisses(before.Last(), job, runner, s);
      }
    }

    /** A job out of budget, or cancelled with its runner unreachable. */
    method ForceFinishAndRelease(job: JobId, conclusion: Conclusion, category: Option<string>, now: Time,
      others: seq<Step>)
      requires Valid() && conclusion != Success
      modifies this
      ensures Valid()
      ensures forall r :: HeldAt(old(Tables()), job, r) ==>
        EndedAndReleased(old(run), run, ForceFinish(job, conclusion, category, now), job, conclusion, r, others)
      ensures LifecycleOk(old(Tables())) && (forall r :: !HeldAt(old(Tables()), job, r)) ==>
        run == Extend(old(run), ForceFinish(job, conclusion, category, now))
    {
      ghost var before, s := run, ForceFinish(job, conclusion, category, now);
      var row := Force(job, conclusion, category, now);
      assert LifecycleOk(before.Last()) && job in before.Last().jobs ==> RowOk(before.Last().jobs[job]);
      if row.Some? && row.value.runner.Some? {
        var r := row.value.runner.value;
        OtherTasks(others);
        Free(r);
        if HeldAt(before.Last(), job, r) {
          EndsAndReleases(before, run, s, job, conclusion, r, others);
        }
      }
    }

    /** A claimed job that can not be dispatched for good: its runner is released first, then the job is ended … */
    method ReleaseAndEnd(job: JobId, runner: RunnerId, category: string, now: Time, first: seq<Step>)
      returns (row: Option<Job>)
      requires Valid()
      modifies this
      ensures Valid() && Continues(old(run), run)
      ensures run.steps == old(run).steps + [Release(runner)] + first + [ForceFinish(job, Failure, Some(category), now)]
      ensures Forced(run, job, row)
    {
      ghost var before := run;
      ContinuesFurther(before, before, Release(runner));
      Free(runner);
      OtherTasks(first);
      ghost var window := run;
      ContinuesFurther(before, run, ForceFinish(job, Failure, Some(category), now));
      row := Force(job, Failure, Some(category), now);
      RowAfter(window.Last(), ForceFinish(job, Failure, Some(category), now), job);
    }

    /** … then whoever still held it is released. */
    method FailDispatch(job: JobId, runner: RunnerId, category: string, now: Time, first: seq<Step>, second: seq<Step>)
      requires Valid()
      modifies this
      ensures Valid()
      ensures DispatchFailed(old(run), run, ForceFinish(job, Failure, Some(category), now), job, runner, first, second)
    {
      ghost var before := run;
      var row := ReleaseAndEnd(job, runner, category, now, first);
      ghost var ended := run;
      if row.Some? && row.value.runner.Some? {
        OtherTasks(second);
        ContinuesFurther(ended, run, Release(row.value.runner.value));
        Free(row.value.runner.value);
      }
      EndsDispatch(before, ended, run, ForceFinish(job, Failure, Some(category), now), job, runner, row, first, second);
    }

    method DecideSkips(pipeline: PipelineId) returns (ids: set<JobId>)
      requires Valid()
      ensures Decides(Tables(), pipeline, ids)
    {
      var rows := PipelineProgress.Listing(Tables(), pipeline);
      PipelineProgress.ListingLists(Tables(), pipeline);
      LinksInvariant(run, |run.steps|);
      PipelineProgress.ListedKeysDiffer(Tables(), pipeline, rows);
      var toSkip := PipelineProgress.FindDependentsToSkip(rows);
      ids := set id | id in toSkip;
    }

    /** What has to be skipped is decided on a listing; whatever other tasks do until then, the update skips what
        of it is still queued. */
    method SkipDependents(pipeline: PipelineId, now: Time, others: seq<Step>) returns (ids: set<JobId>)
      requires Valid()
      modifies this
      ensures Valid() && Continues(old(run), run) && Decides(old(Tables()), pipeline, ids)
      ensures run.steps == old(run).steps + others + if ids == {} then [] else [MarkSkipped(ids, now)]
    {
      ghost var before := run;
      ids := DecideSkips(pipeline);
      OtherTasks(others);
      if ids != {} {
        ContinuesFurther(before, run, MarkSkipped(ids, now));
        var _ := Skip(ids, now);
      }
    }

    /** What follows every ending, whoever else is at work: after an unsuccessful one its dependents are skipped,
        and then the pipeline is finalized if its jobs are all over. Each ending so far has then been attended to. */
    method SettlePipeline(pipeline: PipelineId, success: bool, now: Time, others: nat -> seq<Step>)
      requires Valid()
      modifies this
      ensures Valid() && Continues(old(run), run)
      ensures !success ==> forall k, d :: 0 <= k < |old(run).steps| ==> Attended(run, |run.steps|, k, pipeline, d)
      ensures forall k :: 0 <= k < |old(run).steps| ==> FinalizeTried(run, |run.steps|, k, pipeline)
    {
      ghost var before := run;
      ghost var ids := {};
      if !success {
        ids := SkipDependents(pipeline, now, others(0));
      }
      ghost var skipped := run;
      OtherTasks(others(1));
      ghost var listed := run;
      var _, rows := MaybeFinalize(pipeline, others(2));
      if !success {
        SweepDone(before, skipped, run, pipeline, ids, now, others(0));
      }
      TryDone(before, listed, run, pipeline, rows, others(2));
    }

    /** The convergence point of every ending: a pipeline is finalized once, when the listing shows all its
        jobs over, and however many steps fall between listing and update, with the verdict of its jobs as
        they stand. */
    method MaybeFinalize(pipeline: PipelineId, others: seq<Step>)
      returns (finalized: bool, rows: seq<PipelineProgress.JobRow>)
      requires Valid()
      modifies this
      ensures Valid() && Continues(old(run), run)
      ensures PipelineProgress.ListsPipeline(old(Tables()), pipeline, rows)
      ensures others == [] ==> jobs == old(jobs) && runners == old(runners) && pipelines.Keys == old(pipelines).Keys
      ensures !Settled(rows) ==> !finalized && run.steps == old(run).steps + others
      ensures Settled(rows) ==> exists v ::
        Says(v, Conclusions(rows)) && run.steps == old(run).steps + others + [Finalize(pipeline, v)]
        && (finalized ==> pipeline in pipelines && pipelines[pipeline] == Pipeline(Completed, Some(v)))
      ensures finalized && pipeline in old(pipelines) ==> PipelineProgress.ListsPipeline(Tables(), pipeline, rows)
      ensures !finalized && Settled(rows) && pipeline in pipelines ==> pipelines[pipeline].status == Completed
    {
      ghost var before := run;
      rows := PipelineProgress.Listing(Tables(), pipeline);
      PipelineProgress.ListingLists(Tables(), pipeline);
      ListingVerdict(run, pipeline, rows);
      OtherTasks(others);
      var verdict := PipelineProgress.ComputeVerdict(rows);
      if verdict == None {
        return false, rows;
      }
      assert Says(verdict.value, Conclusions(rows));
      ghost var read := run;
      finalized := FinalizePipeline(pipeline, verdict.value);
      ContinuesFurther(before, read, Finalize(pipeline, verdict.value));
      if pipeline in before.Last().pipelines {
        VerdictStillRight(before, run, pipeline, rows, verdict.value);
      }
    }

    /** First attempts go back to the queue … */
    method RequeueAmong(runner: RunnerId, others: seq<Step>)
      requires Valid()
      modifies this
      ensures Valid() && Continues(old(run), run)
      ensures run.steps == old(run).steps + others + [RequeueFirstAttempts(Some(runner))]
    {
      ghost var before := run;
      OtherTasks(others);
      ContinuesFurther(before, run, RequeueFirstAttempts(Some(runner)));
      var _ := RequeueFirst(Some(runner));
    }

    /** … and what the runner then holds fails. */
    method FailAmong(runner: RunnerId, now: Time, others: seq<Step>) returns (failed: set<JobId>)
      requires Valid()
      modifies this
      ensures Valid() && Continues(old(run), run) && !HasInFlight(Tables(), runner)
      ensures run.steps == old(run).steps + others + [FailRepeatOffenders(Some(runner), now)]
      ensures failed == OrphanRecovery.Lost(run.states[|run.steps| - 1], Some(runner))
    {
      ghost var before := run;
      OtherTasks(others);
      ContinuesFurther(before, run, FailRepeatOffenders(Some(runner), now));
      RecoveryFreesRunner(run.Last(), runner, now);
      failed := FailOrphans(Some(runner), now);
    }

    /** The release that follows each failed job. */
    method ReleaseForEach(failed: set<JobId>, runner: RunnerId, others: nat -> seq<Step>)
      requires Valid()
      modifies this
      ensures Valid() && Continues(old(run), run)
      ensures run.steps == old(run).steps + Releases(|failed|, runner, others)
    {
      ghost var before := run;
      var left, n := failed, 2;
      while left != {}
        invariant Valid() && Continues(before, run) && n + |left| == 2 + |failed|
        invariant run.steps == before.steps + Releases(n - 2, runner, others)
        decreases |left|
      {
        var id :| id in left;
        left := left - {id};
        FreeAmong(before, runner, others(n));
        n := n + 1;
      }
    }

    method FreeAmong(ghost before: Run, runner: RunnerId, others: seq<Step>)
      requires Valid() && Continues(before, run)
      modifies this
      ensures Valid() && Continues(before, run) && run.steps == old(run).steps + others + [Release(runner)]
    {
      OtherTasks(others);
      ContinuesFurther(before, run, Release(runner));
      Free(runner);
    }

    /** Orphan recovery of a runner that is down. */
    method RecoverAndRelease(runner: RunnerId, now: Time, others: nat -> seq<Step>)
      requires Valid()
      modifies this
      ensures Valid() && Continues(old(run), run)
      ensures RecoveryFollows(old(run).steps, run, runner, now, others)
      ensures Recovered(run, |old(run).steps|, runner)
    {
      ghost var before := run;
      RequeueAmong(runner, others(0));
      var failed := FailAmong(runner, now, others(1));
      ghost var recovered := run;
      ReleaseForEach(failed, runner, others);
      RecoversWhileDown(before, recovered, run, runner);
      assert run.states[|recovered.steps| - 1] == recovered.states[|recovered.steps| - 1];
    }

    /** A closed socket with no newer connection: offline, then recovery. */
    method Disconnect(runner: RunnerId, now: Time, others: nat -> seq<Step>)
      requires Valid()
      modifies this
      ensures Valid() && Continues(old(run), run)
      ensures RecoveryFollows(old(run).steps + [MarkOffline(runner)], run, runner, now, others)
      ensures
        (Exclusive(old(Tables())) && runner in old(runners)
         && QuietWhileDown(run, |old(run).steps| + 1, |run.steps|, runner)) ==>
          FreeAndDown(Tables(), runner)
    {
      ghost var before := run;
      ContinuesFurther(before, before, MarkOffline(runner));
      TakeOffline(runner);
      RecoverAndRelease(runner, now, others);
      GoesDown(before, run, MarkOffline(runner), runner);
    }

    method RevokeRunner(workspace: nat, runner: RunnerId, now: Time, others: nat -> seq<Step>) returns (revoked: bool)
      requires Valid()
      modifies this
      ensures Valid() && Continues(old(run), run)
      ensures revoked <==>
        runner in old(runners) && old(runners)[runner].workspace == workspace && old(runners)[runner].revoked == None
      ensures revoked ==>
        RecoveryFollows(old(run).steps + [Revoke(workspace, runner, now)], run, runner, now, others)
      ensures revoked && Exclusive(old(Tables())) && QuietWhileDown(run, |old(run).steps| + 1, |run.steps|, runner) ==>
        FreeAndDown(Tables(), runner)
      ensures !revoked ==> Tables() == old(Tables())
    {
      ghost var before := run;
      ContinuesFurther(before, before, Revoke(workspace, runner, now));
      revoked := RevokeRow(workspace, runner, now);
      if revoked {
        RecoverAndRelease(runner, now, others);
        GoesDown(before, run, Revoke(workspace, runner, now), runner);
      }
    }

    /** The two statements at boot: everything offline, nothing in progress. */
    method RecoverAtBoot(now: Time) returns (requeued: set<JobId>, failed: set<JobId>)
      requires Valid()
      modifies this
      ensures Valid() && jobs == OrphanRecovery.Recovered(old(Tables()), None, now).jobs
      ensures forall r :: r in runners ==> runners[r].status == Offline
      ensures requeued == OrphanRecovery.FirstAttempts(old(Tables()), None)
      ensures failed == OrphanRecovery.Lost(old(Tables()), None) - requeued
    {
      ghost var start := Tables();
      TakeAllOffline();
      ghost var before := Tables();
      OfflineKeepsJobs(start);
      requeued, failed := RequeueOrphans(None, now);
      OrphanRecovery.RecoveryKeepsRunners(before, None, now);
      SameRecovery(start, before, now);
    }

    /** Boot: nothing is connected and no other task runs yet, so everything is offline, nothing is in
        progress, and each pipeline of a failed job is finalized if all its jobs are over. */
    method Boot(now: Time) returns (requeued: set<JobId>, failed: set<JobId>)
      requires Valid()
      modifies this
      ensures Valid() && Exclusive(Tables())
      ensures jobs == OrphanRecovery.Recovered(old(Tables()), None, now).jobs
      ensures forall id :: id in jobs ==> jobs[id].status != InProgress
      ensures forall r :: r in runners ==> runners[r].status == Offline
      ensures failed == OrphanRecovery.Lost(old(Tables()), None) - OrphanRecovery.FirstAttempts(old(Tables()), None)
      ensures forall id :: id in failed ==> id in jobs && OverMeansFinal(Tables(), jobs[id].pipeline)
    {
      ghost var start := Tables();
      requeued, failed := RecoverAtBoot(now);
      OrphanRecovery.RecoveryKeepsRunners(start, None, now);
      BootLeavesNothingRunning(start, now);
      FinalizeEach(failed);
    }

    method FinalizeEach(failed: set<JobId>)
      requires Valid() && failed <= jobs.Keys
      modifies this
      ensures Valid() && jobs == old(jobs) && runners == old(runners)
      ensures forall id :: id in failed ==> OverMeansFinal(Tables(), jobs[id].pipeline)
    {
      ghost var start := Tables();
      var left := failed;
      while left != {}
        invariant Valid() && left <= failed && jobs == start.jobs && runners == start.runners
        invariant forall id :: id in failed - left ==> OverMeansFinal(Tables(), jobs[id].pipeline)
        decreases |left|
      {
        var id :| id in left;
        left := left - {id};
        ghost var before := run;
        var finalized, rows := MaybeFinalize(jobs[id].pipeline, []);
        StartOrder.ConclusionsInvariant(before, |before.steps|);
        ListedOver(before.Last(), Tables(), id, rows);
        RunPreserves(run, |before.steps|, |run.steps|);
        forall d | d in failed - left ensures OverMeansFinal(Tables(), jobs[d].pipeline) {
          if d != id {
            FinalStaysFinal(before.Last(), Tables(), jobs[d].pipeline);
          }
        }
      }
    }
  }

  /** An ending, the steps of other tasks, and the release. The job stays concluded; if the steps in between
      are quiet for the runner, exclusive tables stay exclusive and the runner is free. */
  ghost predicate EndedAndReleased(before: Run, run: Run, s: Step, job: JobId, conclusion: Conclusion, r: RunnerId,
    others: seq<Step>) {
    && Continues(before, run) && run.steps == before.steps + [s] + others + [Release(r)]
    && job in run.Last().jobs
    && run.Last().jobs[job].status == Completed && run.Last().jobs[job].conclusion == Some(conclusion)
    && (Exclusive(before.Last()) && Quiet(run, |before.steps| + 1, |run.steps| - 1, r) ==>
          Exclusive(run.Last()) && !HasInFlight(run.Last(), r))
  }

  lemma EndsAndReleases(before: Run, run: Run, s: Step, job: JobId, conclusion: Conclusion, r: RunnerId,
    others: seq<Step>)
    requires IsRun(run) && Continues(before, run) && run.steps == before.steps + [s] + others + [Release(r)]
    requires (s.FinishFromRunner? && s.runner == r) || s.ForceFinish?
    requires s.job == job && s.conclusion == conclusion && HeldAt(before.Last(), job, r)
    ensures EndedAndReleased(before, run, s, job, conclusion, r, others)
  {
    var n, k := |before.steps|, |run.steps| - 1;
    assert run.states[n] == before.Last() && run.steps[n] == s && run.steps[k] == Release(r);
    ConcludedForGood(run, n, job, r);
    if Exclusive(before.Last()) && Quiet(run, n + 1, k, r) {
      EndingThenRelease(run, n, k, job, r);
    }
  }

  lemma ConcludedForGood(run: Run, n: nat, job: JobId, r: RunnerId)
    requires IsRun(run) && n < |run.steps|
    requires (run.steps[n].FinishFromRunner? && run.steps[n].runner == r) || run.steps[n].ForceFinish?
    requires run.steps[n].job == job && HeldAt(run.states[n], job, r)
    ensures job in run.Last().jobs && !HeldAt(run.states[n + 1], job, r)
    ensures run.Last().jobs[job].status == Completed
    ensures run.Last().jobs[job].conclusion == Some(run.steps[n].conclusion)
  {
    assert StepTaken(run, n);
    StepConcludes(run.states[n], run.steps[n], job, r);
    RunPreserves(run, n + 1, |run.steps|);
  }

  lemma StepConcludes(db: Db, s: Step, job: JobId, r: RunnerId)
    requires (s.FinishFromRunner? && s.runner == r) || s.ForceFinish?
    requires s.job == job && HeldAt(db, job, r)
    ensures job in Apply(db, s).jobs && Apply(db, s).jobs[job].status == Completed
    ensures Apply(db, s).jobs[job].conclusion == Some(s.conclusion)
    ensures !HeldAt(Apply(db, s), job, r)
  {
    RowAfter(db, s, job);
  }

  /** A failed dispatch as a run: release, steps, forced ending, and for a job that still had a runner steps and
      a second release. The job is over; with the window and the second stretch quiet, exclusive tables end
      exclusive. */
  ghost predicate DispatchFailed(before: Run, run: Run, s: Step, job: JobId, r: RunnerId, first: seq<Step>,
    second: seq<Step>) {
    && Continues(before, run)
    && (run.steps == before.steps + [Release(r)] + first + [s]
        || exists o :: run.steps == before.steps + [Release(r)] + first + [s] + second + [Release(o)])
    && (job in before.Last().jobs ==> job in run.Last().jobs && run.Last().jobs[job].status == Completed)
    && (Exclusive(before.Last()) && (HeldAt(before.Last(), job, r) || SafeStep(before.Last(), Release(r)))
        && LifecycleOk(run.states[|before.steps| + 1 + |first|])
        && QuietWindow(run, |before.steps| + 1, |before.steps| + 1 + |first|, r)
        && QuietToTheEnd(run, |before.steps| + 2 + |first|)
        ==> Exclusive(run.Last()))
  }

  /** From step k on, up to a release that ends the run: safe steps, and no claim on the runner released. */
  ghost predicate QuietToTheEnd(run: Run, k: nat)
    requires |run.states| == |run.steps| + 1
  {
    k < |run.steps| && run.steps[|run.steps| - 1].Release? ==>
      QuietWindow(run, k, |run.steps| - 1, run.steps[|run.steps| - 1].runner)
  }

  /** The last step of the run forced the job to an end, unless it had one: what it returned. */
  ghost predicate Forced(run: Run, job: JobId, row: Option<Job>) {
    && |run.states| == |run.steps| + 1 && run.steps != []
    && (job in run.states[|run.steps| - 1].jobs ==> job in run.Last().jobs && run.Last().jobs[job].status == Completed)
    && (row.Some? ==>
        && job in run.states[|run.steps| - 1].jobs
        && run.states[|run.steps| - 1].jobs[job].status != Completed
        && run.states[|run.steps| - 1].jobs[job].runner == row.value.runner)
  }

  lemma EndsDispatch(before: Run, ended: Run, run: Run, s: Step, job: JobId, r: RunnerId, row: Option<Job>,
    first: seq<Step>, second: seq<Step>)
    requires IsRun(run) && Continues(before, ended) && Continues(ended, run) && s.ForceFinish? && s.job == job
    requires ended.steps == before.steps + [Release(r)] + first + [s] && Forced(ended, job, row)
    requires if row.Some? && row.value.runner.Some?
      then run.steps == ended.steps + second + [Release(row.value.runner.value)]
             else run == ended
    ensures DispatchFailed(before, run, s, job, r, first, second)
  {
    var n, f := |before.steps|, |before.steps| + 1 + |first|;
    assert run.states[n] == before.Last() && run.states[f + 1] == ended.Last() && run.states[f] == ended.states[f];
    if job in before.Last().jobs {
      JobStays(run, n, f, job);
      JobStays(run, f + 1, |run.steps|, job);
    }
    if Exclusive(before.Last()) && (HeldAt(before.Last(), job, r) || SafeStep(before.Last(), Release(r)))
      && LifecycleOk(run.states[f]) && QuietWindow(run, n + 1, f, r) && QuietToTheEnd(run, f + 1)
    {
      DispatchEnds(run, n, f, job, r, if row.Some? then row.value.runner else None);
    }
  }

  lemma DispatchEnds(run: Run, n: nat, f: nat, job: JobId, r: RunnerId, holder: Option<RunnerId>)
    requires IsRun(run) && n < f < |run.steps|
    requires run.steps[n] == Release(r) && run.steps[f].ForceFinish? && run.steps[f].job == job
    requires Exclusive(run.states[n]) && (HeldAt(run.states[n], job, r) || SafeStep(run.states[n], Release(r)))
    requires LifecycleOk(run.states[f]) && QuietWindow(run, n + 1, f, r) && QuietToTheEnd(run, f + 1)
    requires if holder == None then |run.steps| == f + 1
      else f + 1 < |run.steps| && run.steps[|run.steps| - 1] == Release(holder.value)
           && job in run.states[f].jobs && run.states[f].jobs[job].status != Completed
           && run.states[f].jobs[job].runner == holder
    ensures Exclusive(run.Last())
  {
    DispatchFailure(run, n, f, job, r);
    if holder.Some? {
      OpenAndNamedIsHeld(run.states[f], job, holder.value);
      LastRelease(run, f + 1, holder.value);
    }
  }

  lemma OpenAndNamedIsHeld(db: Db, job: JobId, r: RunnerId)
    requires LifecycleOk(db) && job in db.jobs && db.jobs[job].status != Completed && db.jobs[job].runner == Some(r)
    ensures HeldAt(db, job, r)
  {
    assert RowOk(db.jobs[job]);
  }

  lemma LastRelease(run: Run, i: nat, r: RunnerId)
    requires IsRun(run) && i < |run.steps| && run.steps[|run.steps| - 1] == Release(r)
    requires QuietWindow(run, i, |run.steps| - 1, r) && Exclusive(run.states[i]) && !HasInFlight(run.states[i], r)
    ensures Exclusive(run.Last())
  {
    assert StepTaken(run, |run.steps| - 1);
    ReleaseAfterStretch(run, i, |run.steps| - 1, r);
  }

  /** So many releases, each after what other tasks do in the meantime. */
  function Releases(n: nat, runner: RunnerId, others: nat -> seq<Step>): seq<Step> {
    if n == 0 then [] else Releases(n - 1, runner, others) + others(n + 1) + [Release(runner)]
  }

  /** The steps of a recovery: requeue, fail, and a release for each job that the second statement found. */
  ghost predicate RecoveryFollows(steps: seq<Step>, run: Run, runner: RunnerId, now: Time, others: nat -> seq<Step>) {
    var k := |steps| + |others(0)| + 1 + |others(1)|;
    && k < |run.states|
    && run.steps == steps + others(0) + [RequeueFirstAttempts(Some(runner))]
                    + others(1) + [FailRepeatOffenders(Some(runner), now)]
                    + Releases(|OrphanRecovery.Lost(run.states[k], Some(runner))|, runner, others)
  }

  /** Exclusive tables in which the runner is down and holds nothing, so that it may reconnect. */
  ghost predicate FreeAndDown(db: Db, r: RunnerId) {
    Exclusive(db) && Down(db, r) && !HasInFlight(db, r) && SafeStep(db, MarkConnected(r))
  }

  /** From a state in which the runner is down, if nothing reconnects or resumes it. */
  ghost predicate Recovered(run: Run, from: nat, r: RunnerId)
    requires |run.states| == |run.steps| + 1
  {
    from <= |run.steps| &&
    (Exclusive(run.states[from]) && Down(run.states[from], r) && QuietWhileDown(run, from, |run.steps|, r) ==>
       FreeAndDown(run.Last(), r))
  }

  lemma RecoversWhileDown(before: Run, recovered: Run, run: Run, r: RunnerId)
    requires IsRun(run) && Continues(before, recovered) && Continues(recovered, run)
    requires !HasInFlight(recovered.Last(), r)
    ensures Recovered(run, |before.steps|, r)
  {
    var from, mid := |before.steps|, |recovered.steps|;
    assert run.states[mid] == recovered.Last();
    if Exclusive(run.states[from]) && Down(run.states[from], r) && QuietWhileDown(run, from, |run.steps|, r) {
      DownStretch(run, from, mid, r);
      DownStretch(run, mid, |run.steps|, r);
    }
  }

  lemma GoesDown(before: Run, run: Run, s: Step, r: RunnerId)
    requires IsRun(run) && Continues(before, run) && |before.steps| < |run.steps| && run.steps[|before.steps|] == s
    requires (s.MarkOffline? && s.runner == r)
      || (s.Revoke? && s.runner == r && Apply(before.Last(), s) != before.Last())
    requires Recovered(run, |before.steps| + 1, r)
    ensures
      (Exclusive(before.Last()) && r in before.Last().runners
       && QuietWhileDown(run, |before.steps| + 1, |run.steps|, r)) ==>
        FreeAndDown(run.Last(), r)
    ensures s.Revoke? ==> r in before.Last().runners
  {
    var n := |before.steps|;
    assert run.states[n] == before.Last() && StepTaken(run, n);
    TakenDown(before.Last(), s, r);
    if Exclusive(before.Last()) {
      SafeStepKeepsExclusive(before.Last(), s);
    }
  }

  lemma TakenDown(db: Db, s: Step, r: RunnerId)
    requires (s.MarkOffline? && s.runner == r) || (s.Revoke? && s.runner == r && Apply(db, s) != db)
    ensures r in db.runners ==> Down(Apply(db, s), r)
    ensures s.Revoke? ==> r in db.runners
  {
    if r in db.runners {
      RunnerAfter(db, s, r);
    }
    if s.Revoke? && r !in db.runners {
      RevokeMisses(db, s);
    }
    if s.Revoke? && r in db.runners && !Down(Apply(db, s), r) {
      RevokeMisses(db, s);
    }
  }

  lemma RevokeMisses(db: Db, s: Step)
    requires s.Revoke?
    requires !(s.runner in db.runners && db.runners[s.runner].workspace == s.workspace
      && db.runners[s.runner].revoked == None)
    ensures Apply(db, s) == db
  {
    var next := Apply(db, s);
    assert next.jobs == db.jobs && next.runners == db.runners && next.pipelines == db.pipelines;
  }

  /** A pipeline whose jobs are all over is completed. */
  ghost predicate OverMeansFinal(db: Db, p: PipelineId) {
    (forall id :: PipelineProgress.InPipeline(db, p, id) ==> db.jobs[id].status == Completed) && p in db.pipelines ==>
      db.pipelines[p].status == Completed
  }

  /** A listing without an open job has a verdict. */
  lemma ListedOver(before: Db, after: Db, id: JobId, rows: seq<PipelineProgress.JobRow>)
    requires id in before.jobs && PipelineProgress.ListsPipeline(before, before.jobs[id].pipeline, rows)
    requires after.jobs == before.jobs
    requires StartOrder.ConclusionsOk(before)
    requires Settled(rows) && before.jobs[id].pipeline in after.pipelines ==>
      after.pipelines[before.jobs[id].pipeline].status == Completed
    ensures OverMeansFinal(after, before.jobs[id].pipeline)
  {
    var p := before.jobs[id].pipeline;
    assert PipelineProgress.InPipeline(before, p, id);
    if forall d :: PipelineProgress.InPipeline(after, p, d) ==> after.jobs[d].status == Completed {
      forall i | 0 <= i < |rows| ensures rows[i].job.status == Completed {
        assert PipelineProgress.InPipeline(after, p, rows[i].id);
      }
    }
  }

  lemma FinalStaysFinal(before: Db, after: Db, p: PipelineId)
    requires OverMeansFinal(before, p) && Preserves(before, after) && after.jobs == before.jobs
    requires forall q :: q in after.pipelines ==> q in before.pipelines
    ensures OverMeansFinal(after, p)
  {
    assert forall id :: PipelineProgress.InPipeline(after, p, id) ==> PipelineProgress.InPipeline(before, p, id);
  }

  lemma OfflineKeepsJobs(db: Db)
    ensures Apply(db, MarkAllOffline).jobs == db.jobs
    ensures forall r :: r in Apply(db, MarkAllOffline).runners ==>
      Apply(db, MarkAllOffline).runners[r].status == Offline
  {
  }

  /** Recovery looks at the jobs alone. */
  lemma SameRecovery(a: Db, b: Db, now: Time)
    requires a.jobs == b.jobs
    ensures OrphanRecovery.Recovered(a, None, now).jobs == OrphanRecovery.Recovered(b, None, now).jobs
    ensures OrphanRecovery.FirstAttempts(a, None) == OrphanRecovery.FirstAttempts(b, None)
    ensures OrphanRecovery.Lost(a, None) == OrphanRecovery.Lost(b, None)
  {
  }

  lemma BootLeavesNothingRunning(db: Db, now: Time)
    ensures var after := OrphanRecovery.Recovered(db, None, now);
      forall id :: id in after.jobs ==> after.jobs[id].status != InProgress
  {
    var mid := Apply(db, RequeueFirstAttempts(None));
    RequeuedLeaves(db);
    FailedLeaves(mid, now);
  }

  lemma RequeuedLeaves(db: Db)
    ensures var mid := Apply(db, RequeueFirstAttempts(None));
      forall id :: id in mid.jobs && mid.jobs[id].status == InProgress ==> mid.jobs[id].attempt >= 2
  {
    forall id | id in db.jobs
      ensures var row := NextRow(db, RequeueFirstAttempts(None), id, db.jobs[id]);
        row.status == InProgress ==> row.attempt >= 2
    {}
  }

  lemma FailedLeaves(mid: Db, now: Time)
    requires forall id :: id in mid.jobs && mid.jobs[id].status == InProgress ==> mid.jobs[id].attempt >= 2
    ensures var after := Apply(mid, FailRepeatOffenders(None, now));
      forall id :: id in after.jobs ==> after.jobs[id].status != InProgress
  {
    forall id | id in mid.jobs
      ensures NextRow(mid, FailRepeatOffenders(None, now), id, mid.jobs[id]).status != InProgress
    {}
  }
}
