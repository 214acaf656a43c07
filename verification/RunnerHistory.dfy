/** Where the columns of the runner and pipeline rows come from. */
module RunnerHistory {
  import opened Options
  import opened JobProtocol

  // Runners

  /** Which steps leave a runner in which status. */
  predicate Sets(s: Step, r: RunnerId, before: Runner, status: RunnerStatus) {
    match status
    case Idle =>
      || (before.revoked == None && s == MarkConnected(r))
      || (before.status == Busy && before.draining == None && s == Release(r))
      || (before.status == Disabled && before.revoked == None && s == Resume(before.workspace, r, true))
    case Busy => before.status == Idle && before.revoked == None && s.Claim? && s.runner == r
    case Offline =>
      || s == MarkOffline(r) || s == MarkAllOffline
      || (before.status == Busy && before.draining.Some? && s == Release(r))
      || (before.status == Idle && before.draining == None && before.revoked == None
          && s.DrainStart? && s.runner == r && s.workspace == before.workspace)
      || (before.status == Disabled && before.revoked == None && s == Resume(before.workspace, r, false))
      || (before.revoked == None && s.Revoke? && s.runner == r && s.workspace == before.workspace)
    case Disabled => before.revoked == None && s == Disable(before.workspace, r)
  }

  /** Registered at this step, or brought from another status by it. */
  predicate Enters(run: Run, k: nat, r: RunnerId, status: RunnerStatus)
    requires k < |run.steps| && |run.states| == |run.steps| + 1
  {
    if r in run.states[k].runners
    then run.states[k].runners[r].status != status && Sets(run.steps[k], r, run.states[k].runners[r], status)
    else run.steps[k].RegisterRunner? && run.steps[k].runner == r && status == Offline
  }

  lemma StatusRow(db: Db, s: Step, r: RunnerId)
    requires r in db.runners
    ensures var before, after := db.runners[r], NextRunner(db, s, r, db.runners[r]);
      before.status == after.status || (Sets(s, r, before, after.status) && FindsJob(db, s))
  {
  }

  lemma StatusSet(db: Db, s: Step, r: RunnerId, status: RunnerStatus)
    requires r in db.runners && Sets(s, r, db.runners[r], status) && FindsJob(db, s)
    ensures NextRunner(db, s, r, db.runners[r]).status == status
  {
  }

  /** A claim must also find its job in the queue. */
  predicate FindsJob(db: Db, s: Step) {
    s.Claim? ==> s.job in db.jobs && db.jobs[s.job].status == Queued && db.jobs[s.job].runner == None
  }

  /** A step takes a runner to another status iff it is one that sets it. */
  lemma StatusChangesIff(db: Db, s: Step, r: RunnerId, status: RunnerStatus)
    requires r in db.runners && db.runners[r].status != status
    ensures r in Apply(db, s).runners
    ensures Apply(db, s).runners[r].status == status <==> Sets(s, r, db.runners[r], status) && FindsJob(db, s)
  {
    RunnerAfter(db, s, r);
    StatusRow(db, s, r);
    if Sets(s, r, db.runners[r], status) && FindsJob(db, s) {
      StatusSet(db, s, r, status);
    }
  }

  lemma RunnerBefore(run: Run, n: nat, r: RunnerId)
    requires IsRun(run) && n < |run.steps| && r in run.states[n + 1].runners
    ensures var status := run.states[n + 1].runners[r].status;
      (r in run.states[n].runners && run.states[n].runners[r].status == status) || Enters(run, n, r, status)
    ensures r in run.states[n].runners ==>
      run.states[n + 1].runners[r] == NextRunner(run.states[n], run.steps[n], r, run.states[n].runners[r])
    ensures r !in run.states[n].runners ==>
      run.steps[n].RegisterRunner? && run.steps[n].runner == r
      && run.states[n + 1].runners[r] == Runner(run.steps[n].workspace, Offline, None, None)
  {
    assert StepTaken(run, n);
    RunnerAfter(run.states[n], run.steps[n], r);
    if r in run.states[n].runners && run.states[n].runners[r].status != run.states[n + 1].runners[r].status {
      StatusChangesIff(run.states[n], run.steps[n], r, run.states[n + 1].runners[r].status);
    }
  }

  lemma RunnerStays(run: Run, k: nat, r: RunnerId)
    requires IsRun(run) && k < |run.steps| && r in run.states[k].runners
    ensures r in run.states[k + 1].runners
  {
    assert StepTaken(run, k);
    RunnerAfter(run.states[k], run.steps[k], r);
  }

  lemma NoRunnerAtFirst(run: Run, n: nat, r: RunnerId)
    requires IsRun(run) && n <= |run.steps| && r in run.states[n].runners
    ensures n > 0
  {
  }

  /** Every status is that of the one step that brought the runner into it, and has held since. */
  lemma {:induction false} StatusComesFrom(run: Run, n: nat, r: RunnerId) returns (k: nat)
    requires IsRun(run) && n <= |run.steps| && r in run.states[n].runners
    ensures k < n && Enters(run, k, r, run.states[n].runners[r].status)
    ensures forall m {:trigger run.states[m]} :: k < m <= n ==>
      r in run.states[m].runners && run.states[m].runners[r].status == run.states[n].runners[r].status
  {
    NoRunnerAtFirst(run, n, r);
    k := n - 1;
    RunnerBefore(run, k, r);
    if r in run.states[k].runners && run.states[k].runners[r].status == run.states[n].runners[r].status {
      k := StatusComesFrom(run, k, r);
    }
  }

  lemma DrainRow(db: Db, s: Step, r: RunnerId)
    requires r in db.runners && NextRunner(db, s, r, db.runners[r]).draining.Some?
    ensures var before, after := db.runners[r], NextRunner(db, s, r, db.runners[r]);
      || before.draining == after.draining
      || (before.draining == None && before.revoked == None && (before.status == Idle || before.status == Busy)
          && s == DrainStart(before.workspace, r, after.draining.value)
          && after.status == if before.status == Idle then Offline else Busy)
  {
  }

  /** A drain flag carries the time of the drain that set it, on a runner that was then idle or busy. */
  lemma {:induction false} DrainComesFrom(run: Run, n: nat, r: RunnerId) returns (k: nat)
    requires IsRun(run) && n <= |run.steps| && r in run.states[n].runners && run.states[n].runners[r].draining.Some?
    ensures k < n && r in run.states[k].runners
    ensures var before := run.states[k].runners[r];
      && before.draining == None && before.revoked == None && (before.status == Idle || before.status == Busy)
      && run.steps[k] == DrainStart(before.workspace, r, run.states[n].runners[r].draining.value)
    ensures forall m {:trigger run.states[m]} :: k < m <= n ==>
      r in run.states[m].runners && run.states[m].runners[r].draining == run.states[n].runners[r].draining
  {
    NoRunnerAtFirst(run, n, r);
    k := n - 1;
    RunnerBefore(run, k, r);
    DrainRow(run.states[k], run.steps[k], r);
    if run.states[k].runners[r].draining.Some? {
      k := DrainComesFrom(run, k, r);
    }
  }

  lemma RevokedRow(db: Db, s: Step, r: RunnerId)
    requires r in db.runners && (db.runners[r].revoked.Some? ==> db.runners[r].status == Offline)
    ensures var before, after := db.runners[r], NextRunner(db, s, r, db.runners[r]);
      && after.workspace == before.workspace
      && (before.revoked.Some? ==> after.revoked == before.revoked)
      && (after.revoked.Some? ==> after.status == Offline)
      && (before.revoked == None && after.revoked.Some? ==> s == Revoke(before.workspace, r, after.revoked.value))
  {
  }

  /** In every state of every run a revoked runner is offline. */
  lemma {:induction false} RevokedIsOffline(run: Run, n: nat, r: RunnerId)
    requires IsRun(run) && n <= |run.steps| && r in run.states[n].runners
    ensures run.states[n].runners[r].revoked.Some? ==> run.states[n].runners[r].status == Offline
  {
    NoRunnerAtFirst(run, n, r);
    RunnerBefore(run, n - 1, r);
    if r in run.states[n - 1].runners {
      RevokedIsOffline(run, n - 1, r);
      RevokedRow(run.states[n - 1], run.steps[n - 1], r);
    }
  }

  /** A revoke within the runner's workspace is for good: it is offline ever after, and never claimed for. */
  lemma {:induction false} RevokedForGood(run: Run, k: nat, n: nat, r: RunnerId, now: Time)
    requires IsRun(run) && k < n <= |run.steps| && r in run.states[k].runners
    requires run.steps[k] == Revoke(run.states[k].runners[r].workspace, r, now)
    ensures r in run.states[n].runners && run.states[n].runners[r].status == Offline
    ensures run.states[n].runners[r].revoked ==
      if run.states[k].runners[r].revoked == None then Some(now) else run.states[k].runners[r].revoked
    ensures forall id :: !ClaimFires(run.states[n], id, r)
  {
    if n > k + 1 {
      RevokedForGood(run, k, n - 1, r, now);
    }
    RunnerStays(run, n - 1, r);
    RevokedIsOffline(run, n - 1, r);
    RunnerBefore(run, n - 1, r);
    RevokedRow(run.states[n - 1], run.steps[n - 1], r);
  }

  // Pipelines

  /** Among the first `n` steps, from the pipeline's creation on, one starts it. */
  ghost predicate WasStarted(run: Run, n: nat, p: PipelineId)
    requires n <= |run.steps| && |run.states| == |run.steps| + 1
  {
    exists k :: 0 <= k < n && p in run.states[k].pipelines && run.steps[k] == MarkPipelineStarted(p)
  }

  ghost predicate FinalizedAt(run: Run, k: nat, p: PipelineId)
    requires k < |run.steps| && |run.states| == |run.steps| + 1
  {
    p in run.states[k].pipelines && run.steps[k].Finalize? && run.steps[k].pipeline == p
  }

  ghost predicate WasFinalized(run: Run, n: nat, p: PipelineId)
    requires n <= |run.steps| && |run.states| == |run.steps| + 1
  {
    exists k :: 0 <= k < n && FinalizedAt(run, k, p)
  }

  /** The first finalization's verdict. */
  ghost predicate FirstVerdict(run: Run, n: nat, p: PipelineId, v: Verdict)
    requires n <= |run.steps| && |run.states| == |run.steps| + 1
  {
    exists k :: 0 <= k < n && FinalizedAt(run, k, p) && !WasFinalized(run, k, p) && run.steps[k].verdict == v
  }

  lemma PipelineBefore(run: Run, n: nat, p: PipelineId)
    requires IsRun(run) && n < |run.steps| && p in run.states[n + 1].pipelines
    ensures p in run.states[n].pipelines ==>
      run.states[n + 1].pipelines[p] == NextPipeline(run.steps[n], p, run.states[n].pipelines[p])
    ensures p !in run.states[n].pipelines ==> run.states[n + 1].pipelines[p] == Pipeline(Queued, None)
  {
    assert StepTaken(run, n);
    PipelineAfter(run.states[n], run.steps[n], p);
  }

  lemma {:induction false} NothingBeforeCreation(run: Run, n: nat, p: PipelineId)
    requires IsRun(run) && n <= |run.steps| && p !in run.states[n].pipelines
    ensures !WasStarted(run, n, p) && !WasFinalized(run, n, p)
  {
    if n > 0 {
      assert StepTaken(run, n - 1);
      PipelineAfter(run.states[n - 1], run.steps[n - 1], p);
      NothingBeforeCreation(run, n - 1, p);
    }
  }

  /** A pipeline is completed iff it was finalized, with the first verdict given; else in progress iff it was
      started; else queued. */
  lemma {:induction false} PipelineStatusIs(run: Run, n: nat, p: PipelineId)
    requires IsRun(run) && n <= |run.steps| && p in run.states[n].pipelines
    ensures var row := run.states[n].pipelines[p];
      && (row.status == Completed <==> WasFinalized(run, n, p))
      && (row.status == InProgress <==> WasStarted(run, n, p) && !WasFinalized(run, n, p))
      && (row.status == Completed ==> row.verdict.Some? && FirstVerdict(run, n, p, row.verdict.value))
      && (row.status != Completed ==> row.verdict == None)
  {
    assert n > 0;
    PipelineBefore(run, n - 1, p);
    if p in run.states[n - 1].pipelines {
      PipelineStatusIs(run, n - 1, p);
      OneStepMore(run, n - 1, p);
    } else {
      NothingBeforeCreation(run, n - 1, p);
      OneStepMore(run, n - 1, p);
    }
  }

  lemma OneStepMore(run: Run, n: nat, p: PipelineId)
    requires n < |run.steps| && |run.states| == |run.steps| + 1
    ensures WasStarted(run, n + 1, p) <==>
      WasStarted(run, n, p) || (p in run.states[n].pipelines && run.steps[n] == MarkPipelineStarted(p))
    ensures WasFinalized(run, n + 1, p) <==> WasFinalized(run, n, p) || FinalizedAt(run, n, p)
    ensures forall v :: FirstVerdict(run, n, p, v) ==> FirstVerdict(run, n + 1, p, v)
    ensures FinalizedAt(run, n, p) && !WasFinalized(run, n, p) ==> FirstVerdict(run, n + 1, p, run.steps[n].verdict)
  {
  }
}
