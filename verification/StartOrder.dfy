/** Jobs of a pipeline start in a topological order of `needs`. */
module StartOrder {
  import opened Options
  import opened JobProtocol
  import opened Lifecycle

  /** What the scheduler and the forced endings promise: a claim only takes a
      job that some earlier read found eligible, however stale that read is, and
      no forced ending concludes success. */
  ghost predicate Scheduled(run: Run)
    requires |run.states| == |run.steps| + 1
  {
    && (forall k :: 0 <= k < |run.steps| && run.steps[k].Claim? ==> WasEligible(run, k, run.steps[k].job))
    && (forall k :: 0 <= k < |run.steps| && run.steps[k].ForceFinish? ==> run.steps[k].conclusion != Success)
  }

  ghost predicate WasEligible(run: Run, k: nat, job: JobId)
    requires k < |run.states|
  {
    exists i :: 0 <= i <= k && Eligible(run.states[i], job)
  }

  /** Step `k` is a claim of `job` that takes effect. */
  predicate ClaimedAt(run: Run, k: nat, job: JobId)
    requires k < |run.steps| && |run.states| == |run.steps| + 1
  {
    run.steps[k].Claim? && run.steps[k].job == job && ClaimFires(run.states[k], job, run.steps[k].runner)
  }

  predicate ConclusionsOk(db: Db) {
    forall id :: id in db.jobs ==> (db.jobs[id].status == Completed <==> db.jobs[id].conclusion.Some?)
  }

  /** A conclusion is present exactly on completed rows, with no assumption on the run. */
  lemma {:induction false} ConclusionsInvariant(run: Run, k: nat)
    requires IsRun(run) && k <= |run.steps|
    ensures ConclusionsOk(run.states[k])
  {
    if k > 0 {
      ConclusionsInvariant(run, k - 1);
      assert StepTaken(run, k - 1);
      StepKeepsConclusions(run.states[k - 1], run.steps[k - 1]);
    }
  }

  lemma StepKeepsConclusions(db: Db, s: Step)
    requires ConclusionsOk(db)
    ensures ConclusionsOk(Apply(db, s))
  {
    var next := Apply(db, s);
    forall id | id in next.jobs
      ensures next.jobs[id].status == Completed <==> next.jobs[id].conclusion.Some?
    {
      RowAfter(db, s, id);
      if id in db.jobs { StepConcludes(db, s, id); }
    }
  }

  lemma StepConcludes(db: Db, s: Step, id: JobId)
    requires id in db.jobs && (db.jobs[id].status == Completed <==> db.jobs[id].conclusion.Some?)
    ensures var n := NextRow(db, s, id, db.jobs[id]);
      n.status == Completed <==> n.conclusion.Some?
  {
  }

  predicate Started(j: Job) {
    j.status == InProgress || j.conclusion == Some(Success)
  }

  predicate HasStarted(db: Db, id: JobId) {
    id in db.jobs && Started(db.jobs[id])
  }

  /** No step on a row that has not started starts it, but a claim that fires. */
  lemma StepStarts(db: Db, s: Step, id: JobId)
    requires id in db.jobs && !Started(db.jobs[id]) && !s.Claim?
    requires s.ForceFinish? ==> s.conclusion != Success
    ensures !Started(NextRow(db, s, id, db.jobs[id]))
  {
  }

  lemma ClaimStarts(db: Db, s: Step, id: JobId)
    requires s.Claim? && id in db.jobs && !Started(db.jobs[id]) && Started(NextRow(db, s, id, db.jobs[id]))
    ensures s.job == id && ClaimFires(db, id, s.runner)
  {
  }

  /** Only a claim that fires starts a job. */
  lemma OnlyClaimStarts(db: Db, s: Step, id: JobId)
    requires s.ForceFinish? ==> s.conclusion != Success
    requires HasStarted(Apply(db, s), id) && !HasStarted(db, id)
    ensures s.Claim? && s.job == id && ClaimFires(db, id, s.runner)
  {
    RowAfter(db, s, id);
    if id in db.jobs {
      if s.Claim? {
        ClaimStarts(db, s, id);
      } else {
        StepStarts(db, s, id);
      }
    }
  }

  /** A running or successful job was claimed at an earlier step. */
  lemma {:induction false} StartedWasClaimed(run: Run, k: nat, id: JobId)
    requires IsRun(run) && Scheduled(run) && k <= |run.steps| && HasStarted(run.states[k], id)
    ensures exists c :: 0 <= c < k && ClaimedAt(run, c, id)
  {
    if k > 0 {
      if HasStarted(run.states[k - 1], id) {
        StartedWasClaimed(run, k - 1, id);
      } else {
        assert StepTaken(run, k - 1);
        OnlyClaimStarts(run.states[k - 1], run.steps[k - 1], id);
        assert ClaimedAt(run, k - 1, id);
      }
    }
  }

  /** Once a job has been claimed, each of its present dependencies is completed
      with success in every later state. */
  lemma DependenciesSucceeded(run: Run, k: nat, job: JobId, m: nat, d: JobId)
    requires IsRun(run) && Scheduled(run) && k < |run.steps| && ClaimedAt(run, k, job) && k <= m <= |run.steps|
    requires job in run.states[m].jobs && d in run.states[m].jobs
    requires DependsOn(run.states[m].jobs[job], run.states[m].jobs[d])
    ensures run.states[m].jobs[d].status == Completed && run.states[m].jobs[d].conclusion == Some(Success)
  {
    assert WasEligible(run, k, job);
    var i :| 0 <= i <= k && Eligible(run.states[i], job);
    ConclusionsInvariant(run, i);
    RunPreserves(run, i, m);
    EligibleThenSucceeded(run.states[i], run.states[m], job, d);
  }

  lemma EligibleThenSucceeded(before: Db, after: Db, job: JobId, d: JobId)
    requires Eligible(before, job) && ConclusionsOk(before) && Preserves(before, after)
    requires job in after.jobs && d in after.jobs && DependsOn(after.jobs[job], after.jobs[d])
    ensures d in before.jobs && after.jobs[d] == before.jobs[d]
    ensures after.jobs[d].status == Completed && after.jobs[d].conclusion == Some(Success)
  {
    assert SameIdentity(before.jobs[job], after.jobs[job]);
    assert d in before.jobs && SameIdentity(before.jobs[d], after.jobs[d]);
    assert DependsOn(before.jobs[job], before.jobs[d]);
  }

  /** The order of first starts is a topological order: if `job` is claimed at
      step `k`, each dependency was claimed before, and is never claimed again. */
  lemma ClaimsFollowNeeds(run: Run, k: nat, job: JobId, d: JobId)
    requires IsRun(run) && Scheduled(run) && k < |run.steps| && ClaimedAt(run, k, job)
    requires d in run.states[|run.steps|].jobs && job in run.states[|run.steps|].jobs
    requires DependsOn(run.states[|run.steps|].jobs[job], run.states[|run.steps|].jobs[d])
    ensures exists c :: 0 <= c < k && ClaimedAt(run, c, d)
    ensures forall c :: 0 <= c < |run.steps| && ClaimedAt(run, c, d) ==> c < k
  {
    RunPreserves(run, k, |run.steps|);
    assert WasEligible(run, k, job);
    var i :| 0 <= i <= k && Eligible(run.states[i], job);
    RunPreserves(run, i, |run.steps|);
    ConclusionsInvariant(run, i);
    EligibleThenSucceeded(run.states[i], run.states[|run.steps|], job, d);
    StartedWasClaimed(run, i, d);
    forall c | 0 <= c < |run.steps| && ClaimedAt(run, c, d)
      ensures c < k
    {
      if c >= k { RunPreserves(run, i, c); }
    }
  }

  /** An eligible job and a schedulable runner, read from the tables as they stand, are claimed for each other. */
  lemma ChosenPairIsClaimed(db: Db, job: JobId, r: RunnerId, now: Time)
    requires LifecycleOk(db) && Eligible(db, job) && Schedulable(db, r)
    ensures var next := Apply(db, Claim(job, r, now));
      && job in next.jobs && next.jobs[job].status == InProgress && next.jobs[job].runner == Some(r)
      && r in next.runners && next.runners[r].status == Busy && next.runners[r].draining == None
  {
    assert RowOk(db.jobs[job]);
    RowAfter(db, Claim(job, r, now), job);
    RunnerAfter(db, Claim(job, r, now), r);
  }

  ghost predicate NeedsOneOf(db: Db, job: JobId, jobs: set<JobId>) {
    job in db.jobs && exists d :: d in jobs && d in db.jobs && DependsOn(db.jobs[job], db.jobs[d])
  }

  /** Every member of `cycle` needs a member of `cycle`: a dependency cycle, or
      a set of jobs that all lead into one. */
  ghost predicate NeedsItself(db: Db, cycle: set<JobId>) {
    forall j {:trigger NeedsOneOf(db, j, cycle)} :: j in cycle ==> NeedsOneOf(db, j, cycle)
  }

  /** A job on a dependency cycle is never claimed, in any run. */
  lemma {:induction false} CyclesNeverStart(run: Run, cycle: set<JobId>, k: nat, job: JobId)
    requires IsRun(run) && Scheduled(run) && NeedsItself(run.states[|run.steps|], cycle)
    requires k < |run.steps| && job in cycle
    ensures !ClaimedAt(run, k, job)
  {
    var final := run.states[|run.steps|];
    if ClaimedAt(run, k, job) {
      assert NeedsOneOf(final, job, cycle);
      var d :| d in cycle && d in final.jobs && DependsOn(final.jobs[job], final.jobs[d]);
      ClaimsFollowNeeds(run, k, job, d);
      var c :| 0 <= c < k && ClaimedAt(run, c, d);
      CyclesNeverStart(run, cycle, c, d);
    }
  }
}
