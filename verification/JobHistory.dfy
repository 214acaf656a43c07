/** Where the columns of a job row come from: the claim behind a held row, the runner's messages behind its
    stage, the acknowledgement behind its start, and the ending behind its conclusion. */
module JobHistory {
  import opened Options
  import opened JobProtocol
  import opened Exclusivity

  // Claims

  /** From state `i` to state `n` the runner holds the job, assigned at time `t`. */
  ghost predicate HeldSince(run: Run, i: nat, n: nat, id: JobId, r: RunnerId, t: Time)
    requires n <= |run.steps| && |run.states| == |run.steps| + 1
  {
    forall m {:trigger run.states[m]} :: i <= m <= n ==>
      HeldAt(run.states[m], id, r) && run.states[m].jobs[id].assignedAt == Some(t)
  }

  /** Step `k` takes the job from the queue for a runner that is idle and not revoked. */
  predicate Takes(run: Run, k: nat, id: JobId, r: RunnerId, t: Time)
    requires k < |run.steps| && |run.states| == |run.steps| + 1
  {
    var db := run.states[k];
    && run.steps[k] == Claim(id, r, t) && id in db.jobs && db.jobs[id].status == Queued
    && r in db.runners && db.runners[r].status == Idle && db.runners[r].revoked == None
  }

  lemma BecomesHeld(db: Db, s: Step, id: JobId)
    requires id in db.jobs && db.jobs[id].status != InProgress
    requires NextRow(db, s, id, db.jobs[id]).status == InProgress
    ensures s.Claim? && s.job == id && db.jobs[id].status == Queued && s.runner in db.runners
    ensures db.runners[s.runner].status == Idle && db.runners[s.runner].revoked == None
    ensures NextRow(db, s, id, db.jobs[id]).runner == Some(s.runner)
    ensures NextRow(db, s, id, db.jobs[id]).assignedAt == Some(s.now)
    ensures NextRow(db, s, id, db.jobs[id]).stage == Assigned
  {
  }

  lemma StaysHeld(db: Db, s: Step, id: JobId)
    requires id in db.jobs && db.jobs[id].status == InProgress
    requires NextRow(db, s, id, db.jobs[id]).status == InProgress
    ensures NextRow(db, s, id, db.jobs[id]).runner == db.jobs[id].runner
    ensures NextRow(db, s, id, db.jobs[id]).assignedAt == db.jobs[id].assignedAt
  {
  }

  /** One step back from a held row: it was held under the same claim, or the step claimed it. */
  lemma HeldBefore(run: Run, n: nat, id: JobId)
    requires IsRun(run) && n < |run.steps|
    requires id in run.states[n + 1].jobs && run.states[n + 1].jobs[id].status == InProgress
    ensures var db, s, j := run.states[n], run.steps[n], run.states[n + 1].jobs[id];
      && id in db.jobs
      && (db.jobs[id].status == InProgress ==> j.runner == db.jobs[id].runner && j.assignedAt == db.jobs[id].assignedAt)
      && (db.jobs[id].status != InProgress ==>
          && s.Claim? && Takes(run, n, id, s.runner, s.now)
          && j.runner == Some(s.runner) && j.assignedAt == Some(s.now) && j.stage == Assigned)
  {
    var db, s := run.states[n], run.steps[n];
    assert StepTaken(run, n);
    RowAfter(db, s, id);
    if db.jobs[id].status == InProgress {
      StaysHeld(db, s, id);
    } else {
      BecomesHeld(db, s, id);
    }
  }

  /** A job in progress was claimed, and has been held by that claim's runner, with its assignment time, ever since. */
  lemma {:induction false} HeldWasClaimed(run: Run, n: nat, id: JobId) returns (k: nat, r: RunnerId, t: Time)
    requires IsRun(run) && n <= |run.steps|
    requires id in run.states[n].jobs && run.states[n].jobs[id].status == InProgress
    ensures k < n && Takes(run, k, id, r, t) && HeldSince(run, k + 1, n, id, r, t)
    ensures run.states[k + 1].jobs[id].stage == Assigned
  {
    NotAtFirst(run, n, id);
    k := n - 1;
    HeldBefore(run, k, id);
    if run.states[k].jobs[id].status == InProgress {
      k, r, t := HeldWasClaimed(run, k, id);
    } else {
      r, t := run.steps[k].runner, run.steps[k].now;
    }
  }

  lemma NotAtFirst(run: Run, n: nat, id: JobId)
    requires IsRun(run) && n <= |run.steps| && id in run.states[n].jobs
    ensures n > 0
  {
  }

  // Stages

  /** The stage a runner's messages about a job lead to after a claim: the first acknowledgement starts the
      preparation, a report names the stage. */
  function Reported(steps: seq<Step>, id: JobId, r: RunnerId): Stage {
    if steps == [] then Assigned
    else
      var before, s := Reported(steps[..|steps| - 1], id, r), steps[|steps| - 1];
      if s.SetStage? && s.job == id && s.runner == r then s.stage
      else if s.Ack? && s.job == id && s.runner == r && before == Assigned then Preparing
      else before
  }

  predicate Mentions(s: Step, id: JobId, r: RunnerId) {
    (s.Ack? || s.SetStage?) && s.job == id && s.runner == r
  }

  lemma HeldStage(db: Db, s: Step, id: JobId, r: RunnerId)
    requires HeldAt(db, id, r) && NextRow(db, s, id, db.jobs[id]).status == InProgress
    ensures NextRow(db, s, id, db.jobs[id]).stage ==
      if s.SetStage? && s.job == id && s.runner == r then s.stage
      else if s.Ack? && s.job == id && s.runner == r && db.jobs[id].stage == Assigned then Preparing
      else db.jobs[id].stage
  {
  }

  /** The stage of a held job is what its runner's messages since the claim lead to. */
  lemma {:induction false} StageIsReported(run: Run, k: nat, n: nat, id: JobId, r: RunnerId, t: Time)
    requires IsRun(run) && k < n <= |run.steps| && HeldSince(run, k + 1, n, id, r, t)
    requires run.states[k + 1].jobs[id].stage == Assigned
    ensures run.states[n].jobs[id].stage == Reported(run.steps[k + 1..n], id, r)
  {
    if n > k + 1 {
      StageIsReported(run, k, n - 1, id, r, t);
      assert StepTaken(run, n - 1);
      RowAfter(run.states[n - 1], run.steps[n - 1], id);
      HeldStage(run.states[n - 1], run.steps[n - 1], id, r);
      assert run.steps[k + 1..n][..n - k - 2] == run.steps[k + 1..n - 1];
    }
  }

  /** The last thing the runner said about the job, if it said anything, is this. */
  predicate LastSaid(steps: seq<Step>, i: nat, id: JobId, r: RunnerId) {
    i < |steps| && Mentions(steps[i], id, r) && forall m :: i < m < |steps| ==> !Mentions(steps[m], id, r)
  }

  /** A claim is unanswered iff the runner has said nothing about the job since, or last reported the very stage
      `assigned`, which takes an acknowledgement back. */
  lemma {:induction false} UnansweredIff(steps: seq<Step>, id: JobId, r: RunnerId)
    ensures Reported(steps, id, r) == Assigned <==>
      || (forall m :: 0 <= m < |steps| ==> !Mentions(steps[m], id, r))
      || exists i: nat :: LastSaid(steps, i, id, r) && steps[i].SetStage? && steps[i].stage == Assigned
  {
    if steps != [] {
      var before, n := steps[..|steps| - 1], |steps| - 1;
      UnansweredIff(before, id, r);
      if Mentions(steps[n], id, r) {
        assert LastSaid(steps, n, id, r);
      } else {
        forall i: nat ensures LastSaid(steps, i, id, r) <==> LastSaid(before, i, id, r) {}
      }
    }
  }

  // Stale claims

  /** What a sweep of the unacknowledged claims does to a claimed job: it goes back to the queue iff the
      runner's messages leave it unacknowledged, it was claimed before the cutoff, and no one has locked it. */
  lemma StaleClaimGoesBackIff(run: Run, k: nat, n: nat, id: JobId, r: RunnerId, t: Time, cutoff: Time,
    locked: set<JobId>)
    requires IsRun(run) && k < n < |run.steps| && Takes(run, k, id, r, t) && HeldSince(run, k + 1, n, id, r, t)
    requires run.steps[n] == RevertUnacked(cutoff, locked)
    ensures var before, after := run.states[n].jobs[id], run.states[n + 1].jobs;
      && id in after
      && if Reported(run.steps[k + 1..n], id, r) == Assigned && t < cutoff && id !in locked
         then after[id] == before.(status := Queued, stage := AtQueue, runner := None, assignedAt := None)
         else after[id] == before
  {
    HeldBefore(run, k, id);
    StageIsReported(run, k, n, id, r, t);
    assert StepTaken(run, n);
    RowAfter(run.states[n], run.steps[n], id);
  }

  /** A claim the runner has not answered: kept if it is as young as the cutoff, queued again if it is older. */
  lemma SilentClaimGoesBackIff(run: Run, k: nat, n: nat, id: JobId, r: RunnerId, t: Time, cutoff: Time,
    locked: set<JobId>)
    requires IsRun(run) && k < n < |run.steps| && Takes(run, k, id, r, t) && HeldSince(run, k + 1, n, id, r, t)
    requires run.steps[n] == RevertUnacked(cutoff, locked)
    requires forall s :: s in run.steps[k + 1..n] ==> !Mentions(s, id, r)
    ensures id in run.states[n + 1].jobs
    ensures cutoff <= t ==> HeldAt(run.states[n + 1], id, r)
    ensures t < cutoff && id !in locked ==>
      run.states[n + 1].jobs[id].status == Queued && run.states[n + 1].jobs[id].runner == None
  {
    var said := run.steps[k + 1..n];
    assert forall m :: 0 <= m < |said| ==> said[m] in said;
    UnansweredIff(said, id, r);
    StaleClaimGoesBackIff(run, k, n, id, r, t, cutoff, locked);
  }

  /** Each job in progress at a sweep is kept or goes back by the age of its own latest claim. */
  lemma SweepTakesStaleClaims(run: Run, n: nat, id: JobId, cutoff: Time, locked: set<JobId>)
    returns (k: nat, r: RunnerId, t: Time)
    requires IsRun(run) && n < |run.steps| && run.steps[n] == RevertUnacked(cutoff, locked)
    requires id in run.states[n].jobs && run.states[n].jobs[id].status == InProgress
    ensures k < n && Takes(run, k, id, r, t) && id in run.states[n + 1].jobs
    ensures run.states[n + 1].jobs[id].status == Queued <==>
      Reported(run.steps[k + 1..n], id, r) == Assigned && t < cutoff && id !in locked
    ensures run.states[n + 1].jobs[id].status != Queued ==> HeldAt(run.states[n + 1], id, r)
  {
    k, r, t := HeldWasClaimed(run, n, id);
    StaleClaimGoesBackIff(run, k, n, id, r, t, cutoff, locked);
  }

  // Endings

  /** The time a start is recorded at, if it has not been recorded before. */
  predicate StartedBy(before: Job, after: Job, now: Time) {
    after.startedAt == if before.startedAt == None then Some(now) else before.startedAt
  }

  predicate NeverRan(before: Job, after: Job) {
    before.status == Queued && after.exitCode == None && after.category == None && after.startedAt == before.startedAt
  }

  /** What a step that ends the job leaves in its columns. */
  predicate Ends(s: Step, id: JobId, before: Job, after: Job) {
    match s
    case FinishFromRunner(job, r, conclusion, exitCode, category, now) =>
      && job == id && before.status == InProgress && before.runner == Some(r)
      && after.conclusion == Some(conclusion) && after.exitCode == exitCode && after.category == category
      && after.finishedAt == Some(now) && StartedBy(before, after, now)
    case ForceFinish(job, conclusion, category, now) =>
      && job == id && after.conclusion == Some(conclusion) && after.exitCode == None && after.category == category
      && after.finishedAt == Some(now) && StartedBy(before, after, now)
    case FailRepeatOffenders(scope, now) =>
      && before.status == InProgress && (scope == None || before.runner == scope)
      && after.conclusion == Some(Failure) && after.exitCode == None && after.category == Some("runner_lost")
      && after.finishedAt == Some(now) && StartedBy(before, after, now)
    case MarkSkipped(jobs, now) =>
      id in jobs && NeverRan(before, after) && after.conclusion == Some(Skipped) && after.finishedAt == Some(now)
    case CancelOneQueued(job, now) =>
      id == job && NeverRan(before, after) && after.conclusion == Some(Cancelled) && after.finishedAt == Some(now)
    case CancelQueued(pipeline, now) =>
      && before.pipeline == pipeline && NeverRan(before, after)
      && after.conclusion == Some(Cancelled) && after.finishedAt == Some(now)
    case _ => false
  }

  predicate Blank(j: Job) { j.exitCode == None && j.category == None && j.finishedAt == None }

  lemma StaysBlank(db: Db, s: Step, id: JobId)
    requires id in db.jobs && Blank(db.jobs[id]) && NextRow(db, s, id, db.jobs[id]).status != Completed
    ensures Blank(NextRow(db, s, id, db.jobs[id]))
  {
  }

  /** A job that is not over has no exit code, no error category and no finishing time. */
  lemma {:induction false} OpenIsBlank(run: Run, n: nat, id: JobId)
    requires IsRun(run) && n <= |run.steps|
    requires id in run.states[n].jobs && run.states[n].jobs[id].status != Completed
    ensures Blank(run.states[n].jobs[id])
  {
    if n > 0 {
      var db, s := run.states[n - 1], run.steps[n - 1];
      assert StepTaken(run, n - 1);
      RowAfter(db, s, id);
      if id in db.jobs {
        RowStep(db, s, id);
        OpenIsBlank(run, n - 1, id);
        StaysBlank(db, s, id);
      }
    }
  }

  lemma EndsRow(db: Db, s: Step, id: JobId)
    requires id in db.jobs && db.jobs[id].status != Completed && Blank(db.jobs[id])
    requires NextRow(db, s, id, db.jobs[id]).status == Completed
    ensures var before, after := db.jobs[id], NextRow(db, s, id, db.jobs[id]);
      Ends(s, id, before, after) && after.stage == Done && after.runner == before.runner
  {
  }

  /** Every completed job was ended by one step, whose conclusion, category, exit code and time it carries for good. */
  lemma {:induction false} CompletedWasEnded(run: Run, n: nat, id: JobId) returns (k: nat)
    requires IsRun(run) && n <= |run.steps|
    requires id in run.states[n].jobs && run.states[n].jobs[id].status == Completed
    ensures k < n && id in run.states[k].jobs && run.states[k].jobs[id].status != Completed
    ensures var before, after := run.states[k].jobs[id], run.states[n].jobs[id];
      Ends(run.steps[k], id, before, after) && after.stage == Done && after.runner == before.runner
    ensures forall m {:trigger run.states[m]} :: k < m <= n ==>
      id in run.states[m].jobs && run.states[m].jobs[id] == run.states[n].jobs[id]
  {
    NotAtFirst(run, n, id);
    k := n - 1;
    EndedBefore(run, k, id);
    if run.states[k].jobs[id].status == Completed {
      k := CompletedWasEnded(run, k, id);
    }
  }

  lemma EndedBefore(run: Run, n: nat, id: JobId)
    requires IsRun(run) && n < |run.steps|
    requires id in run.states[n + 1].jobs && run.states[n + 1].jobs[id].status == Completed
    ensures id in run.states[n].jobs
    ensures var before, after := run.states[n].jobs[id], run.states[n + 1].jobs[id];
      && (before.status == Completed ==> after == before)
      && (before.status != Completed ==>
          Ends(run.steps[n], id, before, after) && after.stage == Done && after.runner == before.runner)
  {
    assert StepTaken(run, n);
    RowAfter(run.states[n], run.steps[n], id);
    RowStep(run.states[n], run.steps[n], id);
    if run.states[n].jobs[id].status != Completed {
      OpenIsBlank(run, n, id);
      EndsRow(run.states[n], run.steps[n], id);
    }
  }

  // Starts

  /** Whether a step records a start: an acknowledgement, or an ending that is not one of the queue's own. */
  predicate RecordsStart(s: Step, id: JobId, j: Job, t: Time) {
    || (s.Ack? && s.job == id && s.now == t && j.status == InProgress && j.runner == Some(s.runner)
        && j.stage == Assigned)
    || (s.FinishFromRunner? && s.job == id && s.now == t && j.status == InProgress && j.runner == Some(s.runner))
    || (s.ForceFinish? && s.job == id && s.now == t && j.status != Completed)
    || (s.FailRepeatOffenders? && s.now == t && j.status == InProgress && (s.scope == None || j.runner == s.scope))
  }

  lemma StartRow(db: Db, s: Step, id: JobId)
    requires id in db.jobs && NextRow(db, s, id, db.jobs[id]).startedAt.Some?
    ensures var before, after := db.jobs[id].startedAt, NextRow(db, s, id, db.jobs[id]).startedAt;
      before == after || (before == None && RecordsStart(s, id, db.jobs[id], after.value))
  {
  }

  /** A recorded start is that of the first acknowledgement, or of the ending, since the job last had none. */
  lemma {:induction false} StartWasRecorded(run: Run, n: nat, id: JobId) returns (k: nat)
    requires IsRun(run) && n <= |run.steps|
    requires id in run.states[n].jobs && run.states[n].jobs[id].startedAt.Some?
    ensures k < n && id in run.states[k].jobs && run.states[k].jobs[id].startedAt == None
    ensures RecordsStart(run.steps[k], id, run.states[k].jobs[id], run.states[n].jobs[id].startedAt.value)
    ensures forall m {:trigger run.states[m]} :: k < m <= n ==>
      id in run.states[m].jobs && run.states[m].jobs[id].startedAt == run.states[n].jobs[id].startedAt
  {
    NotAtFirst(run, n, id);
    k := n - 1;
    StartBefore(run, k, id);
    if run.states[k].jobs[id].startedAt.Some? {
      k := StartWasRecorded(run, k, id);
    }
  }

  lemma StartBefore(run: Run, n: nat, id: JobId)
    requires IsRun(run) && n < |run.steps|
    requires id in run.states[n + 1].jobs && run.states[n + 1].jobs[id].startedAt.Some?
    ensures id in run.states[n].jobs
    ensures var before, after := run.states[n].jobs[id].startedAt, run.states[n + 1].jobs[id].startedAt;
      before == after || (before == None && RecordsStart(run.steps[n], id, run.states[n].jobs[id], after.value))
  {
    assert StepTaken(run, n);
    RowAfter(run.states[n], run.steps[n], id);
    StartRow(run.states[n], run.steps[n], id);
  }

  lemma StartKept(db: Db, s: Step, id: JobId)
    requires id in db.jobs && db.jobs[id].startedAt.Some? && db.jobs[id].status == InProgress
    requires NextRow(db, s, id, db.jobs[id]).status == InProgress
    ensures NextRow(db, s, id, db.jobs[id]).startedAt == db.jobs[id].startedAt
  {
  }

  /** After its acknowledgement a job has a start for as long as it is held: the acknowledgement's own time if
      it had none. */
  lemma {:induction false} AckRecordsStart(run: Run, k: nat, n: nat, id: JobId, r: RunnerId, t: Time, now: Time)
    requires IsRun(run) && k < n <= |run.steps| && HeldSince(run, k, n, id, r, t)
    requires run.steps[k] == Ack(id, r, now) && run.states[k].jobs[id].stage == Assigned
    ensures run.states[n].jobs[id].startedAt ==
      if run.states[k].jobs[id].startedAt == None then Some(now) else run.states[k].jobs[id].startedAt
  {
    assert HeldAt(run.states[n], id, r) && HeldAt(run.states[n - 1], id, r);
    assert StepTaken(run, n - 1);
    RowAfter(run.states[n - 1], run.steps[n - 1], id);
    if n > k + 1 {
      AckRecordsStart(run, k, n - 1, id, r, t, now);
      StartKept(run.states[n - 1], run.steps[n - 1], id);
    }
  }
}
