/** Recovery at boot fails repeat offenders and finalizes, but skips no dependents: what it leaves waiting. */
module BootRecovery {
  import opened Options
  import opened JobProtocol
  import opened Lifecycle
  import opened StartOrder
  import opened OrphanRecovery
  import opened PipelineProgress
  import Exclusivity

  /** In progress for the second time: recovery fails it. */
  predicate RepeatOffender(j: Job) { j.status == InProgress && j.attempt >= 2 }

  /** Queued, or in progress for the first time: recovery leaves it queued, or puts it back. */
  predicate QueuedAfter(j: Job) { j.status == Queued || (j.status == InProgress && j.attempt < 2) }

  lemma RecoveredRow(db: Db, now: Time, id: JobId)
    requires id in db.jobs
    ensures var after := Recovered(db, None, now);
      && id in after.jobs && SameIdentity(db.jobs[id], after.jobs[id])
      && (after.jobs[id].status == Queued <==> QueuedAfter(db.jobs[id]))
      && (Unsuccessful(after.jobs[id]) <==> Unsuccessful(db.jobs[id]) || RepeatOffender(db.jobs[id]))
  {
    var mid := Apply(db, RequeueFirstAttempts(None));
    RowAfter(db, RequeueFirstAttempts(None), id);
    RowAfter(mid, FailRepeatOffenders(None, now), id);
  }

  lemma RecoveredIds(db: Db, now: Time)
    ensures Recovered(db, None, now).jobs.Keys == db.jobs.Keys
  {
    RecoveryKeepsRunners(db, None, now);
  }

  /** A job that recovery leaves queued needs one that is unsuccessful already, or that recovery fails. */
  ghost predicate PutOut(db: Db, p: PipelineId, j: JobId, d: JobId) {
    InPipeline(db, p, j) && d in db.jobs && QueuedAfter(db.jobs[j]) && DependsOn(db.jobs[j], db.jobs[d])
    && (Unsuccessful(db.jobs[d]) || RepeatOffender(db.jobs[d]))
  }

  /** Recovery leaves a pipeline swept iff there is no such pair. */
  lemma RecoveryLeavesSweptIff(db: Db, p: PipelineId, now: Time)
    ensures Swept(Recovered(db, None, now), p) <==> !(exists j, d :: PutOut(db, p, j, d))
  {
    var after := Recovered(db, None, now);
    RecoveredIds(db, now);
    if j, d :| PutOut(db, p, j, d) {
      RecoveredRow(db, now, j);
      RecoveredRow(db, now, d);
      assert InPipeline(after, p, j) && DependsOn(after.jobs[j], after.jobs[d]);
    } else {
      forall j, d | InPipeline(after, p, j) && d in after.jobs && after.jobs[j].status == Queued
        && DependsOn(after.jobs[j], after.jobs[d])
        ensures !Unsuccessful(after.jobs[d])
      {
        RecoveredRow(db, now, j);
        RecoveredRow(db, now, d);
        assert InPipeline(db, p, j) && !PutOut(db, p, j, d);
      }
    }
  }

  /** The dependent it leaves behind is not eligible, and while it is queued the pipeline has no verdict. */
  lemma LeftWaiting(db: Db, p: PipelineId, j: JobId, d: JobId, now: Time, rows: seq<JobRow>)
    requires PutOut(db, p, j, d) && ListsPipeline(Recovered(db, None, now), p, rows)
    ensures !Eligible(Recovered(db, None, now), j) && ComputeVerdict(rows) == None
  {
    var after := Recovered(db, None, now);
    RecoveredRow(db, now, j);
    RecoveredRow(db, now, d);
    assert DependsOn(after.jobs[j], after.jobs[d]) && InPipeline(after, p, j);
    var i :| 0 <= i < |rows| && rows[i].id == j;
  }

  /** Once a job needs an unsuccessful one it is never claimed again, so it ends only by being skipped,
      cancelled or forced. */
  lemma NeverClaimed(run: Run, i: nat, c: nat, j: JobId, d: JobId)
    requires IsRun(run) && Scheduled(run) && i <= c < |run.steps|
    requires j in run.states[i].jobs && d in run.states[i].jobs
    requires DependsOn(run.states[i].jobs[j], run.states[i].jobs[d]) && Unsuccessful(run.states[i].jobs[d])
    ensures !ClaimedAt(run, c, j)
  {
    if ClaimedAt(run, c, j) {
      RunPreserves(run, i, c);
      DependenciesSucceeded(run, c, j, c, d);
    }
  }

  // A run that gets there

  const BUILD_THEN_TEST: map<JobId, NewJob> := map[1 := NewJob("build", []), 2 := NewJob("test", ["build"])]

  lemma StartIsReachable() returns (db: Db)
    ensures db == Apply(Apply(Apply(EMPTY, CreatePipeline(0, BUILD_THEN_TEST)), RegisterRunner(7, 0)), MarkConnected(7))
    ensures ClaimFires(db, 1, 7) && db.jobs[1].attempt == 1
    ensures InPipeline(db, 0, 2) && db.jobs[2].status == Queued && DependsOn(db.jobs[2], db.jobs[1])
  {
    assert BUILD_THEN_TEST[1].key[0] != BUILD_THEN_TEST[2].key[0];
    var created := Apply(EMPTY, CreatePipeline(0, BUILD_THEN_TEST));
    assert created.jobs[1] == FreshJob(0, BUILD_THEN_TEST[1]) && created.jobs[2] == FreshJob(0, BUILD_THEN_TEST[2]);
    assert 7 !in created.runners;
    db := Exclusivity.ConnectNew(created, 7);
  }

  lemma ClaimTakes(db: Db, id: JobId, r: RunnerId, now: Time, other: JobId)
    requires ClaimFires(db, id, r) && other in db.jobs && other != id
    ensures var next := Apply(db, Claim(id, r, now));
      && id in next.jobs && next.jobs[id].status == InProgress && next.jobs[id].attempt == db.jobs[id].attempt
      && other in next.jobs && next.jobs[other] == db.jobs[other]
      && r in next.runners && next.runners[r].revoked == None
  {
    RowAfter(db, Claim(id, r, now), id);
    RowAfter(db, Claim(id, r, now), other);
    RunnerAfter(db, Claim(id, r, now), r);
  }

  /** A claimed job of the first attempt, a recovery and a reconnect later: claimable once more, on its
      second attempt. */
  lemma Requeued(db: Db, id: JobId, r: RunnerId, other: JobId)
    requires id in db.jobs && db.jobs[id].status == InProgress && db.jobs[id].attempt == 1
    requires other in db.jobs && db.jobs[other].status == Queued && other != id
    requires r in db.runners && db.runners[r].revoked == None
    ensures var next := Apply(Apply(db, RequeueFirstAttempts(None)), MarkConnected(r));
      && ClaimFires(next, id, r) && next.jobs[id].attempt == 2
      && other in next.jobs && next.jobs[other] == db.jobs[other]
  {
    var requeued := Apply(db, RequeueFirstAttempts(None));
    RowAfter(db, RequeueFirstAttempts(None), id);
    RowAfter(db, RequeueFirstAttempts(None), other);
    RunnerAfter(db, RequeueFirstAttempts(None), r);
    RowAfter(requeued, MarkConnected(r), id);
    RowAfter(requeued, MarkConnected(r), other);
    RunnerAfter(requeued, MarkConnected(r), r);
  }

  /** A build lost for the second time, and a test that needs it: reached from any tables in which the build can
      be claimed for the first time. */
  lemma OffenderIsReachable(db: Db, p: PipelineId, build: JobId, test: JobId, r: RunnerId, now: Time) returns (lost: Db)
    requires ClaimFires(db, build, r) && db.jobs[build].attempt == 1
    requires InPipeline(db, p, test) && db.jobs[test].status == Queued && test != build
    requires DependsOn(db.jobs[test], db.jobs[build])
    ensures lost ==
      Apply(Apply(Apply(Apply(db, Claim(build, r, now)), RequeueFirstAttempts(None)), MarkConnected(r)),
            Claim(build, r, now))
    ensures PutOut(lost, p, test, build)
  {
    var claimed := Apply(db, Claim(build, r, now));
    ClaimTakes(db, build, r, now, test);
    Requeued(claimed, build, r, test);
    var again := Apply(Apply(claimed, RequeueFirstAttempts(None)), MarkConnected(r));
    lost := Apply(again, Claim(build, r, now));
    ClaimTakes(again, build, r, now, test);
    SameNeeds(db, claimed, again, lost, build, r, now);
  }

  lemma SameNeeds(db: Db, claimed: Db, again: Db, lost: Db, id: JobId, r: RunnerId, now: Time)
    requires id in db.jobs && claimed == Apply(db, Claim(id, r, now))
    requires again == Apply(Apply(claimed, RequeueFirstAttempts(None)), MarkConnected(r))
    requires lost == Apply(again, Claim(id, r, now))
    ensures id in lost.jobs && SameIdentity(db.jobs[id], lost.jobs[id])
  {
    StepPreserves(db, Claim(id, r, now));
    StepPreserves(claimed, RequeueFirstAttempts(None));
    StepPreserves(Apply(claimed, RequeueFirstAttempts(None)), MarkConnected(r));
    StepPreserves(again, Claim(id, r, now));
  }
}
