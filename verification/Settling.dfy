/** Once the handlers of all endings have run: every pipeline is swept, and one whose jobs are over is completed. */
module Settling {
  import opened Options
  import opened JobProtocol
  import opened Lifecycle
  import opened StartOrder
  import opened PipelineProgress

  // Sweeping

  /** A listing of the pipeline at state `l` decides what to skip, and step `m` skips it; an empty result
      takes no step. */
  ghost predicate Sweep(run: Run, l: nat, m: nat, p: PipelineId, ids: set<JobId>)
    requires |run.states| == |run.steps| + 1
  {
    && l <= m <= |run.steps| && Decides(run.states[l], p, ids)
    && (ids != {} ==> m < |run.steps| && run.steps[m].MarkSkipped? && run.steps[m].jobs == ids)
  }

  ghost predicate Decides(db: Db, p: PipelineId, ids: set<JobId>) {
    exists rows, toSkip ::
      ListsPipeline(db, p, rows) && RowsOfKeys(rows, toSkip, Doomed(rows)) && forall id :: id in ids <==> id in toSkip
  }

  /** Step `k` ends the job without success. */
  ghost predicate EndsBadly(run: Run, k: nat, d: JobId)
    requires k < |run.steps| && |run.states| == |run.steps| + 1
  {
    && d in run.states[k].jobs && d in run.states[k + 1].jobs
    && !Unsuccessful(run.states[k].jobs[d]) && Unsuccessful(run.states[k + 1].jobs[d])
  }

  /** Among the first `n` steps the ending was attended to: a later sweep, or the ending was itself one of a
      sweep, or it cancelled whatever of the pipeline was queued. */
  ghost predicate Attended(run: Run, n: nat, k: nat, p: PipelineId, d: JobId)
    requires k < |run.steps| && |run.states| == |run.steps| + 1
  {
    || (run.steps[k].CancelQueued? && run.steps[k].pipeline == p)
    || exists l, m, ids :: Sweep(run, l, m, p, ids) && SweepAttends(n, k, d, l, m, ids)
  }

  predicate SweepAttends(n: nat, k: nat, d: JobId, l: nat, m: nat, ids: set<JobId>) {
    && (if ids == {} then m <= n else m < n)
    && (k < l || (m == k && d in ids))
  }

  ghost predicate AllAttended(run: Run, n: nat, p: PipelineId)
    requires n <= |run.steps| && |run.states| == |run.steps| + 1
  {
    forall k, d {:trigger EndsBadly(run, k, d)} ::
      0 <= k < n && EndsBadly(run, k, d) && run.states[k].jobs[d].pipeline == p ==>
      Attended(run, n, k, p, d)
  }

  /** An unsuccessful job was ended by one of the steps before. */
  lemma {:induction false} UnsuccessfulWasEnded(run: Run, n: nat, d: JobId)
    requires IsRun(run) && n <= |run.steps| && d in run.states[n].jobs && Unsuccessful(run.states[n].jobs[d])
    ensures exists k :: 0 <= k < n && EndsBadly(run, k, d)
  {
    if n > 0 {
      var db, s := run.states[n - 1], run.steps[n - 1];
      assert StepTaken(run, n - 1);
      RowAfter(db, s, d);
      if d in db.jobs && Unsuccessful(db.jobs[d]) {
        UnsuccessfulWasEnded(run, n - 1, d);
      } else {
        assert EndsBadly(run, n - 1, d);
      }
    }
  }

  /** A job that needs one which is unsuccessful at the end has not started at any time before. */
  lemma NotStarted(run: Run, i: nat, n: nat, j: JobId, d: JobId)
    requires IsRun(run) && Scheduled(run) && i <= n <= |run.steps|
    requires j in run.states[n].jobs && d in run.states[n].jobs
    requires DependsOn(run.states[n].jobs[j], run.states[n].jobs[d]) && Unsuccessful(run.states[n].jobs[d])
    ensures !HasStarted(run.states[i], j)
  {
    if HasStarted(run.states[i], j) {
      StartedWasClaimed(run, i, j);
      var c :| 0 <= c < i && ClaimedAt(run, c, j);
      DependenciesSucceeded(run, c, j, n, d);
    }
  }

  /** A job queued at the end that needs an unsuccessful one was queued ever since its pipeline was there. */
  lemma QueuedAllAlong(run: Run, i: nat, n: nat, p: PipelineId, j: JobId, d: JobId)
    requires IsRun(run) && Scheduled(run) && i <= n <= |run.steps| && p in run.states[i].pipelines
    requires InPipeline(run.states[n], p, j) && run.states[n].jobs[j].status == Queued && d in run.states[n].jobs
    requires DependsOn(run.states[n].jobs[j], run.states[n].jobs[d]) && Unsuccessful(run.states[n].jobs[d])
    ensures InPipeline(run.states[i], p, j) && run.states[i].jobs[j].status == Queued
    ensures SameIdentity(run.states[i].jobs[j], run.states[n].jobs[j])
    ensures InPipeline(run.states[i], p, d) && SameIdentity(run.states[i].jobs[d], run.states[n].jobs[d])
  {
    RunPreserves(run, i, n);
    NotStarted(run, i, n, j, d);
    assert j in run.states[i].jobs && SameIdentity(run.states[i].jobs[j], run.states[n].jobs[j]);
    assert d in run.states[i].jobs && SameIdentity(run.states[i].jobs[d], run.states[n].jobs[d]);
  }

  /** A sweep that attends to the ending of `d` leaves no dependent of it queued. */
  lemma SweepReaches(run: Run, n: nat, k: nat, p: PipelineId, j: JobId, d: JobId, l: nat, m: nat, ids: set<JobId>)
    requires IsRun(run) && Scheduled(run) && k < n <= |run.steps|
    requires EndsBadly(run, k, d) && run.states[k].jobs[d].pipeline == p
    requires Sweep(run, l, m, p, ids) && SweepAttends(n, k, d, l, m, ids)
    requires InPipeline(run.states[n], p, j) && d in run.states[n].jobs
    requires DependsOn(run.states[n].jobs[j], run.states[n].jobs[d]) && Unsuccessful(run.states[n].jobs[d])
    ensures run.states[n].jobs[j].status != Queued
  {
    if run.states[n].jobs[j].status == Queued {
      var rows, toSkip :| ListsPipeline(run.states[l], p, rows) && RowsOfKeys(rows, toSkip, Doomed(rows))
                          && forall id :: id in ids <==> id in toSkip;
      ListedAtSweep(run, k, p, d, l, m, ids, rows, toSkip);
      QueuedAllAlong(run, l, n, p, j, d);
      DependentIsSkipped(run.states[l], p, rows, toSkip, j, d);
      LinksInvariant(run, l);
      RunPreserves(run, l, m);
      QueuedAllAlong(run, m, n, p, j, d);
      SkippedForGood(run, m, n, j);
    }
  }

  /** The ended job is in the listing, unsuccessful or about to be skipped. */
  lemma ListedAtSweep(run: Run, k: nat, p: PipelineId, d: JobId, l: nat, m: nat, ids: set<JobId>, rows: seq<JobRow>,
    toSkip: seq<JobId>)
    requires IsRun(run) && k < |run.steps| && EndsBadly(run, k, d) && run.states[k].jobs[d].pipeline == p
    requires l <= m <= |run.steps| && (k < l || (m == k && d in ids))
    requires ListsPipeline(run.states[l], p, rows) && RowsOfKeys(rows, toSkip, Doomed(rows))
    requires forall id :: id in ids <==> id in toSkip
    ensures InPipeline(run.states[l], p, d) && p in run.states[l].pipelines
    ensures Unsuccessful(run.states[l].jobs[d]) || d in toSkip
  {
    LinksInvariant(run, l);
    if k < l {
      RunPreserves(run, k, k + 1);
      RunPreserves(run, k + 1, l);
    } else {
      var i :| 0 <= i < |rows| && rows[i].id == d && rows[i].job.status == Queued && rows[i].job.key in Doomed(rows);
      RunPreserves(run, l, k);
    }
  }

  lemma SkippedForGood(run: Run, m: nat, n: nat, j: JobId)
    requires IsRun(run) && m < n <= |run.steps| && run.steps[m].MarkSkipped? && j in run.steps[m].jobs
    requires j in run.states[m].jobs && run.states[m].jobs[j].status == Queued
    ensures j in run.states[n].jobs && run.states[n].jobs[j].status == Completed
  {
    assert StepTaken(run, m);
    RowAfter(run.states[m], run.steps[m], j);
    JobStays(run, m + 1, n, j);
  }

  lemma CancelledForGood(run: Run, k: nat, n: nat, p: PipelineId, j: JobId)
    requires IsRun(run) && k < n <= |run.steps| && run.steps[k].CancelQueued? && run.steps[k].pipeline == p
    requires InPipeline(run.states[k], p, j) && run.states[k].jobs[j].status == Queued
    ensures j in run.states[n].jobs && run.states[n].jobs[j].status == Completed
  {
    assert StepTaken(run, k);
    RowAfter(run.states[k], run.steps[k], j);
    JobStays(run, k + 1, n, j);
  }

  /** When every unsuccessful ending has been attended to, no queued job needs an unsuccessful one. */
  lemma EveryPipelineIsSwept(run: Run, n: nat, p: PipelineId)
    requires IsRun(run) && Scheduled(run) && n <= |run.steps| && AllAttended(run, n, p)
    ensures Swept(run.states[n], p)
  {
    var db := run.states[n];
    forall j, d | InPipeline(db, p, j) && d in db.jobs && DependsOn(db.jobs[j], db.jobs[d]) && Unsuccessful(db.jobs[d])
      ensures db.jobs[j].status != Queued
    {
      UnsuccessfulWasEnded(run, n, d);
      var k :| 0 <= k < n && EndsBadly(run, k, d);
      RunPreserves(run, k, n);
      assert SameIdentity(run.states[k].jobs[d], db.jobs[d]);
      assert Attended(run, n, k, p, d);
      DependentIsOver(run, n, k, p, j, d);
    }
  }

  lemma DependentIsOver(run: Run, n: nat, k: nat, p: PipelineId, j: JobId, d: JobId)
    requires IsRun(run) && Scheduled(run) && k < n <= |run.steps|
    requires EndsBadly(run, k, d) && run.states[k].jobs[d].pipeline == p && Attended(run, n, k, p, d)
    requires InPipeline(run.states[n], p, j) && d in run.states[n].jobs
    requires DependsOn(run.states[n].jobs[j], run.states[n].jobs[d]) && Unsuccessful(run.states[n].jobs[d])
    ensures run.states[n].jobs[j].status != Queued
  {
    if run.steps[k].CancelQueued? && run.steps[k].pipeline == p {
      if run.states[n].jobs[j].status == Queued {
        LinksInvariant(run, k);
        QueuedAllAlong(run, k, n, p, j, d);
        CancelledForGood(run, k, n, p, j);
      }
    } else {
      var l, m, ids :| Sweep(run, l, m, p, ids) && SweepAttends(n, k, d, l, m, ids);
      SweepReaches(run, n, k, p, j, d, l, m, ids);
    }
  }

  // Finalizing

  /** Step `k` ends a job of the pipeline. */
  ghost predicate EndsJobIn(run: Run, k: nat, p: PipelineId)
    requires k < |run.steps| && |run.states| == |run.steps| + 1
  {
    exists d :: EndsJob(run, k, p, d)
  }

  predicate EndsJob(run: Run, k: nat, p: PipelineId, d: JobId)
    requires k < |run.steps| && |run.states| == |run.steps| + 1
  {
    && InPipeline(run.states[k], p, d) && run.states[k].jobs[d].status != Completed
    && InPipeline(run.states[k + 1], p, d) && run.states[k + 1].jobs[d].status == Completed
  }

  /** After step `k` and among the first `n` steps: a listing, and a finalization if it shows all jobs over. */
  ghost predicate FinalizeTried(run: Run, n: nat, k: nat, p: PipelineId)
    requires n <= |run.steps| && |run.states| == |run.steps| + 1
  {
    exists l, m, rows :: k < l <= m <= n && ListsPipeline(run.states[l], p, rows) && ActsOn(run, n, m, p, rows)
  }

  predicate ActsOn(run: Run, n: nat, m: nat, p: PipelineId, rows: seq<JobRow>)
    requires n <= |run.steps|
  {
    ComputeVerdict(rows).Some? ==> m < n && run.steps[m] == Finalize(p, ComputeVerdict(rows).value)
  }

  ghost predicate AllTried(run: Run, n: nat, p: PipelineId)
    requires n <= |run.steps| && |run.states| == |run.steps| + 1
  {
    forall k {:trigger EndsJobIn(run, k, p)} :: 0 <= k < n && EndsJobIn(run, k, p) ==> FinalizeTried(run, n, k, p)
  }

  /** There are jobs, and all of them are over. */
  ghost predicate AllOver(db: Db, p: PipelineId) {
    (exists d :: InPipeline(db, p, d)) && forall d :: InPipeline(db, p, d) ==> db.jobs[d].status == Completed
  }

  /** When all jobs are over there was a last one to end. */
  lemma {:induction false} LastEnding(run: Run, n: nat, p: PipelineId) returns (k: nat)
    requires IsRun(run) && n <= |run.steps| && AllOver(run.states[n], p)
    ensures k < n && EndsJobIn(run, k, p) && AllOver(run.states[k + 1], p)
  {
    var d :| InPipeline(run.states[n], p, d);
    NoneAtFirst(run, n, d);
    k := n - 1;
    assert StepTaken(run, k);
    if AllOver(run.states[k], p) {
      k := LastEnding(run, k, p);
    } else {
      EndsLast(run.states[k], run.steps[k], p, d);
      var e :| InPipeline(run.states[k], p, e) && run.states[k].jobs[e].status != Completed;
      RowAfter(run.states[k], run.steps[k], e);
      RowStep(run.states[k], run.steps[k], e);
      assert EndsJob(run, k, p, e);
    }
  }

  lemma NoneAtFirst(run: Run, n: nat, d: JobId)
    requires IsRun(run) && n <= |run.steps| && d in run.states[n].jobs
    ensures n > 0
  {
  }

  /** A step that brings all jobs to an end ends one of them: new jobs are queued. */
  lemma EndsLast(db: Db, s: Step, p: PipelineId, d: JobId)
    requires InPipeline(Apply(db, s), p, d) && AllOver(Apply(db, s), p) && !AllOver(db, p)
    ensures exists e :: InPipeline(db, p, e) && db.jobs[e].status != Completed
  {
    RowAfter(db, s, d);
    if d in db.jobs {
      RowStep(db, s, d);
      assert InPipeline(db, p, d);
    }
  }

  lemma OverStaysOver(run: Run, i: nat, l: nat, p: PipelineId)
    requires IsRun(run) && i <= l <= |run.steps| && AllOver(run.states[i], p)
    ensures AllOver(run.states[l], p) && p in run.states[l].pipelines
  {
    LinksInvariant(run, i);
    RunPreserves(run, i, l);
    var d :| InPipeline(run.states[i], p, d);
    assert SameIdentity(run.states[i].jobs[d], run.states[l].jobs[d]) && InPipeline(run.states[l], p, d);
    forall e | InPipeline(run.states[l], p, e) ensures run.states[l].jobs[e].status == Completed {
      assert e in run.states[i].jobs && SameIdentity(run.states[i].jobs[e], run.states[l].jobs[e]);
      assert InPipeline(run.states[i], p, e);
    }
  }

  lemma OverHasVerdict(db: Db, p: PipelineId, rows: seq<JobRow>)
    requires AllOver(db, p) && ListsPipeline(db, p, rows)
    ensures ComputeVerdict(rows).Some?
  {
    var d :| InPipeline(db, p, d);
    var i :| 0 <= i < |rows| && rows[i].id == d;
    forall k | 0 <= k < |rows| ensures rows[k].job.status == Completed {
      assert InPipeline(db, p, rows[k].id);
    }
  }

  lemma FinalizedForGood(run: Run, m: nat, n: nat, p: PipelineId)
    requires IsRun(run) && m < n <= |run.steps| && run.steps[m].Finalize? && run.steps[m].pipeline == p
    requires p in run.states[m].pipelines
    ensures p in run.states[n].pipelines && run.states[n].pipelines[p].status == Completed
  {
    assert StepTaken(run, m);
    PipelineAfter(run.states[m], run.steps[m], p);
    RunPreserves(run, m + 1, n);
  }

  /** When each ending has been followed by an attempt to finalize, a pipeline whose jobs are all over is completed. */
  lemma OverIsCompleted(run: Run, n: nat, p: PipelineId)
    requires IsRun(run) && n <= |run.steps| && AllTried(run, n, p) && AllOver(run.states[n], p)
    ensures p in run.states[n].pipelines && run.states[n].pipelines[p].status == Completed
  {
    var k := LastEnding(run, n, p);
    assert FinalizeTried(run, n, k, p);
    var l, m, rows :| k < l <= m <= n && ListsPipeline(run.states[l], p, rows) && ActsOn(run, n, m, p, rows);
    OverStaysOver(run, k + 1, l, p);
    OverHasVerdict(run.states[l], p, rows);
    OverStaysOver(run, l, m, p);
    FinalizedForGood(run, m, n, p);
  }

  // Progress

  /** Whenever no ending is unattended, a pipeline with acyclic needs is completed, or has a job in progress,
      or has one the scheduler can claim. */
  lemma NeverStalls(run: Run, n: nat, p: PipelineId, rank: map<string, nat>)
    requires IsRun(run) && Scheduled(run) && n <= |run.steps|
    requires AllAttended(run, n, p) && AllTried(run, n, p) && Acyclic(run.states[n], p, rank)
    requires exists d :: InPipeline(run.states[n], p, d)
    ensures var db := run.states[n];
      || (p in db.pipelines && db.pipelines[p].status == Completed)
      || !NothingRunning(db, p)
      || exists id :: InPipeline(db, p, id) && Eligible(db, id)
  {
    var db := run.states[n];
    LinksInvariant(run, n);
    ConclusionsInvariant(run, n);
    EveryPipelineIsSwept(run, n, p);
    if AllOver(db, p) {
      OverIsCompleted(run, n, p);
    } else if p in db.pipelines && db.pipelines[p].status != Completed && NothingRunning(db, p) {
      NeverStuck(db, p, rank);
    }
  }
}
