/** What the conclusion of a finished pipeline says about its jobs. */
module Outcomes {
  import opened Options
  import opened JobProtocol
  import opened Lifecycle
  import opened StartOrder
  import opened PipelineProgress
  import opened Settling
  import JobHistory

  // One listing

  /** The conclusions among the rows of a listing. */
  function Conclusions(rows: seq<JobRow>): set<Conclusion> {
    set i | 0 <= i < |rows| && rows[i].job.conclusion.Some? :: rows[i].job.conclusion.value
  }

  /** The rows are all over, and there are some. */
  predicate Settled(rows: seq<JobRow>) {
    rows != [] && forall i :: 0 <= i < |rows| ==> rows[i].job.status == Completed && rows[i].job.conclusion.Some?
  }

  /** What a verdict says about the conclusions of the jobs. */
  predicate Says(v: Verdict, found: set<Conclusion>) {
    match v
    case Passed => found <= {Success, Skipped}
    case Failed => Failure in found && found <= {Failure, Skipped}
    case Partial => {Failure, Success} <= found <= {Failure, Success, Skipped}
    case WasTimedOut => TimedOut in found && Cancelled !in found
    case WasCancelled => Cancelled in found
  }

  lemma OnlyFive(found: set<Conclusion>)
    ensures found <= {Success, Failure, Cancelled, TimedOut, Skipped}
  {
    forall c | c in found ensures c in {Success, Failure, Cancelled, TimedOut, Skipped} {
      match c case Success => case Failure => case Cancelled => case TimedOut => case Skipped =>
    }
  }

  /** There is a verdict iff the rows are all over, and it is the only one that fits their conclusions. */
  lemma VerdictMeans(rows: seq<JobRow>, v: Verdict)
    requires forall i :: 0 <= i < |rows| ==> (rows[i].job.status == Completed <==> rows[i].job.conclusion.Some?)
    ensures ComputeVerdict(rows).Some? <==> Settled(rows)
    ensures Settled(rows) ==> (ComputeVerdict(rows) == Some(v) <==> Says(v, Conclusions(rows)))
  {
    var found := Conclusions(rows);
    forall c ensures HasConclusion(rows, c) <==> c in found {}
    OnlyFive(found);
    if Settled(rows) {
      assert rows[0].job.conclusion.value in found;
    }
  }

  // Runs

  /** The conclusions of a pipeline's jobs as they stand. */
  function Found(db: Db, p: PipelineId): set<Conclusion> {
    set id | id in db.jobs && db.jobs[id].pipeline == p && db.jobs[id].conclusion.Some? :: db.jobs[id].conclusion.value
  }

  lemma ListedConclusions(db: Db, p: PipelineId, rows: seq<JobRow>)
    requires ListsPipeline(db, p, rows)
    ensures Conclusions(rows) == Found(db, p)
  {
    forall c | c in Conclusions(rows) ensures c in Found(db, p) {
      var i :| 0 <= i < |rows| && rows[i].job.conclusion == Some(c);
      assert InPipeline(db, p, rows[i].id);
    }
    forall c | c in Found(db, p) ensures c in Conclusions(rows) {
      var id :| id in db.jobs && db.jobs[id].pipeline == p && db.jobs[id].conclusion == Some(c);
      assert InPipeline(db, p, id);
      var i :| 0 <= i < |rows| && rows[i].id == id;
    }
  }

  /** A completed pipeline has jobs, all of them over, and its verdict says what they ended in. */
  lemma CompletedPipelineMeans(run: Run, n: nat, p: PipelineId)
    requires IsRun(run) && VerdictsComputed(run) && n <= |run.steps|
    requires p in run.states[n].pipelines && run.states[n].pipelines[p].status == Completed
    ensures AllOver(run.states[n], p)
    ensures run.states[n].pipelines[p].verdict.Some?
    ensures Says(run.states[n].pipelines[p].verdict.value, Found(run.states[n], p))
  {
    var db := run.states[n];
    CompletedPipelineIsOver(run, n, p);
    var rows: seq<JobRow>, v :| VerdictAt(db, p, rows, v) && db.pipelines[p].verdict == Some(v);
    ConclusionsInvariant(run, n);
    VerdictMeans(rows, v);
    ListedConclusions(db, p, rows);
    assert InPipeline(db, p, rows[0].id);
    forall d | InPipeline(db, p, d) ensures db.jobs[d].status == Completed {
      var i :| 0 <= i < |rows| && rows[i].id == d;
    }
  }

  /** Jobs are skipped by sweeps alone: no runner and no forced ending reports one as skipped. */
  ghost predicate SkipsAreSwept(run: Run)
    requires |run.states| == |run.steps| + 1
  {
    && (forall k :: 0 <= k < |run.steps| && run.steps[k].MarkSkipped? ==> WasDecided(run, k, run.steps[k].jobs))
    && (forall k :: 0 <= k < |run.steps| && run.steps[k].FinishFromRunner? ==> run.steps[k].conclusion != Skipped)
    && (forall k :: 0 <= k < |run.steps| && run.steps[k].ForceFinish? ==> run.steps[k].conclusion != Skipped)
  }

  ghost predicate WasDecided(run: Run, k: nat, ids: set<JobId>)
    requires k < |run.states|
  {
    exists l, p :: 0 <= l <= k && Decides(run.states[l], p, ids)
  }

  /** Some job of the pipeline failed, was cancelled, or ran out of time. */
  ghost predicate HasCulprit(db: Db, p: PipelineId) {
    exists d :: InPipeline(db, p, d) && Culpable(db.jobs[d])
  }

  predicate Culpable(j: Job) {
    j.conclusion == Some(Failure) || j.conclusion == Some(Cancelled) || j.conclusion == Some(TimedOut)
  }

  /** A sweep that skips anything has found an unsuccessful job. */
  lemma SweepFoundOne(rows: seq<JobRow>, key: string)
    requires key in Doomed(rows)
    ensures exists i :: 0 <= i < |rows| && Unsuccessful(rows[i].job)
  {
    if forall i :: 0 <= i < |rows| ==> !Unsuccessful(rows[i].job) {
      assert DoomClosed(rows, {});
    }
  }

  lemma WasSkippedBySweep(run: Run, n: nat, id: JobId) returns (k: nat, l: nat, p: PipelineId, ids: set<JobId>)
    requires IsRun(run) && SkipsAreSwept(run) && n <= |run.steps|
    requires id in run.states[n].jobs && run.states[n].jobs[id].conclusion == Some(Skipped)
    ensures l <= k < n && id in ids && Decides(run.states[l], p, ids)
  {
    ConclusionsInvariant(run, n);
    k := JobHistory.CompletedWasEnded(run, n, id);
    assert run.steps[k].MarkSkipped? && WasDecided(run, k, run.steps[k].jobs);
    ids := run.steps[k].jobs;
    l, p :| 0 <= l <= k && Decides(run.states[l], p, ids);
  }

  /** The unsuccessful job that a decision to skip `id` found, in the same pipeline. */
  lemma FoundBySweep(db: Db, p: PipelineId, ids: set<JobId>, id: JobId) returns (d: JobId)
    requires Decides(db, p, ids) && id in ids
    ensures InPipeline(db, p, id) && InPipeline(db, p, d) && Unsuccessful(db.jobs[d])
  {
    var rows: seq<JobRow>, toSkip: seq<JobId> :|
      ListsPipeline(db, p, rows) && RowsOfKeys(rows, toSkip, Doomed(rows)) && forall i :: i in ids <==> i in toSkip;
    assert id in toSkip;
    var i :| 0 <= i < |rows| && rows[i].id == id && rows[i].job.status == Queued && rows[i].job.key in Doomed(rows);
    SweepFoundOne(rows, rows[i].job.key);
    var k :| 0 <= k < |rows| && Unsuccessful(rows[k].job);
    d := rows[k].id;
  }

  lemma CulpritStays(run: Run, l: nat, n: nat, p: PipelineId)
    requires IsRun(run) && l <= n <= |run.steps| && HasCulprit(run.states[l], p)
    ensures HasCulprit(run.states[n], p)
  {
    var d :| InPipeline(run.states[l], p, d) && Culpable(run.states[l].jobs[d]);
    ConclusionsInvariant(run, l);
    RunPreserves(run, l, n);
    assert InPipeline(run.states[n], p, d);
  }

  /** Nothing is skipped without a reason: behind a skipped job there is one of its pipeline that failed, was
      cancelled, or ran out of time. */
  lemma {:induction false} SkippedHasCulprit(run: Run, n: nat, id: JobId)
    requires IsRun(run) && SkipsAreSwept(run) && n <= |run.steps|
    requires id in run.states[n].jobs && run.states[n].jobs[id].conclusion == Some(Skipped)
    ensures HasCulprit(run.states[n], run.states[n].jobs[id].pipeline)
  {
    var k, l, p, ids := WasSkippedBySweep(run, n, id);
    var d := FoundBySweep(run.states[l], p, ids, id);
    RunPreserves(run, l, n);
    assert SameIdentity(run.states[l].jobs[id], run.states[n].jobs[id]);
    ConclusionsInvariant(run, l);
    if run.states[l].jobs[d].conclusion == Some(Skipped) {
      SkippedHasCulprit(run, l, d);
    } else {
      NotSkippedIsCulpable(run.states[l].jobs[d]);
    }
    CulpritStays(run, l, n, p);
  }

  lemma NotSkippedIsCulpable(j: Job)
    requires j.conclusion.Some? && j.conclusion != Some(Success) && j.conclusion != Some(Skipped)
    ensures Culpable(j)
  {
    match j.conclusion.value case Success => case Failure => case Cancelled => case TimedOut => case Skipped =>
  }

  /** A pipeline is completed as passed iff each of its jobs succeeded; and then each of them was claimed. */
  lemma PassedIffAllSucceeded(run: Run, n: nat, p: PipelineId)
    requires IsRun(run) && VerdictsComputed(run) && SkipsAreSwept(run) && n <= |run.steps|
    requires p in run.states[n].pipelines && run.states[n].pipelines[p].status == Completed
    ensures run.states[n].pipelines[p].verdict == Some(Passed) <==>
      forall id :: InPipeline(run.states[n], p, id) ==> run.states[n].jobs[id].conclusion == Some(Success)
    ensures run.states[n].pipelines[p].verdict == Some(Passed) && Scheduled(run) ==>
      forall id :: InPipeline(run.states[n], p, id) ==> exists c :: 0 <= c < n && ClaimedAt(run, c, id)
  {
    var db := run.states[n];
    CompletedPipelineMeans(run, n, p);
    ConclusionsInvariant(run, n);
    AllSucceeded(db, p);
    if db.pipelines[p].verdict == Some(Passed) {
      forall id | InPipeline(db, p, id)
        ensures db.jobs[id].conclusion == Some(Success)
        ensures Scheduled(run) ==> exists c :: 0 <= c < n && ClaimedAt(run, c, id)
      {
        PassedJob(run, n, p, id);
        if Scheduled(run) {
          StartedWasClaimed(run, n, id);
        }
      }
    }
  }

  lemma PassedJob(run: Run, n: nat, p: PipelineId, id: JobId)
    requires IsRun(run) && SkipsAreSwept(run) && n <= |run.steps| && Found(run.states[n], p) <= {Success, Skipped}
    requires InPipeline(run.states[n], p, id) && run.states[n].jobs[id].conclusion.Some?
    ensures run.states[n].jobs[id].conclusion == Some(Success)
  {
    var db := run.states[n];
    assert db.jobs[id].conclusion.value in Found(db, p);
    NoCulprit(db, p);
    if db.jobs[id].conclusion == Some(Skipped) {
      SkippedHasCulprit(run, n, id);
    }
  }

  lemma NoCulprit(db: Db, p: PipelineId)
    requires Found(db, p) <= {Success, Skipped}
    ensures !HasCulprit(db, p)
  {
    forall d | InPipeline(db, p, d) ensures !Culpable(db.jobs[d]) {
      if db.jobs[d].conclusion.Some? {
        assert db.jobs[d].conclusion.value in Found(db, p);
      }
    }
  }

  lemma AllSucceeded(db: Db, p: PipelineId)
    ensures (forall id :: InPipeline(db, p, id) ==> db.jobs[id].conclusion == Some(Success)) ==>
      Found(db, p) <= {Success}
  {
    if c :| c in Found(db, p) && c != Success {
      var id :| id in db.jobs && db.jobs[id].pipeline == p && db.jobs[id].conclusion == Some(c);
      assert InPipeline(db, p, id);
    }
  }
}
