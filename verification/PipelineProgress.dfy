/** Skipping the dependents of failed jobs, why a pipeline then never waits for
    nothing, and the verdict it is finalized with. */
module PipelineProgress {
  import opened Options
  import opened JobProtocol
  import opened Lifecycle
  import opened StartOrder
  import opened OrderedScan

  datatype JobRow = JobRow(id: JobId, job: Job)

  predicate Unsuccessful(j: Job) {
    j.status == Completed && j.conclusion != Some(Success)
  }

  predicate NeedsAnyOf(j: Job, keys: set<string>) {
    exists need :: need in j.needs && need in keys
  }

  /** `keys` holds every unsuccessful key and every queued job that needs one of `keys`. */
  predicate DoomClosed(rows: seq<JobRow>, keys: set<string>) {
    && (forall i :: 0 <= i < |rows| && Unsuccessful(rows[i].job) ==> rows[i].job.key in keys)
    && (forall i :: 0 <= i < |rows| && rows[i].job.status == Queued && NeedsAnyOf(rows[i].job, keys) ==>
        rows[i].job.key in keys)
  }

  function Keys(rows: seq<JobRow>): set<string> {
    set i | 0 <= i < |rows| :: rows[i].job.key
  }

  /** The keys that can never succeed: the least closed set. */
  ghost function Doomed(rows: seq<JobRow>): set<string> {
    set key | key in Keys(rows) && forall keys :: DoomClosed(rows, keys) ==> key in keys
  }

  lemma DoomedIsClosed(rows: seq<JobRow>)
    ensures DoomClosed(rows, Doomed(rows))
  {
    forall i | 0 <= i < |rows|
      && (Unsuccessful(rows[i].job) || (rows[i].job.status == Queued && NeedsAnyOf(rows[i].job, Doomed(rows))))
      ensures rows[i].job.key in Doomed(rows)
    {
      assert rows[i].job.key in Keys(rows);
      forall keys | DoomClosed(rows, keys)
        ensures rows[i].job.key in keys
      {
        if !Unsuccessful(rows[i].job) {
          var need :| need in rows[i].job.needs && need in Doomed(rows);
          assert need in keys;
        }
      }
    }
  }

  predicate DistinctKeys(rows: seq<JobRow>) {
    forall i, j :: 0 <= i < |rows| && 0 <= j < |rows| && rows[i].job.key == rows[j].job.key ==> i == j
  }

  predicate RowsOfKeys(rows: seq<JobRow>, ids: seq<JobId>, keys: set<string>) {
    && (forall id :: id in ids ==> exists i ::
        0 <= i < |rows| && rows[i].id == id && rows[i].job.status == Queued && rows[i].job.key in keys)
    && (forall i :: 0 <= i < |rows| && rows[i].job.status == Queued && rows[i].job.key in keys ==> rows[i].id in ids)
  }

  /** Every closed set contains these keys. */
  ghost predicate IsLeast(rows: seq<JobRow>, doomed: set<string>) {
    forall keys {:trigger DoomClosed(rows, keys)} :: DoomClosed(rows, keys) ==> doomed <= keys
  }

  lemma StaysLeast(rows: seq<JobRow>, doomed: set<string>, k: nat)
    requires k < |rows| && IsLeast(rows, doomed) && rows[k].job.status == Queued && NeedsAnyOf(rows[k].job, doomed)
    ensures IsLeast(rows, doomed + {rows[k].job.key})
  {
    forall keys | DoomClosed(rows, keys) ensures doomed + {rows[k].job.key} <= keys {
      var need :| need in rows[k].job.needs && need in doomed;
      assert NeedsAnyOf(rows[k].job, keys);
    }
  }

  lemma SkipOneMore(rows: seq<JobRow>, ids: seq<JobId>, keys: set<string>, k: nat)
    requires k < |rows| && DistinctKeys(rows) && RowsOfKeys(rows, ids, keys)
    requires rows[k].job.status == Queued && rows[k].job.key !in keys
    ensures RowsOfKeys(rows, ids + [rows[k].id], keys + {rows[k].job.key})
  {
    var more := ids + [rows[k].id];
    forall id | id in more
      ensures exists i ::
        && 0 <= i < |rows| && rows[i].id == id && rows[i].job.status == Queued
        && rows[i].job.key in keys + {rows[k].job.key}
    {
      if id in ids {
        var i :| 0 <= i < |rows| && rows[i].id == id && rows[i].job.status == Queued && rows[i].job.key in keys;
        assert rows[i].job.key in keys + {rows[k].job.key};
      }
    }
  }

  /** The fixpoint loop: the ids returned are exactly the queued rows whose key is doomed. */
  method FindDependentsToSkip(rows: seq<JobRow>) returns (toSkip: seq<JobId>)
    requires DistinctKeys(rows)
    ensures RowsOfKeys(rows, toSkip, Doomed(rows))
  {
    var doomed := set i | 0 <= i < |rows| && Unsuccessful(rows[i].job) :: rows[i].job.key;
    toSkip := [];
    while true
      invariant doomed <= Keys(rows)
      invariant forall i :: 0 <= i < |rows| && Unsuccessful(rows[i].job) ==> rows[i].job.key in doomed
      invariant IsLeast(rows, doomed)
      invariant RowsOfKeys(rows, toSkip, doomed)
      decreases Keys(rows) - doomed
    {
      ghost var before := doomed;
      var changed := false;
      for k := 0 to |rows|
        invariant before <= doomed <= Keys(rows)
        invariant forall i :: 0 <= i < |rows| && Unsuccessful(rows[i].job) ==> rows[i].job.key in doomed
        invariant IsLeast(rows, doomed)
        invariant RowsOfKeys(rows, toSkip, doomed)
        invariant changed <==> doomed != before
        invariant !changed ==>
          forall i :: 0 <= i < k && rows[i].job.status == Queued && NeedsAnyOf(rows[i].job, doomed) ==>
            rows[i].job.key in doomed
      {
        var j := rows[k].job;
        if j.status != Queued || j.key in doomed {
          continue;
        }
        if exists need :: need in j.needs && need in doomed {
          assert NeedsAnyOf(j, doomed);
          assert j.key in Keys(rows);
          SkipOneMore(rows, toSkip, doomed, k);
          StaysLeast(rows, doomed, k);
          doomed := doomed + {j.key};
          toSkip := toSkip + [rows[k].id];
          changed := true;
        }
      }
      if !changed {
        break;
      }
    }
    assert DoomClosed(rows, doomed);
    DoomedIsClosed(rows);
    assert doomed == Doomed(rows);
  }

  // Progress

  predicate InPipeline(db: Db, p: PipelineId, id: JobId) {
    id in db.jobs && db.jobs[id].pipeline == p
  }

  /** `rows` is what `list_for_pipeline` returns, in any order. */
  ghost predicate ListsPipeline(db: Db, p: PipelineId, rows: seq<JobRow>) {
    && (forall i :: 0 <= i < |rows| ==> InPipeline(db, p, rows[i].id) && db.jobs[rows[i].id] == rows[i].job)
    && (forall id :: InPipeline(db, p, id) ==> exists i :: 0 <= i < |rows| && rows[i].id == id)
    && (forall i, j :: 0 <= i < j < |rows| ==> rows[i].id != rows[j].id)
  }

  function IdsOf(db: Db, p: PipelineId): set<int> { set id | id in db.jobs && db.jobs[id].pipeline == p :: id as int }

  /** The rows of a pipeline, listed once each. */
  function Listing(db: Db, p: PipelineId): seq<JobRow> {
    var ids := Scan(Increasing, IdsOf(db, p));
    ScanLists(Increasing, IdsOf(db, p));
    seq(|ids|, i requires 0 <= i < |ids| =>
      assert ids[i] in IdsOf(db, p);
      JobRow(ids[i], db.jobs[ids[i]]))
  }

  lemma ListingLists(db: Db, p: PipelineId)
    ensures ListsPipeline(db, p, Listing(db, p))
  {
    var ids, rows := Scan(Increasing, IdsOf(db, p)), Listing(db, p);
    ScanLists(Increasing, IdsOf(db, p));
    forall i | 0 <= i < |rows| ensures InPipeline(db, p, rows[i].id) && db.jobs[rows[i].id] == rows[i].job {
      assert ids[i] in IdsOf(db, p);
    }
    forall id | InPipeline(db, p, id) ensures exists i :: 0 <= i < |rows| && rows[i].id == id {
      assert id in IdsOf(db, p);
      var i :| 0 <= i < |ids| && ids[i] == id;
      assert rows[i].id == id;
    }
    forall i, j | 0 <= i < j < |rows| ensures rows[i].id != rows[j].id {
      assert Increasing(ids[i], ids[j]);
    }
  }

  /** The unique key makes the loop's rows differ in their keys. */
  lemma ListedKeysDiffer(db: Db, p: PipelineId, rows: seq<JobRow>)
    requires TablesLinked(db) && ListsPipeline(db, p, rows)
    ensures DistinctKeys(rows)
  {
    forall i, j | 0 <= i < |rows| && 0 <= j < |rows| && rows[i].job.key == rows[j].job.key ensures i == j {
      assert InPipeline(db, p, rows[i].id) && InPipeline(db, p, rows[j].id);
      assert SameSlot(db.jobs[rows[i].id], db.jobs[rows[j].id]);
    }
  }

  function WaitingJobs(db: Db, p: PipelineId): set<JobId> {
    set id | id in db.jobs && db.jobs[id].pipeline == p && db.jobs[id].status == Queued
  }

  ghost predicate NothingRunning(db: Db, p: PipelineId) {
    forall id :: InPipeline(db, p, id) ==> db.jobs[id].status != InProgress
  }

  /** No queued job of the pipeline needs an unsuccessful one. */
  ghost predicate Swept(db: Db, p: PipelineId) {
    forall j, d :: InPipeline(db, p, j) && d in db.jobs && db.jobs[j].status == Queued
      && DependsOn(db.jobs[j], db.jobs[d])
      ==> !Unsuccessful(db.jobs[d])
  }

  /** A doomed key is unsuccessful already or is skipped now; what needs it is skipped too. */
  lemma DependentIsSkipped(db: Db, p: PipelineId, rows: seq<JobRow>, toSkip: seq<JobId>, j: JobId, d: JobId)
    requires ListsPipeline(db, p, rows) && RowsOfKeys(rows, toSkip, Doomed(rows))
    requires InPipeline(db, p, j) && InPipeline(db, p, d) && db.jobs[j].status == Queued
      && DependsOn(db.jobs[j], db.jobs[d])
    requires Unsuccessful(db.jobs[d]) || d in toSkip
    ensures j in toSkip
  {
    DoomedIsClosed(rows);
    var jr :| 0 <= jr < |rows| && rows[jr].id == j;
    var dr :| 0 <= dr < |rows| && rows[dr].id == d;
    assert rows[dr].job.key in Doomed(rows);
    assert NeedsAnyOf(rows[jr].job, Doomed(rows));
  }

  lemma SkippedRow(db: Db, ids: set<JobId>, now: Time, id: JobId)
    requires id in db.jobs
    ensures var next := Apply(db, MarkSkipped(ids, now));
      id in next.jobs && SameIdentity(db.jobs[id], next.jobs[id])
      && (next.jobs[id].status == Queued ==> db.jobs[id].status == Queued && id !in ids)
      && (Unsuccessful(next.jobs[id]) ==> Unsuccessful(db.jobs[id]) || id in ids)
  {}

  /** The listing is read in one statement and the rows are skipped in a later one. What is then still queued and
      needs an unsuccessful job was not queued at the listing, or needs a job that ended after it. */
  lemma SkippingLeaves(before: Db, db: Db, p: PipelineId, rows: seq<JobRow>, toSkip: seq<JobId>, ids: set<JobId>,
    now: Time, j: JobId, d: JobId)
    requires ListsPipeline(before, p, rows) && RowsOfKeys(rows, toSkip, Doomed(rows))
      && (p in before.pipelines || before == db)
    requires (forall id :: id in ids <==> id in toSkip) && Preserves(before, db)
    requires var next := Apply(db, MarkSkipped(ids, now));
      InPipeline(next, p, j) && d in next.jobs && next.jobs[j].status == Queued && DependsOn(next.jobs[j], next.jobs[d])
      && Unsuccessful(next.jobs[d])
    ensures j in before.jobs && d in before.jobs
    ensures before.jobs[j].status == Queued ==> !Unsuccessful(before.jobs[d]) && Unsuccessful(db.jobs[d])
  {
    RowAfter(db, MarkSkipped(ids, now), j);
    RowAfter(db, MarkSkipped(ids, now), d);
    SkippedRow(db, ids, now, j);
    SkippedRow(db, ids, now, d);
    assert SameIdentity(before.jobs[j], db.jobs[j]) && SameIdentity(before.jobs[d], db.jobs[d]);
    if before.jobs[j].status == Queued && (Unsuccessful(before.jobs[d]) || d in toSkip) {
      DependentIsSkipped(before, p, rows, toSkip, j, d);
    }
  }

  /** When nothing happens in between, the update sweeps the pipeline. */
  lemma SkippingSweeps(db: Db, p: PipelineId, rows: seq<JobRow>, toSkip: seq<JobId>, ids: set<JobId>, now: Time)
    requires ListsPipeline(db, p, rows) && RowsOfKeys(rows, toSkip, Doomed(rows))
    requires forall id :: id in ids <==> id in toSkip
    ensures Swept(Apply(db, MarkSkipped(ids, now)), p)
  {
    var next := Apply(db, MarkSkipped(ids, now));
    forall j, d | InPipeline(next, p, j) && d in next.jobs && next.jobs[j].status == Queued
      && DependsOn(next.jobs[j], next.jobs[d])
      ensures !Unsuccessful(next.jobs[d])
    {
      RowAfter(db, MarkSkipped(ids, now), j);
      SkippedRow(db, ids, now, j);
      if Unsuccessful(next.jobs[d]) {
        SkippingLeaves(db, db, p, rows, toSkip, ids, now, j, d);
        RowAfter(db, MarkSkipped(ids, now), d);
        SkippedRow(db, ids, now, d);
      }
    }
  }

  /** In a swept pipeline with nothing running, the scheduler finds no job
      exactly when every waiting job needs another waiting job. */
  lemma StuckIffNeedsItself(db: Db, p: PipelineId)
    requires TablesLinked(db) && ConclusionsOk(db) && NothingRunning(db, p) && Swept(db, p)
    requires p in db.pipelines && db.pipelines[p].status != Completed
    ensures (forall id :: InPipeline(db, p, id) ==> !Eligible(db, id)) <==> NeedsItself(db, WaitingJobs(db, p))
  {
    var waiting := WaitingJobs(db, p);
    forall id | id in waiting
      ensures Eligible(db, id) <==> !NeedsOneOf(db, id, waiting)
    {
      forall d | d in db.jobs && DependsOn(db.jobs[id], db.jobs[d])
        ensures db.jobs[d].conclusion == Some(Success) <==> d !in waiting
      {
        assert InPipeline(db, p, id) && InPipeline(db, p, d);
      }
    }
    if NeedsItself(db, waiting) {
      forall id | InPipeline(db, p, id) ensures !Eligible(db, id) {
        assert id in waiting ==> NeedsOneOf(db, id, waiting);
      }
    }
  }

  /** `rank` orders the keys so that each job needs only lower ones. */
  ghost predicate Acyclic(db: Db, p: PipelineId, rank: map<string, nat>) {
    && (forall id :: InPipeline(db, p, id) ==> db.jobs[id].key in rank)
    && (forall j, d :: InPipeline(db, p, j) && InPipeline(db, p, d) && DependsOn(db.jobs[j], db.jobs[d])
          ==> rank[db.jobs[d].key] < rank[db.jobs[j].key])
  }

  /** Acyclic needs admit no self-needing set but the empty one. */
  lemma {:induction false} AcyclicIsWellFounded(db: Db, p: PipelineId, rank: map<string, nat>, waiting: set<JobId>,
    id: JobId)
    requires Acyclic(db, p, rank) && NeedsItself(db, waiting)
    requires forall j :: j in waiting ==> InPipeline(db, p, j)
    ensures id !in waiting
    decreases if InPipeline(db, p, id) then rank[db.jobs[id].key] else 0
  {
    if id in waiting {
      assert NeedsOneOf(db, id, waiting);
      var d :| d in waiting && d in db.jobs && DependsOn(db.jobs[id], db.jobs[d]);
      AcyclicIsWellFounded(db, p, rank, waiting, d);
    }
  }

  /** A pipeline with acyclic needs never waits for nothing: after a sweep, with
      nothing running, either every job is completed or some job is eligible. */
  lemma NeverStuck(db: Db, p: PipelineId, rank: map<string, nat>)
    requires TablesLinked(db) && ConclusionsOk(db) && NothingRunning(db, p) && Swept(db, p) && Acyclic(db, p, rank)
    requires p in db.pipelines && db.pipelines[p].status != Completed
    ensures (forall id :: InPipeline(db, p, id) ==> db.jobs[id].status == Completed)
         || exists id :: InPipeline(db, p, id) && Eligible(db, id)
  {
    var waiting := WaitingJobs(db, p);
    StuckIffNeedsItself(db, p);
    if NeedsItself(db, waiting) {
      forall id | InPipeline(db, p, id) ensures db.jobs[id].status == Completed {
        AcyclicIsWellFounded(db, p, rank, waiting, id);
      }
    }
  }

  // The verdict

  function ComputeVerdict(rows: seq<JobRow>): Option<Verdict> {
    if rows == [] || exists i :: 0 <= i < |rows| && rows[i].job.status != Completed then None
    else if HasConclusion(rows, Cancelled) then Some(WasCancelled)
    else if HasConclusion(rows, TimedOut) then Some(WasTimedOut)
    else if HasConclusion(rows, Failure) && HasConclusion(rows, Success) then Some(Partial)
    else if HasConclusion(rows, Failure) then Some(Failed)
    else Some(Passed)
  }

  predicate HasConclusion(rows: seq<JobRow>, c: Conclusion) {
    exists i :: 0 <= i < |rows| && rows[i].job.conclusion == Some(c)
  }

  /** The verdict does not depend on the order in which the rows are listed. */
  lemma VerdictIgnoresOrder(db: Db, p: PipelineId, a: seq<JobRow>, b: seq<JobRow>)
    requires ListsPipeline(db, p, a) && ListsPipeline(db, p, b)
    ensures ComputeVerdict(a) == ComputeVerdict(b)
  {
    SameRows(db, p, a, b);
    SameRows(db, p, b, a);
    if a != [] { assert InPipeline(db, p, a[0].id); }
    if b != [] { assert InPipeline(db, p, b[0].id); }
    forall c ensures HasConclusion(a, c) <==> HasConclusion(b, c) {}
  }

  lemma SameRows(db: Db, p: PipelineId, a: seq<JobRow>, b: seq<JobRow>)
    requires ListsPipeline(db, p, a) && ListsPipeline(db, p, b)
    ensures forall i :: 0 <= i < |a| ==> a[i] in b
  {
    forall i | 0 <= i < |a| ensures a[i] in b {
      assert InPipeline(db, p, a[i].id);
      var j :| 0 <= j < |b| && b[j].id == a[i].id;
      assert b[j] == a[i];
    }
  }

  /** Each finalization uses a verdict computed from some earlier listing. */
  ghost predicate VerdictsComputed(run: Run)
    requires |run.states| == |run.steps| + 1
  {
    forall k :: 0 <= k < |run.steps| && run.steps[k].Finalize? ==>
      VerdictReadBy(run, k, run.steps[k].pipeline, run.steps[k].verdict)
  }

  ghost predicate VerdictReadBy(run: Run, k: nat, p: PipelineId, v: Verdict)
    requires k < |run.states|
  {
    exists i, rows :: 0 <= i <= k && p in run.states[i].pipelines && VerdictAt(run.states[i], p, rows, v)
  }

  ghost predicate VerdictAt(db: Db, p: PipelineId, rows: seq<JobRow>, v: Verdict) {
    ListsPipeline(db, p, rows) && ComputeVerdict(rows) == Some(v)
  }

  /** A verdict once computed stays the right one. */
  lemma VerdictIsStable(before: Db, after: Db, p: PipelineId, rows: seq<JobRow>, v: Verdict)
    requires Preserves(before, after) && p in before.pipelines && VerdictAt(before, p, rows, v)
    ensures VerdictAt(after, p, rows, v)
  {
    forall id | InPipeline(after, p, id) ensures exists i :: 0 <= i < |rows| && rows[i].id == id {
      assert id in before.jobs && SameIdentity(before.jobs[id], after.jobs[id]);
      assert InPipeline(before, p, id);
    }
  }

  /** A completed pipeline carries the verdict of its jobs as they now stand,
      and they are all completed, however stale the read behind it was. */
  lemma {:induction false} CompletedPipelineIsOver(run: Run, k: nat, p: PipelineId)
    requires IsRun(run) && VerdictsComputed(run) && k <= |run.steps|
    requires p in run.states[k].pipelines && run.states[k].pipelines[p].status == Completed
    ensures exists rows, v :: VerdictAt(run.states[k], p, rows, v) && run.states[k].pipelines[p].verdict == Some(v)
  {
    if k > 0 {
      assert StepTaken(run, k - 1);
      var before, after, s := run.states[k - 1], run.states[k], run.steps[k - 1];
      if p in before.pipelines && before.pipelines[p].status == Completed {
        CompletedPipelineIsOver(run, k - 1, p);
        var rows, v :| VerdictAt(before, p, rows, v) && before.pipelines[p].verdict == Some(v);
        RunPreserves(run, k - 1, k);
        VerdictIsStable(before, after, p, rows, v);
      } else {
        OnlyFinalizeCompletes(before, s, p);
        assert VerdictReadBy(run, k - 1, p, s.verdict);
        var i, rows :| 0 <= i <= k - 1 && p in run.states[i].pipelines && VerdictAt(run.states[i], p, rows, s.verdict);
        RunPreserves(run, i, k);
        VerdictIsStable(run.states[i], after, p, rows, s.verdict);
      }
    }
  }

  lemma OnlyFinalizeCompletes(db: Db, s: Step, p: PipelineId)
    requires p in Apply(db, s).pipelines && Apply(db, s).pipelines[p].status == Completed
    requires !(p in db.pipelines && db.pipelines[p].status == Completed)
    ensures s.Finalize? && s.pipeline == p && Apply(db, s).pipelines[p].verdict == Some(s.verdict)
  {}
}
