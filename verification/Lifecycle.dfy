/** What every step keeps about a job row, and what no later step can change. */
module Lifecycle {
  import opened Options
  import opened JobProtocol

  /** Stage names a runner may report: the message handler drops the first and the last. */
  predicate Reportable(stage: Stage) {
    stage != AtQueue && stage != Done
  }

  predicate Filtered(s: Step) {
    s.SetStage? ==> Reportable(s.stage)
  }

  predicate AllFiltered(steps: seq<Step>) {
    forall k :: 0 <= k < |steps| ==> Filtered(steps[k])
  }

  predicate RowOk(j: Job) {
    && (j.status == Queued <==> j.stage == AtQueue)
    && (j.status == Queued ==> j.runner == None && j.assignedAt == None)
    && (j.status == InProgress ==> j.runner.Some? && j.assignedAt.Some?)
    && (j.status == Completed <==> j.stage == Done)
    && (j.status == Completed <==> j.conclusion.Some?)
    && (j.status == Completed <==> j.finishedAt.Some?)
    && 1 <= j.attempt <= 2
  }

  predicate LifecycleOk(db: Db) {
    forall id :: id in db.jobs ==> RowOk(db.jobs[id])
  }

  lemma StepKeepsRow(db: Db, s: Step, id: JobId)
    requires id in db.jobs && RowOk(db.jobs[id])
    requires Filtered(s)
    ensures RowOk(NextRow(db, s, id, db.jobs[id]))
  {
  }

  lemma StepKeepsLifecycle(db: Db, s: Step)
    requires LifecycleOk(db) && Filtered(s)
    ensures LifecycleOk(Apply(db, s))
  {
    forall id | id in Apply(db, s).jobs
      ensures RowOk(Apply(db, s).jobs[id])
    {
      if id in db.jobs { StepKeepsRow(db, s, id); }
    }
  }

  /** Every reachable state satisfies the lifecycle invariant. */
  lemma {:induction false} LifecycleInvariant(run: Run, k: nat)
    requires IsRun(run) && k <= |run.steps| && AllFiltered(run.steps)
    ensures LifecycleOk(run.states[k])
  {
    if k > 0 {
      LifecycleInvariant(run, k - 1);
      assert StepTaken(run, k - 1);
      StepKeepsLifecycle(run.states[k - 1], run.steps[k - 1]);
    }
  }

  /** The UPDATE behind `set_stage` checks no stage of its own: the invariant
      survives it exactly when the handler's filter passed or no row is held. */
  lemma SetStageKeepsLifecycleIff(db: Db, job: JobId, runner: RunnerId, stage: Stage)
    requires LifecycleOk(db)
    ensures LifecycleOk(Apply(db, SetStage(job, runner, stage)))
       <==> Reportable(stage) || !(job in db.jobs && HeldBy(db.jobs[job], runner))
  {
    var s := SetStage(job, runner, stage);
    if job in db.jobs && HeldBy(db.jobs[job], runner) && !Reportable(stage) {
      assert RowOk(db.jobs[job]);
      assert !RowOk(Apply(db, s).jobs[job]);
    } else {
      forall id | id in db.jobs ensures RowOk(NextRow(db, s, id, db.jobs[id])) {}
    }
  }

  /** What any two states of a run, an earlier and a later one, have in common:
      no row is deleted, no row leaves its pipeline or changes its key or needs,
      a completed row never changes in any column, and the rows of a pipeline
      all appear together, so no dependency turns up late. */
  predicate Preserves(before: Db, after: Db) {
    && (forall id :: id in before.jobs ==> id in after.jobs)
    && (forall id :: id in before.jobs ==> SameIdentity(before.jobs[id], after.jobs[id]))
    && (forall id :: id in before.jobs && before.jobs[id].status == Completed ==> after.jobs[id] == before.jobs[id])
    && (forall p :: p in before.pipelines ==> p in after.pipelines)
    && (forall p :: p in before.pipelines && before.pipelines[p].status == Completed ==>
        after.pipelines[p] == before.pipelines[p])
    && (forall id :: id in after.jobs && after.jobs[id].pipeline in before.pipelines ==> id in before.jobs)
  }

  predicate SameIdentity(a: Job, b: Job) {
    a.pipeline == b.pipeline && a.key == b.key && a.needs == b.needs
  }

  lemma StepPreserves(db: Db, s: Step)
    ensures Preserves(db, Apply(db, s))
  {
    var next := Apply(db, s);
    forall id | id in db.jobs
      ensures id in next.jobs && SameIdentity(db.jobs[id], next.jobs[id])
      ensures db.jobs[id].status == Completed ==> next.jobs[id] == db.jobs[id]
    {
      RowAfter(db, s, id);
      RowStep(db, s, id);
    }
    forall id | id in next.jobs && next.jobs[id].pipeline in db.pipelines
      ensures id in db.jobs
    {
      RowAfter(db, s, id);
    }
    forall p | p in db.pipelines
      ensures p in next.pipelines && (db.pipelines[p].status == Completed ==> next.pipelines[p] == db.pipelines[p])
    {
      PipelineAfter(db, s, p);
    }
  }

  lemma PreservesTransitive(a: Db, b: Db, c: Db)
    requires Preserves(a, b) && Preserves(b, c)
    ensures Preserves(a, c)
  {
    forall id | id in c.jobs && c.jobs[id].pipeline in a.pipelines
      ensures id in a.jobs
    {
      assert id in b.jobs && SameIdentity(b.jobs[id], c.jobs[id]);
    }
  }

  /** Completed rows are final and identities are fixed over any stretch of any run. */
  lemma {:induction false} RunPreserves(run: Run, i: nat, k: nat)
    requires IsRun(run) && i <= k <= |run.steps|
    ensures Preserves(run.states[i], run.states[k])
    decreases k - i
  {
    if i < k {
      RunPreserves(run, i, k - 1);
      NextPreserves(run, k - 1);
      PreservesTransitive(run.states[i], run.states[k - 1], run.states[k]);
    }
  }

  lemma NextPreserves(run: Run, k: nat)
    requires IsRun(run) && k < |run.steps|
    ensures Preserves(run.states[k], run.states[k + 1])
  {
    assert StepTaken(run, k);
    StepPreserves(run.states[k], run.steps[k]);
  }

  /** A job of an earlier state is there in every later one, unchanged if it was over. */
  lemma JobStays(run: Run, i: nat, k: nat, id: JobId)
    requires IsRun(run) && i <= k <= |run.steps| && id in run.states[i].jobs
    ensures id in run.states[k].jobs
    ensures run.states[i].jobs[id].status == Completed ==> run.states[k].jobs[id] == run.states[i].jobs[id]
  {
    RunPreserves(run, i, k);
  }

  predicate SameSlot(a: Job, b: Job) {
    a.pipeline == b.pipeline && a.key == b.key
  }

  predicate TablesLinked(db: Db) {
    && (forall id :: id in db.jobs ==> db.jobs[id].pipeline in db.pipelines)
    && (forall a, b :: a in db.jobs && b in db.jobs && SameSlot(db.jobs[a], db.jobs[b]) ==> a == b)
  }

  /** Every job has its pipeline, and a job key names one job of a pipeline. */
  lemma {:induction false} LinksInvariant(run: Run, k: nat)
    requires IsRun(run) && k <= |run.steps|
    ensures TablesLinked(run.states[k])
  {
    if k > 0 {
      LinksInvariant(run, k - 1);
      NextLinked(run, k - 1);
    }
  }

  lemma NextLinked(run: Run, k: nat)
    requires IsRun(run) && k < |run.steps| && TablesLinked(run.states[k])
    ensures TablesLinked(run.states[k + 1])
  {
    assert StepTaken(run, k);
    StepKeepsLinks(run.states[k], run.steps[k]);
  }

  lemma StepKeepsLinks(db: Db, s: Step)
    requires TablesLinked(db)
    ensures TablesLinked(Apply(db, s))
  {
    var next := Apply(db, s);
    forall id | id in next.jobs
      ensures next.jobs[id].pipeline in next.pipelines
    {
      RowIdentity(db, s, id);
      PipelineAfter(db, s, next.jobs[id].pipeline);
    }
    forall a, b | a in next.jobs && b in next.jobs && SameSlot(next.jobs[a], next.jobs[b])
      ensures a == b
    {
      RowIdentity(db, s, a);
      RowIdentity(db, s, b);
    }
  }

  /** A row had its pipeline and key before the step, or is one of a pipeline created now. */
  lemma RowIdentity(db: Db, s: Step, id: JobId)
    requires id in Apply(db, s).jobs
    ensures if id in db.jobs then SameIdentity(db.jobs[id], Apply(db, s).jobs[id])
            else s.CreatePipeline? && Creatable(db, s.pipeline, s.rows) && id in s.rows
                 && Apply(db, s).jobs[id] == FreshJob(s.pipeline, s.rows[id])
  {
    RowAfter(db, s, id);
    if id in db.jobs { RowStep(db, s, id); }
  }
}
