/** Orphan recovery: each lost job is retried once, and the retries run out. */
module OrphanRecovery {
  import opened Options
  import opened JobProtocol
  import opened Lifecycle

  function Recovered(db: Db, scope: Option<RunnerId>, now: Time): Db {
    Apply(Apply(db, RequeueFirstAttempts(scope)), FailRepeatOffenders(scope, now))
  }

  /** The jobs the UPDATEs are about, and those of them still on their first attempt. */
  function Lost(db: Db, scope: Option<RunnerId>): set<JobId> {
    set id | id in db.jobs && InScope(db.jobs[id], scope)
  }

  function FirstAttempts(db: Db, scope: Option<RunnerId>): set<JobId> {
    set id | id in db.jobs && InScope(db.jobs[id], scope) && db.jobs[id].attempt < 2
  }

  /** The first UPDATE takes exactly the first attempts out of the second one's reach. */
  lemma SecondAttemptsRemain(db: Db, scope: Option<RunnerId>)
    ensures Lost(Apply(db, RequeueFirstAttempts(scope)), scope) == Lost(db, scope) - FirstAttempts(db, scope)
  {
    var s := RequeueFirstAttempts(scope);
    forall id | id in db.jobs
      ensures InScope(NextRow(db, s, id, db.jobs[id]), scope) <==>
        InScope(db.jobs[id], scope) && db.jobs[id].attempt >= 2
    {}
  }

  predicate Requeued(before: Job, after: Job) {
    && before.attempt == 1 && after.attempt == 2 && after.status == Queued && after.stage == AtQueue
    && after.runner == None && after.assignedAt == None && after.startedAt == None
  }

  predicate GivenUp(before: Job, after: Job) {
    && before.attempt == 2 && after.attempt == 2 && after.status == Completed && after.stage == Done
    && after.conclusion == Some(Failure) && after.category == Some("runner_lost") && after.runner == before.runner
  }

  /** Both UPDATEs together send each job in scope to exactly one of requeued
      and failed, leave none in scope in progress, and touch nothing else. */
  lemma RecoverySplits(db: Db, scope: Option<RunnerId>, now: Time, id: JobId)
    requires LifecycleOk(db) && id in db.jobs
    ensures id in Recovered(db, scope, now).jobs
    ensures var before, after := db.jobs[id], Recovered(db, scope, now).jobs[id];
      && (InScope(before, scope) ==> Requeued(before, after) != GivenUp(before, after))
      && (!InScope(before, scope) ==> after == before)
      && !InScope(after, scope)
  {
    var mid := Apply(db, RequeueFirstAttempts(scope));
    assert RowOk(db.jobs[id]);
    assert mid.jobs[id] == NextRow(db, RequeueFirstAttempts(scope), id, db.jobs[id]);
    assert Apply(mid, FailRepeatOffenders(scope, now)).jobs[id]
        == NextRow(mid, FailRepeatOffenders(scope, now), id, mid.jobs[id]);
  }

  /** Recovery works on the job table alone. */
  lemma RecoveryKeepsRunners(db: Db, scope: Option<RunnerId>, now: Time)
    ensures Recovered(db, scope, now).runners == db.runners && Recovered(db, scope, now).pipelines == db.pipelines
    ensures Recovered(db, scope, now).jobs.Keys == db.jobs.Keys
  {
    assert Apply(db, RequeueFirstAttempts(scope)).runners == db.runners;
  }

  // Counting over a run

  predicate OrphanRequeue(db: Db, s: Step, id: JobId) {
    s.RequeueFirstAttempts? && id in db.jobs && InScope(db.jobs[id], s.scope) && db.jobs[id].attempt < 2
  }

  /** How often the first `k` steps orphan-requeued the job. */
  function OrphanRequeues(run: Run, k: nat, id: JobId): nat
    requires k <= |run.steps| && |run.states| == |run.steps| + 1
  {
    if k == 0 then 0
    else OrphanRequeues(run, k - 1, id) + if OrphanRequeue(run.states[k - 1], run.steps[k - 1], id) then 1 else 0
  }

  /** The attempt column counts them, so a job is orphan-requeued at most once in its life. */
  lemma {:induction false} RequeuedAtMostOnce(run: Run, k: nat, id: JobId)
    requires IsRun(run) && k <= |run.steps|
    ensures if id in run.states[k].jobs
            then run.states[k].jobs[id].attempt == 1 + OrphanRequeues(run, k, id) && run.states[k].jobs[id].attempt <= 2
            else OrphanRequeues(run, k, id) == 0
    ensures OrphanRequeues(run, k, id) <= 1
  {
    if k > 0 {
      RequeuedAtMostOnce(run, k - 1, id);
      assert StepTaken(run, k - 1);
      AttemptStep(run.states[k - 1], run.steps[k - 1], id);
    }
  }

  lemma AttemptStep(db: Db, s: Step, id: JobId)
    ensures id in db.jobs ==> id in Apply(db, s).jobs
    ensures id in db.jobs ==>
      Apply(db, s).jobs[id].attempt == db.jobs[id].attempt + if OrphanRequeue(db, s, id) then 1 else 0
    ensures id !in db.jobs && id in Apply(db, s).jobs ==> Apply(db, s).jobs[id].attempt == 1
  {
    RowAfter(db, s, id);
    if id in db.jobs { AttemptRow(db, s, id); }
  }

  lemma AttemptRow(db: Db, s: Step, id: JobId)
    requires id in db.jobs
    ensures NextRow(db, s, id, db.jobs[id]).attempt == db.jobs[id].attempt + if OrphanRequeue(db, s, id) then 1 else 0
  {}

  // Termination

  /** What a job still has ahead of it: 4 and 3 on the first attempt, 2 and 1 on the second, 0 when done. */
  function Rank(j: Job): nat {
    match j.status
    case Completed => 0
    case Queued => if j.attempt == 1 then 4 else 2
    case InProgress => if j.attempt == 1 then 3 else 1
  }

  predicate Changes(db: Db, s: Step, id: JobId) {
    id in db.jobs && id in Apply(db, s).jobs && Apply(db, s).jobs[id].status != db.jobs[id].status
  }

  /** A claim undone: never dispatched, or never acknowledged. */
  predicate Undoes(db: Db, s: Step, id: JobId) {
    (s.Unclaim? || s.RevertUnacked?) && Changes(db, s, id)
  }

  lemma RankRow(db: Db, s: Step, id: JobId)
    requires id in db.jobs && RowOk(db.jobs[id])
    ensures var (j, n) := (db.jobs[id], NextRow(db, s, id, db.jobs[id]));
      && (n.status == j.status ==> Rank(n) == Rank(j))
      && (n.status != j.status && !s.Unclaim? && !s.RevertUnacked? ==> Rank(n) < Rank(j))
      && (n.status != j.status && (s.Unclaim? || s.RevertUnacked?) ==> Rank(n) == Rank(j) + 1)
  {}

  /** Each status change lowers the rank, except that undoing a claim puts one back. */
  lemma RankFalls(db: Db, s: Step, id: JobId)
    requires id in db.jobs && RowOk(db.jobs[id])
    ensures id in Apply(db, s).jobs
    ensures var before, after := Rank(db.jobs[id]), Rank(Apply(db, s).jobs[id]);
      && (!Changes(db, s, id) ==> after == before)
      && (Changes(db, s, id) && !Undoes(db, s, id) ==> after < before)
      && (Undoes(db, s, id) ==> after == before + 1)
  {
    RowAfter(db, s, id);
    RankRow(db, s, id);
  }

  function StatusChanges(run: Run, k: nat, id: JobId): nat
    requires k <= |run.steps| && |run.states| == |run.steps| + 1
  {
    if k == 0 then 0
    else StatusChanges(run, k - 1, id) + if Changes(run.states[k - 1], run.steps[k - 1], id) then 1 else 0
  }

  function ClaimsUndone(run: Run, k: nat, id: JobId): nat
    requires k <= |run.steps| && |run.states| == |run.steps| + 1
  {
    if k == 0 then 0
    else ClaimsUndone(run, k - 1, id) + if Undoes(run.states[k - 1], run.steps[k - 1], id) then 1 else 0
  }

  /** In any run a job changes status at most four times, plus twice for each claim undone. */
  lemma {:induction false} ChangesBounded(run: Run, k: nat, id: JobId)
    requires IsRun(run) && AllFiltered(run.steps) && k <= |run.steps|
    ensures if id in run.states[k].jobs
            then StatusChanges(run, k, id) + Rank(run.states[k].jobs[id]) <= 4 + 2 * ClaimsUndone(run, k, id)
            else StatusChanges(run, k, id) == 0
    ensures StatusChanges(run, k, id) <= 4 + 2 * ClaimsUndone(run, k, id)
  {
    if k > 0 {
      ChangesBounded(run, k - 1, id);
      assert StepTaken(run, k - 1);
      if id in run.states[k - 1].jobs {
        LifecycleInvariant(run, k - 1);
        RankFalls(run.states[k - 1], run.steps[k - 1], id);
      }
    }
  }

  ghost function Total(run: Run, ids: set<JobId>): nat
    requires |run.states| == |run.steps| + 1
  {
    if ids == {} then 0 else
      var id :| id in ids;
      StatusChanges(run, |run.steps|, id) + Total(run, ids - {id})
  }

  /** Without undone claims, n jobs make at most 4n status changes in the whole run. */
  lemma {:induction false} RunsTerminate(run: Run, ids: set<JobId>)
    requires IsRun(run) && AllFiltered(run.steps)
    requires forall s :: s in run.steps ==> !s.Unclaim? && !s.RevertUnacked?
    ensures Total(run, ids) <= 4 * |ids|
  {
    if ids != {} {
      var id :| id in ids && Total(run, ids) == StatusChanges(run, |run.steps|, id) + Total(run, ids - {id});
      ChangesBounded(run, |run.steps|, id);
      NothingUndone(run, |run.steps|, id);
      RunsTerminate(run, ids - {id});
    }
  }

  lemma {:induction false} NothingUndone(run: Run, k: nat, id: JobId)
    requires k <= |run.steps| && |run.states| == |run.steps| + 1
    requires forall s :: s in run.steps ==> !s.Unclaim? && !s.RevertUnacked?
    ensures ClaimsUndone(run, k, id) == 0
  {
    if k > 0 {
      assert run.steps[k - 1] in run.steps;
      NothingUndone(run, k - 1, id);
    }
  }
}
