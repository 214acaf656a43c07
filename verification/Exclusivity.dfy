/** At most one job in progress per runner: exactly which steps endanger it. */
module Exclusivity {
  import opened Options
  import opened JobProtocol

  ghost predicate AtMostOneEach(db: Db) {
    forall a, b, r :: a in db.jobs && b in db.jobs && HeldBy(db.jobs[a], r) && HeldBy(db.jobs[b], r) ==> a == b
  }

  /** An idle runner holds no job: this is what makes the claim's runner guard sufficient. */
  ghost predicate IdleMeansFree(db: Db) {
    forall id, r :: id in db.jobs && HeldBy(db.jobs[id], r) ==> r in db.runners && db.runners[r].status != Idle
  }

  ghost predicate Exclusive(db: Db) {
    AtMostOneEach(db) && IdleMeansFree(db)
  }

  /** The condition a caller of the three idle-making UPDATEs has to check:
      whenever the UPDATE would set the row idle, the runner holds no job. */
  ghost predicate SafeStep(db: Db, s: Step) {
    match s
    case MarkConnected(r) =>
      r in db.runners && db.runners[r].revoked == None ==> !HasInFlight(db, r)
    case Resume(w, r, connected) =>
      (connected && r in db.runners && db.runners[r].workspace == w && db.runners[r].revoked == None
       && db.runners[r].status == Disabled) ==> !HasInFlight(db, r)
    case Release(r) =>
      r in db.runners && db.runners[r].status == Busy && db.runners[r].draining == None ==> !HasInFlight(db, r)
    case _ => true
  }

  /** A job held after a step was held by the same runner before it, or the step claimed it. */
  lemma HeldComesFrom(db: Db, s: Step, id: JobId, r: RunnerId)
    requires id in Apply(db, s).jobs && HeldBy(Apply(db, s).jobs[id], r)
    ensures id in db.jobs
    ensures HeldBy(db.jobs[id], r) || (s.Claim? && s.job == id && s.runner == r && ClaimFires(db, id, r))
  {
    RowAfter(db, s, id);
    HeldRow(db, s, id, r);
  }

  lemma HeldRow(db: Db, s: Step, id: JobId, r: RunnerId)
    ensures id in db.jobs && HeldBy(NextRow(db, s, id, db.jobs[id]), r) ==>
      HeldBy(db.jobs[id], r) || (s.Claim? && s.job == id && s.runner == r && ClaimFires(db, id, r))
  {}

  /** A runner becomes idle only through the three idle-making UPDATEs. */
  lemma IdleComesFrom(db: Db, s: Step, r: RunnerId)
    requires r in db.runners && Apply(db, s).runners[r].status == Idle && db.runners[r].status != Idle
    ensures (s.MarkConnected? || s.Resume? || s.Release?) && s.runner == r
    ensures SafeStep(db, s) ==> !HasInFlight(db, r)
  {
    RunnerAfter(db, s, r);
  }

  /** A held job's runner does not become idle by a safe step. */
  lemma HolderStaysBusy(db: Db, s: Step, id: JobId, r: RunnerId)
    requires IdleMeansFree(db) && SafeStep(db, s)
    requires id in Apply(db, s).jobs && HeldBy(Apply(db, s).jobs[id], r)
    ensures r in Apply(db, s).runners && Apply(db, s).runners[r].status != Idle
  {
    HeldComesFrom(db, s, id, r);
    RunnerAfter(db, s, r);
    if HeldBy(db.jobs[id], r) {
      assert HasInFlight(db, r);
      if Apply(db, s).runners[r].status == Idle {
        IdleComesFrom(db, s, r);
      }
    }
  }

  predicate HeldAt(db: Db, id: JobId, r: RunnerId) {
    id in db.jobs && HeldBy(db.jobs[id], r)
  }

  predicate NotIdle(db: Db, r: RunnerId) {
    r in db.runners && db.runners[r].status != Idle
  }

  /** Tables stay exclusive when each holding is an old one, or the one new holding of a runner that was free. */
  lemma ExclusiveFrom(db: Db, next: Db, job: JobId, runner: RunnerId)
    requires Exclusive(db)
    requires forall id, r {:trigger HeldAt(next, id, r)} :: HeldAt(next, id, r) ==> NotIdle(next, r)
    requires forall id, r {:trigger HeldAt(next, id, r)} :: HeldAt(next, id, r) ==>
      HeldAt(db, id, r) || (id == job && r == runner && r in db.runners && db.runners[r].status == Idle)
    ensures Exclusive(next)
  {
    forall id, r | id in next.jobs && HeldBy(next.jobs[id], r)
      ensures r in next.runners && next.runners[r].status != Idle
    {
      assert HeldAt(next, id, r);
    }
    forall a, b, r | a in next.jobs && b in next.jobs && HeldBy(next.jobs[a], r) && HeldBy(next.jobs[b], r)
      ensures a == b
    {
      assert HeldAt(next, a, r) && HeldAt(next, b, r);
    }
  }

  lemma HolderOrClaim(db: Db, s: Step, id: JobId, r: RunnerId)
    requires HeldAt(Apply(db, s), id, r)
    ensures HeldAt(db, id, r)
      || (s.Claim? && id == s.job && r == s.runner && r in db.runners && db.runners[r].status == Idle)
  {
    HeldComesFrom(db, s, id, r);
  }

  lemma SafeStepKeepsExclusive(db: Db, s: Step)
    requires Exclusive(db) && SafeStep(db, s)
    ensures Exclusive(Apply(db, s))
  {
    var next := Apply(db, s);
    var job, runner := if s.Claim? then s.job else 0, if s.Claim? then s.runner else 0;
    forall id, r | HeldAt(next, id, r)
      ensures NotIdle(next, r)
      ensures HeldAt(db, id, r) || (id == job && r == runner && r in db.runners && db.runners[r].status == Idle)
    {
      HolderStaysBusy(db, s, id, r);
      HolderOrClaim(db, s, id, r);
    }
    ExclusiveFrom(db, next, job, runner);
  }

  lemma UnsafeStepBreaks(db: Db, s: Step)
    requires Exclusive(db) && !SafeStep(db, s)
    ensures !IdleMeansFree(Apply(db, s))
  {
    var r := s.runner;
    var id :| id in db.jobs && HeldBy(db.jobs[id], r);
    assert Apply(db, s).jobs[id] == db.jobs[id];
    assert Apply(db, s).runners[r].status == Idle;
  }

  /** The exact condition, for every step on every exclusive state. */
  lemma ExclusiveIff(db: Db, s: Step)
    requires Exclusive(db)
    ensures Exclusive(Apply(db, s)) <==> SafeStep(db, s)
  {
    if SafeStep(db, s) { SafeStepKeepsExclusive(db, s); } else { UnsafeStepBreaks(db, s); }
  }

  ghost predicate StepsSafe(run: Run)
    requires |run.states| == |run.steps| + 1
  {
    forall k :: 0 <= k < |run.steps| ==> SafeStep(run.states[k], run.steps[k])
  }

  lemma {:induction false} SafeRunIsExclusive(run: Run, k: nat)
    requires IsRun(run) && StepsSafe(run) && k <= |run.steps|
    ensures Exclusive(run.states[k])
  {
    if k > 0 {
      SafeRunIsExclusive(run, k - 1);
      assert StepTaken(run, k - 1);
      SafeStepKeepsExclusive(run.states[k - 1], run.steps[k - 1]);
    }
  }

  /** A run stays exclusive throughout exactly when no step of it was unsafe. */
  lemma ExclusiveThroughoutIff(run: Run)
    requires IsRun(run)
    ensures (forall k :: 0 <= k <= |run.steps| ==> Exclusive(run.states[k])) <==> StepsSafe(run)
  {
    if StepsSafe(run) {
      forall k | 0 <= k <= |run.steps| ensures Exclusive(run.states[k]) { SafeRunIsExclusive(run, k); }
    } else {
      var k :| 0 <= k < |run.steps| && !SafeStep(run.states[k], run.steps[k]);
      assert StepTaken(run, k);
      if Exclusive(run.states[k]) {
        ExclusiveIff(run.states[k], run.steps[k]);
        assert !Exclusive(run.states[k + 1]);
      }
    }
  }

  /** After an unsafe step the next claim on that runner takes effect and double-assigns it. */
  lemma UnsafeThenDoubleAssigned(db: Db, r: RunnerId, held: JobId, queued: JobId, now: Time)
    requires r in db.runners && db.runners[r].status == Idle && db.runners[r].revoked == None
    requires held in db.jobs && HeldBy(db.jobs[held], r)
    requires queued in db.jobs && db.jobs[queued].status == Queued && db.jobs[queued].runner == None
    ensures !AtMostOneEach(Apply(db, Claim(queued, r, now)))
  {
    var next := Apply(db, Claim(queued, r, now));
    assert HeldBy(next.jobs[held], r) && HeldBy(next.jobs[queued], r);
  }

  /** The three steps of a double assignment, from any state with an idle
      runner and two queued jobs: the reconnect comes while the first job runs. */
  lemma ReconnectDoubleAssigns(db: Db, r: RunnerId, first: JobId, second: JobId, now: Time)
    requires ClaimFires(db, first, r) && ClaimFires(db, second, r) && first != second
    ensures var claimed := Apply(db, Claim(first, r, now));
      var reconnected := Apply(claimed, MarkConnected(r));
      !SafeStep(claimed, MarkConnected(r)) && !AtMostOneEach(Apply(reconnected, Claim(second, r, now)))
  {
    var claimed := Apply(db, Claim(first, r, now));
    ClaimIsAtomic(db, first, r, now);
    assert HeldBy(claimed.jobs[first], r) && claimed.jobs[second] == db.jobs[second];
    var reconnected := Apply(claimed, MarkConnected(r));
    assert reconnected.jobs[first] == claimed.jobs[first] && reconnected.jobs[second] == claimed.jobs[second];
    assert reconnected.runners[r].status == Idle;
    UnsafeThenDoubleAssigned(reconnected, r, first, second, now);
  }

  const TWO_JOBS: map<JobId, NewJob> := map[1 := NewJob("build", []), 2 := NewJob("lint", [])]

  /** Such a state is reached by creating a two-job pipeline and connecting a runner. */
  lemma ReconnectRaceIsReachable() returns (db: Db)
    ensures db == Apply(Apply(Apply(EMPTY, CreatePipeline(0, TWO_JOBS)), RegisterRunner(7, 0)), MarkConnected(7))
    ensures ClaimFires(db, 1, 7) && ClaimFires(db, 2, 7)
  {
    assert TWO_JOBS[1].key[0] != TWO_JOBS[2].key[0];
    var created := Apply(EMPTY, CreatePipeline(0, TWO_JOBS));
    assert created.jobs[1] == FreshJob(0, TWO_JOBS[1]) && created.jobs[2] == FreshJob(0, TWO_JOBS[2]);
    assert 7 !in created.runners;
    db := ConnectNew(created, 7);
  }

  lemma ConnectNew(created: Db, r: RunnerId) returns (db: Db)
    requires r !in created.runners
    ensures db == Apply(Apply(created, RegisterRunner(r, 0)), MarkConnected(r))
    ensures db.jobs == created.jobs && r in db.runners && db.runners[r] == Runner(0, Idle, None, None)
  {
    var registered := Apply(created, RegisterRunner(r, 0));
    assert registered.jobs == created.jobs;
    db := Apply(registered, MarkConnected(r));
  }

  // The pairings that keep the condition true

  /** Ending or reverting the one job a runner holds makes its release safe. */
  lemma EndingFreesRunner(db: Db, s: Step, id: JobId, r: RunnerId)
    requires Exclusive(db) && id in db.jobs && HeldBy(db.jobs[id], r)
    requires Apply(db, s).jobs[id].status != InProgress && !s.Claim?
    ensures !HasInFlight(Apply(db, s), r) && SafeStep(Apply(db, s), Release(r))
  {
    var next := Apply(db, s);
    forall other | other in next.jobs
      ensures !HeldBy(next.jobs[other], r)
    {
      if HeldBy(next.jobs[other], r) { HeldComesFrom(db, s, other, r); }
    }
  }

  lemma FreeStaysFree(db: Db, s: Step, r: RunnerId)
    requires !HasInFlight(db, r) && !s.Claim?
    ensures !HasInFlight(Apply(db, s), r)
  {
    var next := Apply(db, s);
    forall other | other in next.jobs
      ensures !HeldBy(next.jobs[other], r)
    {
      if HeldBy(next.jobs[other], r) { HeldComesFrom(db, s, other, r); }
    }
  }

  /** The second UPDATE of orphan recovery leaves the runner with nothing in
      flight, so it may reconnect or be released. */
  lemma RecoveryFreesRunner(db: Db, r: RunnerId, now: Time)
    ensures var next := Apply(db, FailRepeatOffenders(Some(r), now));
      !HasInFlight(next, r) && SafeStep(next, MarkConnected(r)) && SafeStep(next, Release(r))
  {
    var s := FailRepeatOffenders(Some(r), now);
    forall id | id in db.jobs
      ensures !HeldBy(NextRow(db, s, id, db.jobs[id]), r)
    {}
  }

  lemma NoHolder(db: Db, r: RunnerId)
    requires forall id, o {:trigger HeldAt(db, id, o)} :: HeldAt(db, id, o) ==> o != r
    ensures !HasInFlight(db, r)
  {
    if id :| id in db.jobs && HeldBy(db.jobs[id], r) {
      assert HeldAt(db, id, r);
    }
  }

  /** A claim is all or nothing: it changes some row exactly when both guards
      hold, and then it changes exactly the job row and the runner row. */
  lemma ClaimIsAtomic(db: Db, job: JobId, r: RunnerId, now: Time)
    ensures var next := Apply(db, Claim(job, r, now));
      && (!ClaimFires(db, job, r) <==> next == db)
      && (ClaimFires(db, job, r) ==>
            && HeldBy(next.jobs[job], r) && next.jobs[job].stage == Assigned && next.runners[r].status == Busy
            && next.jobs == db.jobs[job := next.jobs[job]] && next.runners == db.runners[r := next.runners[r]]
            && next.pipelines == db.pipelines)
  {
    var next := Apply(db, Claim(job, r, now));
    assert next.pipelines == db.pipelines;
    if !ClaimFires(db, job, r) {
      assert next.jobs == db.jobs && next.runners == db.runners;
    } else {
      assert next.jobs[job].status != db.jobs[job].status;
    }
  }
}
