/** Draining runners: where a release takes them, and which of them are ever scheduled again. */
module DrainingRunners {
  import opened Options
  import opened JobProtocol
  import opened Exclusivity
  import opened Pairing

  predicate Draining(db: Db, r: RunnerId) { r in db.runners && db.runners[r].draining.Some? }

  /** The drain flag stays until a release. */
  lemma {:induction false} FlagStays(run: Run, d: nat, k: nat, r: RunnerId)
    requires IsRun(run) && d <= k <= |run.steps| && Draining(run.states[d], r)
    requires forall m :: d <= m < k ==> run.steps[m] != Release(r)
    ensures Draining(run.states[k], r)
    decreases k - d
  {
    if d < k {
      FlagStays(run, d, k - 1, r);
      assert StepTaken(run, k - 1);
      FlagStep(run.states[k - 1], run.steps[k - 1], r);
    }
  }

  lemma FlagStep(db: Db, s: Step, r: RunnerId)
    requires Draining(db, r) && s != Release(r)
    ensures Draining(Apply(db, s), r)
  {
    RunnerAfter(db, s, r);
  }

  /** Of all steps, only a reconnect can take a draining busy runner to idle. */
  lemma DrainingBusyToIdleIff(db: Db, s: Step, r: RunnerId)
    requires r in db.runners && db.runners[r].status == Busy && db.runners[r].draining.Some?
    ensures Apply(db, s).runners[r].status == Idle <==> s == MarkConnected(r) && db.runners[r].revoked == None
  {
    assert Apply(db, s).runners[r] == NextRunner(db, s, r, db.runners[r]) || s.RegisterRunner?;
  }

  /** A release any number of steps after the job of a runner ended, when the runner began to drain at any
      time before the release: it goes offline, never to idle. The flag of a row that is still busy is
      cleared; a row that was disabled or disconnected meanwhile is left. */
  lemma DrainedByLaterRelease(run: Run, i: nat, d: nat, k: nat, id: JobId, r: RunnerId)
    requires IsRun(run) && i < k < |run.steps| && run.steps[k] == Release(r)
    requires AtMostOneEach(run.states[i]) && EndsJobOf(run, i, id, r) && !IsIdle(run.states[i], r)
    requires NotMadeIdle(run, i + 1, k, r)
    requires d <= k && Draining(run.states[d], r) && forall m :: d <= m < k ==> run.steps[m] != Release(r)
    ensures !IsIdle(run.states[k + 1], r) && !HasInFlight(run.states[k + 1], r)
    ensures r in run.states[k].runners && r in run.states[k + 1].runners
    ensures run.states[k + 1].runners[r] == if run.states[k].runners[r].status == Busy
      then run.states[k].runners[r].(status := Offline, draining := None) else run.states[k].runners[r]
  {
    assert StepTaken(run, k);
    FreeSinceEnding(run, i, k, id, r);
    FlagStays(run, d, k, r);
    DrainedRelease(run.states[k], r);
  }

  lemma DrainedRelease(db: Db, r: RunnerId)
    requires Draining(db, r) && !IsIdle(db, r) && !HasInFlight(db, r)
    ensures var next := Apply(db, Release(r));
      && !IsIdle(next, r) && !HasInFlight(next, r) && r in next.runners
      && next.runners[r] ==
         if db.runners[r].status == Busy then db.runners[r].(status := Offline, draining := None) else db.runners[r]
  {
    RunnerAfter(db, Release(r), r);
    FreeStaysFree(db, Release(r), r);
  }

  // Coming back

  function ApplyAll(db: Db, steps: seq<Step>): Db {
    if steps == [] then db else Apply(ApplyAll(db, steps[..|steps| - 1]), steps[|steps| - 1])
  }

  /** Claims of the runner act on a read, made since, that listed it. */
  ghost predicate ListedClaims(db: Db, steps: seq<Step>, r: RunnerId) {
    forall c :: 0 <= c < |steps| && steps[c].Claim? && steps[c].runner == r ==> ListedBy(db, steps, c, r)
  }

  ghost predicate ListedBy(db: Db, steps: seq<Step>, c: nat, r: RunnerId)
    requires c <= |steps|
  {
    exists m :: 0 <= m <= c && Schedulable(ApplyAll(db, steps[..m]), r)
  }

  /** Revoked, or draining with no release ahead that could clear the flag. */
  predicate Stranded(db: Db, r: RunnerId) {
    r in db.runners && (db.runners[r].revoked.Some? || (db.runners[r].draining.Some? && db.runners[r].status != Busy))
  }

  lemma StrandedStep(db: Db, s: Step, r: RunnerId)
    requires Stranded(db, r) && !(s.Claim? && s.runner == r)
    ensures Stranded(Apply(db, s), r)
  {
    RunnerAfter(db, s, r);
  }

  lemma PrefixStep(db: Db, steps: seq<Step>, k: nat)
    requires 0 < k <= |steps|
    ensures ApplyAll(db, steps[..k]) == Apply(ApplyAll(db, steps[..k - 1]), steps[k - 1])
  {
    assert steps[..k][..k - 1] == steps[..k - 1];
  }

  lemma StrandedIsNotSchedulable(db: Db, r: RunnerId)
    requires Stranded(db, r)
    ensures !Schedulable(db, r)
  {
  }

  lemma {:induction false} StrandedStays(db: Db, steps: seq<Step>, r: RunnerId, k: nat)
    requires Stranded(db, r) && ListedClaims(db, steps, r) && k <= |steps|
    ensures Stranded(ApplyAll(db, steps[..k]), r)
  {
    if k > 0 {
      StrandedStays(db, steps, r, k - 1);
      PrefixStep(db, steps, k);
      if steps[k - 1].Claim? && steps[k - 1].runner == r {
        assert ListedBy(db, steps, k - 1, r);
        var m :| 0 <= m <= k - 1 && Schedulable(ApplyAll(db, steps[..m]), r);
        StrandedStays(db, steps, r, m);
        StrandedIsNotSchedulable(ApplyAll(db, steps[..m]), r);
      } else {
        StrandedStep(ApplyAll(db, steps[..k - 1]), steps[k - 1], r);
      }
    }
  }

  ghost predicate ComesBack(db: Db, r: RunnerId) {
    exists steps :: ListedClaims(db, steps, r) && Schedulable(ApplyAll(db, steps), r)
  }

  lemma StrandedNeverComesBack(db: Db, r: RunnerId)
    requires Stranded(db, r)
    ensures !ComesBack(db, r)
  {
    forall steps | ListedClaims(db, steps, r) ensures !Schedulable(ApplyAll(db, steps), r) {
      StrandedStays(db, steps, r, |steps|);
      assert steps[..|steps|] == steps;
      StrandedIsNotSchedulable(ApplyAll(db, steps), r);
    }
  }

  lemma BusyComesBack(db: Db, r: RunnerId)
    requires Draining(db, r) && db.runners[r].status == Busy && db.runners[r].revoked == None
    ensures ComesBack(db, r)
  {
    var steps := [Release(r), MarkConnected(r)];
    ReleasedAndConnected(db, r);
    TwoSteps(db, Release(r), MarkConnected(r));
    assert ListedClaims(db, steps, r);
  }

  /** A draining runner can be scheduled again iff it is still busy and not revoked. */
  lemma DrainingComesBackIff(db: Db, r: RunnerId)
    requires Draining(db, r)
    ensures ComesBack(db, r) <==> db.runners[r].status == Busy && db.runners[r].revoked == None
  {
    if db.runners[r].status == Busy && db.runners[r].revoked == None {
      BusyComesBack(db, r);
    } else {
      StrandedNeverComesBack(db, r);
    }
  }

  lemma TwoSteps(db: Db, a: Step, b: Step)
    ensures ApplyAll(db, [a, b]) == Apply(Apply(db, a), b)
  {
    assert [a, b][..1] == [a] && [a][..0] == [];
    assert ApplyAll(db, [a]) == Apply(ApplyAll(db, []), a);
  }

  lemma ReleasedAndConnected(db: Db, r: RunnerId)
    requires Draining(db, r) && db.runners[r].status == Busy && db.runners[r].revoked == None
    ensures Schedulable(Apply(Apply(db, Release(r)), MarkConnected(r)), r)
  {
  }

  lemma DrainedIdle(db: Db, r: RunnerId, now: Time)
    requires r in db.runners && db.runners[r] == Runner(0, Idle, None, None)
    ensures var next := Apply(db, DrainStart(0, r, now));
      Draining(next, r) && next.runners[r].status == Offline
  {
    RunnerAfter(db, DrainStart(0, r, now), r);
  }

  /** Register, connect, drain: three steps from any tables to a runner that never comes back. */
  lemma StrandedIsReachable(start: Db, r: RunnerId, now: Time) returns (db: Db)
    requires r !in start.runners
    ensures db == Apply(Apply(Apply(start, RegisterRunner(r, 0)), MarkConnected(r)), DrainStart(0, r, now))
    ensures Draining(db, r) && !ComesBack(db, r)
  {
    var connected := ConnectNew(start, r);
    db := Apply(connected, DrainStart(0, r, now));
    DrainedIdle(connected, r, now);
    DrainingComesBackIff(db, r);
  }
}
