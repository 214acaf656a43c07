/** Each ending paired with a release, at any distance: what then holds in every run of concurrent tasks. */
module Pairing {
  import opened Options
  import opened JobProtocol
  import opened Exclusivity

  /** The three UPDATEs that can make this runner idle. */
  predicate IdleMaking(s: Step, r: RunnerId) {
    (s.MarkConnected? || s.Resume? || s.Release?) && s.runner == r
  }

  predicate FiresOn(db: Db, s: Step, r: RunnerId) {
    s.Claim? && s.runner == r && ClaimFires(db, s.job, r)
  }

  // At most one job per runner, by itself

  /** A claim that takes effect on a runner with a job in flight. */
  ghost predicate DoubleClaim(db: Db, s: Step) {
    s.Claim? && FiresOn(db, s, s.runner) && HasInFlight(db, s.runner)
  }

  /** A step gives a runner a second job iff it is a claim that takes effect while the first is in flight. */
  lemma AtMostOneIff(db: Db, s: Step)
    requires AtMostOneEach(db)
    ensures AtMostOneEach(Apply(db, s)) <==> !DoubleClaim(db, s)
  {
    var next := Apply(db, s);
    if DoubleClaim(db, s) {
      var held :| held in db.jobs && HeldBy(db.jobs[held], s.runner);
      RowAfter(db, s, held);
      RowAfter(db, s, s.job);
      assert HeldAt(next, held, s.runner) && HeldAt(next, s.job, s.runner);
    } else {
      forall a, b, r | HeldAt(next, a, r) && HeldAt(next, b, r) ensures a == b {
        HolderOrFires(db, s, a, r);
        HolderOrFires(db, s, b, r);
      }
      OneEach(next);
    }
  }

  lemma OneEach(db: Db)
    requires forall a, b, r {:trigger HeldAt(db, a, r), HeldAt(db, b, r)} ::
      HeldAt(db, a, r) && HeldAt(db, b, r) ==> a == b
    ensures AtMostOneEach(db)
  {
    forall a, b, r | a in db.jobs && b in db.jobs && HeldBy(db.jobs[a], r) && HeldBy(db.jobs[b], r) ensures a == b {
      assert HeldAt(db, a, r) && HeldAt(db, b, r);
    }
  }

  lemma HolderOrFires(db: Db, s: Step, id: JobId, r: RunnerId)
    requires HeldAt(Apply(db, s), id, r)
    ensures HeldAt(db, id, r) || (FiresOn(db, s, r) && s.job == id)
    ensures HeldAt(db, id, r) ==> !(FiresOn(db, s, r) && s.job == id)
  {
    HeldComesFrom(db, s, id, r);
  }

  /** A run gives no runner two jobs iff none of its claims takes effect on a runner with a job in flight. */
  lemma AtMostOneThroughoutIff(run: Run)
    requires IsRun(run)
    ensures (forall k :: 0 <= k <= |run.steps| ==> AtMostOneEach(run.states[k]))
       <==> (forall k :: 0 <= k < |run.steps| ==> !DoubleClaim(run.states[k], run.steps[k]))
  {
    if forall k :: 0 <= k < |run.steps| ==> !DoubleClaim(run.states[k], run.steps[k]) {
      forall k | 0 <= k <= |run.steps| ensures AtMostOneEach(run.states[k]) { OneUpTo(run, k); }
    } else {
      var k :| 0 <= k < |run.steps| && DoubleClaim(run.states[k], run.steps[k]);
      assert StepTaken(run, k);
      if AtMostOneEach(run.states[k]) {
        AtMostOneIff(run.states[k], run.steps[k]);
        assert !AtMostOneEach(run.states[k + 1]);
      }
    }
  }

  lemma {:induction false} OneUpTo(run: Run, k: nat)
    requires IsRun(run) && k <= |run.steps|
    requires forall m :: 0 <= m < |run.steps| ==> !DoubleClaim(run.states[m], run.steps[m])
    ensures AtMostOneEach(run.states[k])
  {
    if k > 0 {
      OneUpTo(run, k - 1);
      assert StepTaken(run, k - 1);
      AtMostOneIff(run.states[k - 1], run.steps[k - 1]);
    }
  }

  // A free runner stays free until it is made idle

  predicate IsIdle(db: Db, r: RunnerId) { r in db.runners && db.runners[r].status == Idle }

  ghost predicate IsFree(db: Db, r: RunnerId) { !HasInFlight(db, r) && !IsIdle(db, r) }

  lemma FreeStep(db: Db, s: Step, r: RunnerId)
    requires IsFree(db, r) && !IdleMaking(s, r)
    ensures IsFree(Apply(db, s), r)
  {
    var next := Apply(db, s);
    forall id, o | HeldAt(next, id, o) ensures o != r {
      if o == r {
        HolderOrFires(db, s, id, r);
      }
    }
    NoHolder(next, r);
    if IsIdle(next, r) && r in db.runners {
      IdleComesFrom(db, s, r);
    } else if IsIdle(next, r) {
      NewRunnerIsOffline(db, s, r);
    }
  }

  lemma NewRunnerIsOffline(db: Db, s: Step, r: RunnerId)
    requires r !in db.runners && r in Apply(db, s).runners
    ensures Apply(db, s).runners[r].status == Offline
  {
  }

  /** Over a stretch in which no step of the three concerns the runner. */
  ghost predicate NotMadeIdle(run: Run, i: nat, k: nat, r: RunnerId)
    requires k <= |run.steps|
  {
    forall m :: i <= m < k ==> !IdleMaking(run.steps[m], r)
  }

  lemma {:induction false} StaysFree(run: Run, i: nat, k: nat, r: RunnerId)
    requires IsRun(run) && i <= k <= |run.steps|
    requires IsFree(run.states[i], r) && NotMadeIdle(run, i, k, r)
    ensures IsFree(run.states[k], r)
    decreases k - i
  {
    if i < k {
      StaysFree(run, i, k - 1, r);
      assert StepTaken(run, k - 1);
      FreeStep(run.states[k - 1], run.steps[k - 1], r);
    }
  }

  /** Step i takes from a runner the job it held: a report, a forced ending, an undone claim, a recovery. */
  ghost predicate EndsJobOf(run: Run, i: nat, id: JobId, r: RunnerId)
    requires i < |run.steps| && |run.states| == |run.steps| + 1
  {
    HeldAt(run.states[i], id, r) && !HeldAt(run.states[i + 1], id, r)
  }

  lemma EndingTouchesNoRunner(db: Db, s: Step, id: JobId, r: RunnerId)
    requires HeldAt(db, id, r) && !HeldAt(Apply(db, s), id, r)
    ensures Apply(db, s).runners == db.runners && !s.Claim?
  {
    RowAfter(db, s, id);
    EndingSteps(db, s, id, r);
    RunnersUntouched(db, s);
  }

  predicate EndingKind(s: Step) {
    || s.Unclaim? || s.RevertUnacked? || s.FinishFromRunner? || s.ForceFinish?
    || s.RequeueFirstAttempts? || s.FailRepeatOffenders?
  }

  lemma EndingSteps(db: Db, s: Step, id: JobId, r: RunnerId)
    requires HeldAt(db, id, r) && !HeldBy(NextRow(db, s, id, db.jobs[id]), r)
    ensures EndingKind(s)
  {
  }

  lemma RunnersUntouched(db: Db, s: Step)
    requires EndingKind(s)
    ensures Apply(db, s).runners == db.runners
  {
  }

  /** Ending the one job of a runner that is not idle leaves it free. */
  lemma EndingFrees(db: Db, s: Step, id: JobId, r: RunnerId)
    requires AtMostOneEach(db) && HeldAt(db, id, r) && !HeldAt(Apply(db, s), id, r) && !IsIdle(db, r)
    ensures IsFree(Apply(db, s), r)
  {
    var next := Apply(db, s);
    EndingTouchesNoRunner(db, s, id, r);
    forall other | HeldAt(next, other, r) ensures other == id {
      HolderOrFires(db, s, other, r);
    }
    NoHolder(next, r);
  }

  /** And so it stays until something makes it idle. */
  lemma FreeSinceEnding(run: Run, i: nat, k: nat, id: JobId, r: RunnerId)
    requires IsRun(run) && i < k <= |run.steps|
    requires AtMostOneEach(run.states[i]) && EndsJobOf(run, i, id, r) && !IsIdle(run.states[i], r)
    requires NotMadeIdle(run, i + 1, k, r)
    ensures IsFree(run.states[k], r)
  {
    assert StepTaken(run, i);
    EndingFrees(run.states[i], run.steps[i], id, r);
    StaysFree(run, i + 1, k, r);
  }

  // The discipline of the callers

  /** A release that comes after the ending of a job the runner held while not idle, however many steps
      later, if nothing made the runner idle in between. */
  ghost predicate LateRelease(run: Run, k: nat, r: RunnerId)
    requires k < |run.steps| && |run.states| == |run.steps| + 1
  {
    exists i, id :: 0 <= i < k && EndsJobOf(run, i, id, r) && !IsIdle(run.states[i], r) && NotMadeIdle(run, i + 1, k, r)
  }

  /** The release of a failed dispatch: it comes before the ending at step b, and no claim takes effect on
      the runner from here to there. */
  ghost predicate Window(run: Run, a: nat, b: nat, id: JobId, r: RunnerId)
    requires |run.states| == |run.steps| + 1
  {
    && a < b < |run.steps| && HeldAt(run.states[a], id, r) && EndsJobOf(run, b, id, r)
    && forall m :: a <= m <= b ==> !FiresOn(run.states[m], run.steps[m], r) && HeldAt(run.states[m], id, r)
  }

  ghost predicate EarlyRelease(run: Run, k: nat, r: RunnerId)
    requires |run.states| == |run.steps| + 1
  {
    exists b, id :: Window(run, k, b, id, r)
  }

  /** A release that takes effect and sets its runner idle. */
  predicate ReleasesToIdle(db: Db, s: Step) {
    s.Release? && s.runner in db.runners && db.runners[s.runner].status == Busy && db.runners[s.runner].draining == None
  }

  /** Reconnects and resumes concern runners without a job in flight; each release that sets a runner idle
      is paired with an ending before it or, where early ones are allowed, after it. */
  ghost predicate Disciplined(run: Run, early: bool)
    requires |run.states| == |run.steps| + 1
  {
    forall k {:trigger Proper(run, k, early)} :: 0 <= k < |run.steps| ==> Proper(run, k, early)
  }

  ghost predicate Proper(run: Run, k: nat, early: bool)
    requires k < |run.steps| && |run.states| == |run.steps| + 1
  {
    && (!run.steps[k].Release? ==> SafeStep(run.states[k], run.steps[k]))
    && (ReleasesToIdle(run.states[k], run.steps[k]) ==>
          LateRelease(run, k, run.steps[k].runner) || (early && EarlyRelease(run, k, run.steps[k].runner)))
  }

  /** The runner has been released ahead of the ending of its job, which is still to come. */
  ghost predicate InWindow(run: Run, k: nat, id: JobId, r: RunnerId)
    requires |run.states| == |run.steps| + 1
  {
    exists a, b :: 0 <= a < k <= b && Window(run, a, b, id, r)
  }

  /** What holds in every state: one job each, and none on an idle runner but in such a window. */
  ghost predicate Guarded(run: Run, k: nat, early: bool)
    requires |run.states| == |run.steps| + 1 && k < |run.states|
  {
    && AtMostOneEach(run.states[k])
    && forall id, r {:trigger HeldAt(run.states[k], id, r)} :: HeldAt(run.states[k], id, r) ==>
         r in run.states[k].runners && (IsIdle(run.states[k], r) ==> early && InWindow(run, k, id, r))
  }

  lemma FiredIsBusy(db: Db, s: Step, r: RunnerId)
    requires FiresOn(db, s, r)
    ensures r in db.runners && r in Apply(db, s).runners && !IsIdle(Apply(db, s), r)
  {
  }

  /** A late release finds its runner free. */
  lemma LateReleaseIsFree(run: Run, k: nat, r: RunnerId)
    requires IsRun(run) && k < |run.steps| && LateRelease(run, k, r)
    requires forall i :: 0 <= i < k ==> AtMostOneEach(run.states[i])
    ensures !HasInFlight(run.states[k], r)
  {
    var i, id :| 0 <= i < k && EndsJobOf(run, i, id, r) && !IsIdle(run.states[i], r) && NotMadeIdle(run, i + 1, k, r);
    FreeSinceEnding(run, i, k, id, r);
  }

  /** A runner with a job in flight becomes idle by an early release alone. */
  lemma IdleHolder(run: Run, k: nat, id: JobId, r: RunnerId, early: bool)
    requires IsRun(run) && Disciplined(run, early) && k < |run.steps|
    requires forall i :: 0 <= i <= k ==> AtMostOneEach(run.states[i])
    requires HeldAt(run.states[k], id, r) && r in run.states[k].runners
    requires !IsIdle(run.states[k], r) && IsIdle(run.states[k + 1], r)
    ensures early && InWindow(run, k + 1, id, r)
  {
    var db, s := run.states[k], run.steps[k];
    assert StepTaken(run, k) && Proper(run, k, early);
    assert HasInFlight(db, r);
    IdleComesFrom(db, s, r);
    ReleasedToIdle(db, s, r);
    if LateRelease(run, k, r) {
      LateReleaseIsFree(run, k, r);
    }
    var b, other :| Window(run, k, b, other, r);
    assert HeldAt(db, other, r);
  }

  lemma ReleasedToIdle(db: Db, s: Step, r: RunnerId)
    requires s.Release? && s.runner == r && r in db.runners && !IsIdle(db, r) && IsIdle(Apply(db, s), r)
    ensures ReleasesToIdle(db, s)
  {
  }

  lemma WindowGoesOn(run: Run, k: nat, id: JobId, r: RunnerId)
    requires |run.states| == |run.steps| + 1 && k < |run.steps| && InWindow(run, k, id, r)
    ensures !FiresOn(run.states[k], run.steps[k], r)
    ensures HeldAt(run.states[k + 1], id, r) ==> InWindow(run, k + 1, id, r)
  {
    var a, b :| 0 <= a < k <= b && Window(run, a, b, id, r);
  }

  /** Under the discipline every state is guarded. */
  lemma {:induction false} DisciplinedIsGuarded(run: Run, k: nat, early: bool)
    requires IsRun(run) && Disciplined(run, early) && k <= |run.steps|
    ensures forall i :: 0 <= i <= k ==> Guarded(run, i, early)
  {
    if k > 0 {
      DisciplinedIsGuarded(run, k - 1, early);
      assert Guarded(run, k - 1, early);
      OneStaysOne(run, k - 1, early);
      forall id, r | HeldAt(run.states[k], id, r)
        ensures r in run.states[k].runners && (IsIdle(run.states[k], r) ==> early && InWindow(run, k, id, r))
      {
        HolderGuarded(run, k - 1, id, r, early);
      }
    }
  }

  lemma OneStaysOne(run: Run, k: nat, early: bool)
    requires IsRun(run) && k < |run.steps| && Guarded(run, k, early)
    ensures AtMostOneEach(run.states[k + 1])
  {
    var db, s := run.states[k], run.steps[k];
    assert StepTaken(run, k);
    AtMostOneIff(db, s);
    if DoubleClaim(db, s) {
      var id :| id in db.jobs && HeldBy(db.jobs[id], s.runner);
      assert HeldAt(db, id, s.runner);
      WindowGoesOn(run, k, id, s.runner);
    }
  }

  lemma HolderGuarded(run: Run, k: nat, id: JobId, r: RunnerId, early: bool)
    requires IsRun(run) && Disciplined(run, early) && k < |run.steps|
    requires forall i :: 0 <= i <= k ==> Guarded(run, i, early)
    requires HeldAt(run.states[k + 1], id, r)
    ensures r in run.states[k + 1].runners && (IsIdle(run.states[k + 1], r) ==> early && InWindow(run, k + 1, id, r))
  {
    var db, s := run.states[k], run.steps[k];
    assert StepTaken(run, k) && Guarded(run, k, early);
    HolderOrFires(db, s, id, r);
    if FiresOn(db, s, r) && s.job == id {
      FiredIsBusy(db, s, r);
    } else {
      assert HeldAt(db, id, r);
      RunnerAfter(db, s, r);
      if IsIdle(db, r) {
        WindowGoesOn(run, k, id, r);
      } else if IsIdle(run.states[k + 1], r) {
        forall i | 0 <= i <= k ensures AtMostOneEach(run.states[i]) {
          assert Guarded(run, i, early);
        }
        IdleHolder(run, k, id, r, early);
      }
    }
  }

  /** Endings and releases paired in this order, at any distance and under any interleaving: every state is
      exclusive. */
  lemma PairedRunIsExclusive(run: Run, k: nat)
    requires IsRun(run) && Disciplined(run, false) && k <= |run.steps|
    ensures Exclusive(run.states[k])
  {
    DisciplinedIsGuarded(run, k, false);
    assert Guarded(run, k, false);
    forall id, r | id in run.states[k].jobs && HeldBy(run.states[k].jobs[id], r)
      ensures r in run.states[k].runners && run.states[k].runners[r].status != Idle
    {
      assert HeldAt(run.states[k], id, r);
    }
  }

  /** With early releases too, no runner ever has two jobs, and none is idle with a job but between such a
      release and its ending. */
  lemma EarlyReleasesKeepOneEach(run: Run, k: nat)
    requires IsRun(run) && Disciplined(run, true) && k <= |run.steps|
    ensures AtMostOneEach(run.states[k])
    ensures forall id, r :: HeldAt(run.states[k], id, r) && IsIdle(run.states[k], r) ==> InWindow(run, k, id, r)
  {
    DisciplinedIsGuarded(run, k, true);
    assert Guarded(run, k, true);
  }

  // Stretches of a run, as the handlers see them

  /** Between two statements of a handler the other tasks take safe steps, none of them making the runner idle. */
  ghost predicate Quiet(run: Run, i: nat, k: nat, r: RunnerId)
    requires |run.states| == |run.steps| + 1 && k <= |run.steps|
  {
    forall m {:trigger run.steps[m]} ::
      i <= m < k ==> SafeStep(run.states[m], run.steps[m]) && !IdleMaking(run.steps[m], r)
  }

  lemma {:induction false} SafeStretch(run: Run, i: nat, k: nat)
    requires IsRun(run) && i <= k <= |run.steps| && Exclusive(run.states[i])
    requires forall m :: i <= m < k ==> SafeStep(run.states[m], run.steps[m])
    ensures Exclusive(run.states[k])
    decreases k - i
  {
    if i < k {
      SafeStretch(run, i, k - 1);
      assert StepTaken(run, k - 1);
      SafeStepKeepsExclusive(run.states[k - 1], run.steps[k - 1]);
    }
  }

  lemma QuietAfterEnding(run: Run, i: nat, k: nat, id: JobId, r: RunnerId)
    requires IsRun(run) && i < k <= |run.steps|
    requires Exclusive(run.states[i]) && EndsJobOf(run, i, id, r) && Quiet(run, i + 1, k, r)
    ensures Exclusive(run.states[k]) && IsFree(run.states[k], r)
  {
    assert StepTaken(run, i);
    EndingIsSafe(run.states[i], run.steps[i], id, r);
    SafeStretch(run, i, k);
    FreeSinceEnding(run, i, k, id, r);
  }

  /** An ending, a quiet stretch, and the release. */
  lemma EndingThenRelease(run: Run, i: nat, k: nat, id: JobId, r: RunnerId)
    requires IsRun(run) && i < k < |run.steps| && run.steps[k] == Release(r)
    requires Exclusive(run.states[i]) && EndsJobOf(run, i, id, r) && Quiet(run, i + 1, k, r)
    ensures Exclusive(run.states[k + 1]) && !HasInFlight(run.states[k + 1], r)
  {
    assert StepTaken(run, k);
    QuietAfterEnding(run, i, k, id, r);
    SafeStepKeepsExclusive(run.states[k], Release(r));
    FreeStaysFree(run.states[k], Release(r), r);
  }

  lemma EndingIsSafe(db: Db, s: Step, id: JobId, r: RunnerId)
    requires Exclusive(db) && HeldAt(db, id, r) && !HeldAt(Apply(db, s), id, r)
    ensures SafeStep(db, s) && !IsIdle(db, r)
  {
    RowAfter(db, s, id);
    EndingSteps(db, s, id, r);
  }

  /** Offline or disabled: a release finds nothing to do, and no claim takes effect. */
  predicate Down(db: Db, r: RunnerId) {
    r in db.runners && (db.runners[r].status == Offline || db.runners[r].status == Disabled)
  }

  /** Between the statements that follow a lost connection nothing reconnects or resumes this runner. */
  ghost predicate QuietWhileDown(run: Run, i: nat, k: nat, r: RunnerId)
    requires |run.states| == |run.steps| + 1 && k <= |run.steps|
  {
    forall m {:trigger run.steps[m]} :: i <= m < k ==>
      run.steps[m] == Release(r) || (SafeStep(run.states[m], run.steps[m]) && !IdleMaking(run.steps[m], r))
  }

  lemma DownStep(db: Db, s: Step, r: RunnerId)
    requires Exclusive(db) && Down(db, r)
    requires s == Release(r) || (SafeStep(db, s) && !IdleMaking(s, r))
    ensures Exclusive(Apply(db, s)) && Down(Apply(db, s), r)
    ensures !HasInFlight(db, r) ==> !HasInFlight(Apply(db, s), r)
  {
    RunnerAfter(db, s, r);
    SafeStepKeepsExclusive(db, s);
    if !HasInFlight(db, r) {
      StillNoneInFlight(db, s, r);
    }
  }

  lemma StillNoneInFlight(db: Db, s: Step, r: RunnerId)
    requires !HasInFlight(db, r) && !FiresOn(db, s, r)
    ensures !HasInFlight(Apply(db, s), r)
  {
    var next := Apply(db, s);
    forall id, o | HeldAt(next, id, o) ensures o != r {
      if o == r {
        HolderOrFires(db, s, id, r);
      }
    }
    NoHolder(next, r);
  }

  lemma {:induction false} DownStretch(run: Run, i: nat, k: nat, r: RunnerId)
    requires IsRun(run) && i <= k <= |run.steps| && QuietWhileDown(run, i, k, r)
    requires Exclusive(run.states[i]) && Down(run.states[i], r)
    ensures Exclusive(run.states[k]) && Down(run.states[k], r)
    ensures !HasInFlight(run.states[i], r) ==> !HasInFlight(run.states[k], r)
    decreases k - i
  {
    if i < k {
      DownStretch(run, i, k - 1, r);
      assert StepTaken(run, k - 1);
      DownStep(run.states[k - 1], run.steps[k - 1], r);
    }
  }

  /** Exclusive, but for one job of a runner that may be idle: the state after an early release. */
  ghost predicate ExclusiveBut(db: Db, id: JobId, r: RunnerId) {
    && AtMostOneEach(db)
    && forall other, o {:trigger HeldAt(db, other, o)} :: HeldAt(db, other, o) ==>
         o in db.runners && (IsIdle(db, o) ==> other == id && o == r)
  }

  /** Between the early release and the ending no claim takes effect on the runner, and other steps are safe. */
  ghost predicate QuietWindow(run: Run, i: nat, k: nat, r: RunnerId)
    requires |run.states| == |run.steps| + 1 && k <= |run.steps|
  {
    forall m {:trigger run.steps[m]} :: i <= m < k ==>
      SafeStep(run.states[m], run.steps[m]) && !FiresOn(run.states[m], run.steps[m], r)
  }

  lemma WindowKeepsOne(db: Db, s: Step, id: JobId, r: RunnerId)
    requires ExclusiveBut(db, id, r) && !FiresOn(db, s, r)
    ensures AtMostOneEach(Apply(db, s))
  {
    AtMostOneIff(db, s);
    if DoubleClaim(db, s) {
      var held :| held in db.jobs && HeldBy(db.jobs[held], s.runner);
      assert HeldAt(db, held, s.runner);
    }
  }

  lemma WindowStep(db: Db, s: Step, id: JobId, r: RunnerId)
    requires ExclusiveBut(db, id, r) && SafeStep(db, s) && !FiresOn(db, s, r)
    ensures ExclusiveBut(Apply(db, s), id, r)
  {
    var next := Apply(db, s);
    WindowKeepsOne(db, s, id, r);
    forall other, o | HeldAt(next, other, o)
      ensures o in next.runners && (IsIdle(next, o) ==> other == id && o == r)
    {
      HolderOrFires(db, s, other, o);
      RunnerAfter(db, s, o);
      if HeldAt(db, other, o) {
        assert HasInFlight(db, o);
        if IsIdle(next, o) && !IsIdle(db, o) {
          IdleComesFrom(db, s, o);
        }
      } else {
        FiredIsBusy(db, s, o);
      }
    }
  }

  lemma {:induction false} WindowStretch(run: Run, i: nat, k: nat, id: JobId, r: RunnerId)
    requires IsRun(run) && i <= k <= |run.steps| && QuietWindow(run, i, k, r)
    requires ExclusiveBut(run.states[i], id, r)
    ensures ExclusiveBut(run.states[k], id, r)
    decreases k - i
  {
    if i < k {
      WindowStretch(run, i, k - 1, id, r);
      assert StepTaken(run, k - 1);
      WindowStep(run.states[k - 1], run.steps[k - 1], id, r);
    }
  }

  /** The early release opens the window at most for the job it is paired with. */
  lemma WindowOpens(db: Db, id: JobId, r: RunnerId)
    requires Exclusive(db) && (HeldAt(db, id, r) || SafeStep(db, Release(r)))
    ensures ExclusiveBut(Apply(db, Release(r)), id, r)
  {
    var next := Apply(db, Release(r));
    AtMostOneIff(db, Release(r));
    forall other, o | HeldAt(next, other, o)
      ensures o in next.runners && (IsIdle(next, o) ==> other == id && o == r)
    {
      HolderOrFires(db, Release(r), other, o);
      RunnerAfter(db, Release(r), o);
      assert HasInFlight(db, o);
      if IsIdle(next, o) {
        IdleComesFrom(db, Release(r), o);
      }
    }
  }

  /** The forced ending closes it. */
  lemma WindowCloses(db: Db, s: Step, id: JobId, r: RunnerId)
    requires ExclusiveBut(db, id, r) && s.ForceFinish? && s.job == id
    ensures Exclusive(Apply(db, s))
    ensures forall o :: HeldAt(db, id, o) ==> !HasInFlight(Apply(db, s), o)
  {
    var next := Apply(db, s);
    WindowStep(db, s, id, r);
    ForcedIsNotHeld(db, s, id);
    forall other, o | other in next.jobs && HeldBy(next.jobs[other], o)
      ensures o in next.runners && next.runners[o].status != Idle
    {
      assert HeldAt(next, other, o);
    }
    forall o | HeldAt(db, id, o) ensures !HasInFlight(next, o) {
      forall other, p | HeldAt(next, other, p) ensures p != o {
        HolderOrFires(db, s, other, p);
      }
      NoHolder(next, o);
    }
  }

  lemma ForcedIsNotHeld(db: Db, s: Step, id: JobId)
    requires s.ForceFinish? && s.job == id
    ensures forall o :: !HeldAt(Apply(db, s), id, o)
  {
    RowAfter(db, s, id);
  }

  /** A failed dispatch releases the runner before it ends the job. In between, the runner is idle
      with a job in flight exactly when it was busy and not draining; the ending repairs it. */
  lemma EarlyReleaseIsRepaired(db: Db, id: JobId, r: RunnerId, s: Step)
    requires Exclusive(db) && HeldAt(db, id, r) && s.ForceFinish? && s.job == id
    ensures AtMostOneEach(Apply(db, Release(r)))
    ensures r in db.runners
    ensures Exclusive(Apply(db, Release(r))) <==> !(db.runners[r].status == Busy && db.runners[r].draining == None)
    ensures Exclusive(Apply(Apply(db, Release(r)), s)) && !HasInFlight(Apply(Apply(db, Release(r)), s), r)
  {
    var mid := Apply(db, Release(r));
    assert HasInFlight(db, r);
    ExclusiveIff(db, Release(r));
    WindowOpens(db, id, r);
    RowAfter(db, Release(r), id);
    WindowCloses(mid, s, id, r);
  }

  /** Early release at n, quiet window, forced ending at f: exclusive again, and whoever held the job is free. */
  lemma DispatchFailure(run: Run, n: nat, f: nat, id: JobId, r: RunnerId)
    requires IsRun(run) && n < f < |run.steps|
    requires run.steps[n] == Release(r) && run.steps[f].ForceFinish? && run.steps[f].job == id
    requires Exclusive(run.states[n]) && (HeldAt(run.states[n], id, r) || SafeStep(run.states[n], Release(r)))
    requires QuietWindow(run, n + 1, f, r)
    ensures Exclusive(run.states[f + 1])
    ensures forall o :: HeldAt(run.states[f], id, o) ==> !HasInFlight(run.states[f + 1], o)
  {
    assert StepTaken(run, n) && StepTaken(run, f);
    WindowOpens(run.states[n], id, r);
    WindowStretch(run, n + 1, f, id, r);
    WindowCloses(run.states[f], run.steps[f], id, r);
  }

  /** A stretch in which, besides, no claim takes effect on the runner ends with a safe release. */
  lemma {:induction false} ReleaseAfterStretch(run: Run, i: nat, k: nat, r: RunnerId)
    requires IsRun(run) && i <= k <= |run.steps| && QuietWindow(run, i, k, r)
    requires Exclusive(run.states[i]) && !HasInFlight(run.states[i], r)
    ensures Exclusive(run.states[k]) && !HasInFlight(run.states[k], r)
    ensures Exclusive(Apply(run.states[k], Release(r)))
    decreases k - i
  {
    if i < k {
      ReleaseAfterStretch(run, i, k - 1, r);
      assert StepTaken(run, k - 1);
      SafeStepKeepsExclusive(run.states[k - 1], run.steps[k - 1]);
      StillNoneInFlight(run.states[k - 1], run.steps[k - 1], r);
    }
    SafeStepKeepsExclusive(run.states[k], Release(r));
  }

  // Without the discipline

  /** A release that follows its ending, but after a reconnect and a claim in between: every step but the last
      is safe, the reconnect finds nothing in flight, and the runner ends idle with a job in flight. */
  lemma LateReleaseBreaks(db: Db, r: RunnerId, first: JobId, second: JobId, now: Time)
    requires ClaimFires(db, first, r) && ClaimFires(db, second, r) && first != second
    requires !HasInFlight(db, r) && db.runners[r].draining == None
    ensures var ended := Apply(Apply(db, Claim(first, r, now)), FinishFromRunner(first, r, Success, None, None, now));
      && !HasInFlight(ended, r) && SafeStep(ended, MarkConnected(r))
      && BrokenByRelease(Apply(Apply(ended, MarkConnected(r)), Claim(second, r, now)), second, r)
  {
    var ended := EndFirst(db, r, first, second, now, FinishFromRunner(first, r, Success, None, None, now));
    Reclaimed(ended, r, second, now);
  }

  /** The runner holds a job, so the release is unsafe, and it makes the runner idle with the job in flight. */
  ghost predicate BrokenByRelease(db: Db, id: JobId, r: RunnerId) {
    && HeldAt(db, id, r) && !SafeStep(db, Release(r))
    && IsIdle(Apply(db, Release(r)), r) && HeldAt(Apply(db, Release(r)), id, r)
  }

  lemma Reclaimed(db: Db, r: RunnerId, queued: JobId, now: Time)
    requires r in db.runners && db.runners[r].revoked == None && db.runners[r].draining == None
    requires queued in db.jobs && db.jobs[queued].status == Queued && db.jobs[queued].runner == None
    ensures BrokenByRelease(Apply(Apply(db, MarkConnected(r)), Claim(queued, r, now)), queued, r)
  {
    var connected := Apply(db, MarkConnected(r));
    Reconnected(db, r, queued);
    var reclaimed := Apply(connected, Claim(queued, r, now));
    RowAfter(connected, Claim(queued, r, now), queued);
    RunnerAfter(connected, Claim(queued, r, now), r);
    ReleasedIdle(reclaimed, r, queued);
  }

  lemma EndFirst(db: Db, r: RunnerId, first: JobId, second: JobId, now: Time, ending: Step) returns (ended: Db)
    requires ClaimFires(db, first, r) && ClaimFires(db, second, r) && first != second
    requires !HasInFlight(db, r) && db.runners[r].draining == None
    requires ending == FinishFromRunner(first, r, Success, None, None, now)
    ensures ended == Apply(Apply(db, Claim(first, r, now)), ending)
    ensures !HasInFlight(ended, r) && r in ended.runners
    ensures ended.runners[r].revoked == None && ended.runners[r].draining == None
    ensures second in ended.jobs && ended.jobs[second] == db.jobs[second]
  {
    var claimed := Apply(db, Claim(first, r, now));
    ended := Apply(claimed, ending);
    RowAfter(db, Claim(first, r, now), second);
    RowAfter(claimed, ending, second);
    RunnerAfter(db, Claim(first, r, now), r);
    RunnerAfter(claimed, ending, r);
    forall id, o | HeldAt(ended, id, o) ensures o != r {
      if o == r {
        HolderOrFires(claimed, ending, id, r);
        HolderOrFires(db, Claim(first, r, now), id, r);
        RowAfter(claimed, ending, first);
      }
    }
    NoHolder(ended, r);
  }

  lemma Reconnected(db: Db, r: RunnerId, queued: JobId)
    requires r in db.runners && db.runners[r].revoked == None && db.runners[r].draining == None
    requires queued in db.jobs && db.jobs[queued].status == Queued && db.jobs[queued].runner == None
    ensures ClaimFires(Apply(db, MarkConnected(r)), queued, r)
    ensures Apply(db, MarkConnected(r)).runners[r].draining == None
  {
    RowAfter(db, MarkConnected(r), queued);
  }

  lemma ReleasedIdle(db: Db, r: RunnerId, id: JobId)
    requires HeldAt(db, id, r) && r in db.runners && db.runners[r].status == Busy && db.runners[r].draining == None
    ensures BrokenByRelease(db, id, r)
  {
    RowAfter(db, Release(r), id);
    assert HasInFlight(db, r);
  }
}
