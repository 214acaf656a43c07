/** The runner's side of an assignment: one slot, filled by an accepted
    assignment and emptied when the executor it started has reported. */
module RunnerSlotModel {
  import opened Options

  type JobId = nat
  type RunnerId = nat

  datatype ActiveJob = ActiveJob(job: JobId, cancelled: bool)
  datatype Assignment = Assignment(job: JobId, runner: RunnerId, verified: bool)
  datatype Message = JobAck(job: JobId) | JobResult(job: JobId) | Heartbeat(busy: Option<JobId>)

  /** An executor between its start and its end; `reported` once its result is sent. */
  datatype Executor = Executor(job: JobId, reported: bool)

  class RunnerSlot {
    const runner: RunnerId
    var slot: Option<ActiveJob>
    var executors: seq<Executor>
    var outbox: seq<Message>
    ghost var accepted: seq<JobId>
    ghost var reported: seq<JobId>

    /** The slot is full exactly while one executor is alive, and names its job;
        every accepted job but possibly the last has been reported, in order. */
    ghost predicate Valid()
      reads this
    {
      && |executors| <= 1
      && (slot.Some? <==> executors != [])
      && (slot.Some? ==>
          executors[0].job == slot.value.job && accepted != [] && accepted[|accepted| - 1] == slot.value.job)
      && reported == (if executors != [] && !executors[0].reported then accepted[..|accepted| - 1] else accepted)
      && reported == Reports(outbox)
    }

    constructor (runner: RunnerId)
      ensures Valid() && this.runner == runner && slot == None && accepted == [] && outbox == []
    {
      this.runner := runner;
      slot, executors, outbox := None, [], [];
      accepted, reported := [], [];
    }

    /** Accept when the signature verifies, the payload names this runner and
        the slot is free; otherwise change nothing. The ack is dropped when the
        outbound queue is full, but the job runs all the same. */
    method OnJobAssign(a: Assignment, queueFull: bool) returns (accepts: bool)
      requires Valid()
      modifies this
      ensures Valid()
      ensures accepts <==> a.verified && a.runner == runner && old(slot) == None
      ensures accepts ==>
        && slot == Some(ActiveJob(a.job, false)) && executors == [Executor(a.job, false)]
        && accepted == old(accepted) + [a.job] && reported == old(reported)
        && outbox == old(outbox) + if queueFull then [] else [JobAck(a.job)]
      ensures !accepts ==>
        slot == old(slot) && executors == old(executors) && outbox == old(outbox) && accepted == old(accepted)
    {
      accepts := false;
      if !a.verified || a.runner != runner || slot.Some? {
        return;
      }
      assert executors == [] && reported == accepted;
      slot := Some(ActiveJob(a.job, false));
      if !queueFull {
        ReportsAppend(outbox, JobAck(a.job));
        outbox := outbox + [JobAck(a.job)];
      }
      executors := [Executor(a.job, false)];
      accepted := accepted + [a.job];
      assert accepted[..|accepted| - 1] == reported;
      accepts := true;
    }

    /** A cancel reaches the executor only if the slot holds that very job. */
    method OnJobCancel(job: JobId)
      requires Valid()
      modifies this`slot
      ensures Valid()
      ensures slot == if old(slot).Some? && old(slot).value.job == job then Some(ActiveJob(job, true)) else old(slot)
    {
      if slot.Some? && slot.value.job == job {
        slot := Some(slot.value.(cancelled := true));
      }
    }

    /** The executor sends its terminal report, before it frees the slot. */
    method SendResult()
      requires Valid() && executors != [] && !executors[0].reported
      modifies this
      ensures Valid() && slot == old(slot) && accepted == old(accepted)
      ensures executors == [Executor(old(executors)[0].job, true)]
      ensures outbox == old(outbox) + [JobResult(old(executors)[0].job)]
    {
      var job := executors[0].job;
      ReportsAppend(outbox, JobResult(job));
      outbox := outbox + [JobResult(job)];
      executors := [Executor(job, true)];
      reported := reported + [job];
      assert accepted == accepted[..|accepted| - 1] + [job];
    }

    /** `take()` is unconditional; it can only take the executor's own job. */
    method FreeSlot()
      requires Valid() && executors != [] && executors[0].reported
      modifies this
      ensures Valid() && slot == None && executors == [] && outbox == old(outbox) && accepted == old(accepted)
      ensures old(slot).Some? && old(slot).value.job == old(executors)[0].job
    {
      slot := None;
      executors := [];
    }
  }

  /** The jobs whose terminal reports were sent, in order. */
  function Reports(messages: seq<Message>): seq<JobId> {
    if messages == [] then []
    else
      var last := messages[|messages| - 1];
      Reports(messages[..|messages| - 1]) + if last.JobResult? then [last.job] else []
  }

  lemma ReportsAppend(messages: seq<Message>, m: Message)
    ensures Reports(messages + [m]) == Reports(messages) + if m.JobResult? then [m.job] else []
  {
    assert (messages + [m])[..|messages|] == messages;
  }
}
