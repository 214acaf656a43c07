/** Pipeline creation as interleaved transactions. Each method is one statement
    of one open transaction; a statement that would wait on another
    transaction's row lock reports `Blocked` and changes nothing. */
module PipelineCreationModel {
  import opened Options

  type PipelineId = nat
  type RepositoryId = nat
  type WorkflowId = nat
  type TxId = nat

  datatype PlannedJob = PlannedJob(key: string, needs: seq<string>)
  datatype JobRow = JobRow(pipeline: PipelineId, key: string, needs: seq<string>, position: nat)
  datatype Request = Request(repository: RepositoryId, workflow: WorkflowId, delivery: Option<string>,
    jobs: seq<PlannedJob>)
  datatype Pipeline = Pipeline(repository: RepositoryId, workflow: WorkflowId, delivery: Option<string>, number: nat)

  /** How far an open transaction has come. Its own writes live here until it commits. */
  datatype Phase =
    | Checked
    | Numbered(number: nat)
    | Inserted(id: PipelineId, number: nat, rows: seq<JobRow>)

  datatype Tx = Tx(request: Request, phase: Phase)

  datatype Outcome = Blocked | Continues | Existing(id: PipelineId) | Created(id: PipelineId)

  /** The rows of the planned jobs, in their order. */
  function JobRows(id: PipelineId, jobs: seq<PlannedJob>): seq<JobRow> {
    seq(|jobs|, k requires 0 <= k < |jobs| => JobRow(id, jobs[k].key, jobs[k].needs, k))
  }

  lemma JobRowsSnoc(id: PipelineId, jobs: seq<PlannedJob>, k: nat)
    requires k < |jobs|
    ensures JobRows(id, jobs[..k + 1]) == JobRows(id, jobs[..k]) + [JobRow(id, jobs[k].key, jobs[k].needs, k)]
  {
  }

  predicate SameKey(a: Pipeline, b: Pipeline) {
    a.delivery.Some? && a.delivery == b.delivery && a.workflow == b.workflow
  }

  predicate SameNumber(a: Pipeline, b: Pipeline) {
    a.repository == b.repository && a.number == b.number
  }

  predicate SameDelivery(p: Pipeline, r: Request) {
    r.delivery.Some? && p.delivery == r.delivery && p.workflow == r.workflow
  }

  function RowOf(r: Request, number: nat): Pipeline {
    Pipeline(r.repository, r.workflow, r.delivery, number)
  }

  /** A transaction past the counter bump holds the lock on its repository's counter row. */
  predicate HoldsCounter(t: Tx, repository: RepositoryId) {
    !t.phase.Checked? && t.request.repository == repository
  }

  /** An uncommitted insert holds its (delivery, workflow) index entry. */
  predicate HoldsDelivery(t: Tx, r: Request) {
    t.phase.Inserted? && SameDelivery(RowOf(t.request, 0), r)
  }

  /** Two open transactions share no counter lock, no new id and no index entry. */
  predicate Apart(t: Tx, u: Tx) {
    && (!t.phase.Checked? && !u.phase.Checked? ==> t.request.repository != u.request.repository)
    && (t.phase.Inserted? && u.phase.Inserted? ==> t.phase.id != u.phase.id && !HoldsDelivery(u, t.request))
  }

  type Pipelines = map<PipelineId, Pipeline>
  type Counters = map<RepositoryId, nat>

  /** The next number of a repository; a missing counter row counts from 1. */
  function NextNumber(counters: Counters, repository: RepositoryId): nat {
    if repository in counters then counters[repository] else 1
  }

  predicate Taken(pipelines: Pipelines, repository: RepositoryId, number: nat) {
    exists id :: id in pipelines && pipelines[id].repository == repository && pipelines[id].number == number
  }

  /** At most one pipeline per (delivery, workflow). */
  predicate DeliveryUnique(pipelines: Pipelines) {
    forall a, b :: a in pipelines && b in pipelines && SameKey(pipelines[a], pipelines[b]) ==> a == b
  }

  /** The numbers of a repository are exactly 1 .. next - 1, each used once. */
  ghost predicate NumbersGapless(pipelines: Pipelines, counters: Counters) {
    && (forall repository :: 1 <= NextNumber(counters, repository))
    && (forall id :: id in pipelines ==> 1 <= pipelines[id].number < NextNumber(counters, pipelines[id].repository))
    && (forall repository, n :: 1 <= n < NextNumber(counters, repository) ==> Taken(pipelines, repository, n))
    && (forall a, b :: a in pipelines && b in pipelines && SameNumber(pipelines[a], pipelines[b]) ==> a == b)
  }

  /** The job rows written so far are those of the first planned jobs. */
  predicate InsertedSoFar(t: Tx)
    requires t.phase.Inserted?
  {
    |t.phase.rows| <= |t.request.jobs| && t.phase.rows == JobRows(t.phase.id, t.request.jobs[..|t.phase.rows|])
  }

  /** An open transaction holds the number its repository hands out next, and
      an inserted row collides with no committed one. */
  ghost predicate TxOk(pipelines: Pipelines, counters: Counters, t: Tx) {
    && (!t.phase.Checked? ==> t.phase.number == NextNumber(counters, t.request.repository))
    && (t.phase.Inserted? ==> t.phase.id !in pipelines)
    && (t.phase.Inserted? ==> InsertedSoFar(t))
    && (t.phase.Inserted? ==> forall id :: id in pipelines ==> !SameDelivery(pipelines[id], t.request))
  }

  /** Committing an inserted row with the number it holds extends the numbers by one. */
  lemma CommitKeepsGapless(pipelines: Pipelines, counters: Counters, t: Tx)
    requires t.phase.Inserted? && TxOk(pipelines, counters, t) && NumbersGapless(pipelines, counters)
    ensures NumbersGapless(pipelines[t.phase.id := RowOf(t.request, t.phase.number)],
                           counters[t.request.repository := t.phase.number + 1])
  {
    var after := pipelines[t.phase.id := RowOf(t.request, t.phase.number)];
    var next := counters[t.request.repository := t.phase.number + 1];
    assert forall r ::
      NextNumber(next, r) == NextNumber(counters, r) + if r == t.request.repository then 1 else 0;
    forall repository, n | 1 <= n < NextNumber(next, repository)
      ensures Taken(after, repository, n)
    {
      if repository == t.request.repository && n == t.phase.number {
        assert after[t.phase.id].number == n;
      } else {
        assert Taken(pipelines, repository, n);
        var id :| id in pipelines && pipelines[id].repository == repository && pipelines[id].number == n;
        assert after[id] == pipelines[id];
      }
    }
  }

  lemma CommitKeepsDeliveryUnique(pipelines: Pipelines, counters: Counters, t: Tx)
    requires t.phase.Inserted? && TxOk(pipelines, counters, t) && DeliveryUnique(pipelines)
    ensures DeliveryUnique(pipelines[t.phase.id := RowOf(t.request, t.phase.number)])
  {
    forall id | id in pipelines && SameKey(pipelines[id], RowOf(t.request, t.phase.number))
      ensures false
    {
      assert SameDelivery(pipelines[id], t.request);
    }
  }

  /** Transactions on other repositories, with other keys, do not notice the commit. */
  lemma CommitKeepsOthers(pipelines: Pipelines, counters: Counters, t: Tx, u: Tx)
    requires t.phase.Inserted? && TxOk(pipelines, counters, u) && Apart(t, u) && Apart(u, t)
    ensures TxOk(pipelines[t.phase.id := RowOf(t.request, t.phase.number)],
                 counters[t.request.repository := t.phase.number + 1], u)
  {}

  /** No open transaction holds a lock this request would wait for, or the id it would use. */
  predicate NoneInTheWay(open: map<TxId, Tx>, r: Request, unused: PipelineId) {
    && (forall u :: u in open ==> !HoldsCounter(open[u], r.repository) && !HoldsDelivery(open[u], r))
    && (forall u :: u in open && open[u].phase.Inserted? ==> open[u].phase.id != unused)
  }

  /** A transaction that has only checked holds nothing. */
  lemma CheckedBeside(open: map<TxId, Tx>, t: TxId, r: Request, unused: PipelineId)
    requires t !in open && NoneInTheWay(open, r, unused)
    ensures NoneInTheWay(open[t := Tx(r, Checked)], r, unused)
    ensures open[t := Tx(r, Checked)] - {t} == open
  {
  }

  /** A statement of another transaction. */
  datatype Statement =
    | DoBegin(t: TxId, r: Request) | DoBump(t: TxId) | DoInsert(t: TxId, id: PipelineId)
    | DoInsertJob(t: TxId) | DoCommit(t: TxId) | DoRollBack(t: TxId)

  /** It belongs to another transaction than `mine`, and does not use the id reserved there. */
  predicate Foreign(s: Statement, mine: TxId, unused: PipelineId) {
    s.t != mine && (s.DoInsert? ==> s.id != unused)
  }

  predicate AllForeign(statements: seq<Statement>, mine: TxId, unused: PipelineId) {
    forall k :: 0 <= k < |statements| ==> Foreign(statements[k], mine, unused)
  }

  /** The statement's transaction is where it takes effect, and has nothing to wait for. */
  predicate Ready(s: Statement, pipelines: Pipelines, open: map<TxId, Tx>) {
    if s.DoBegin? then s.t !in open && forall p :: p in pipelines ==> !SameDelivery(pipelines[p], s.r)
    else
      && s.t in open
      && match s
         case DoBump(t) =>
           open[t].phase.Checked? && forall u :: u in open ==> !HoldsCounter(open[u], open[t].request.repository)
         case DoInsert(t, id) =>
           && open[t].phase.Numbered? && id !in pipelines
           && forall u :: u in open && open[u].phase.Inserted? ==>
             open[u].phase.id != id && !HoldsDelivery(open[u], open[t].request)
         case DoInsertJob(t) => open[t].phase.Inserted? && |open[t].phase.rows| < |open[t].request.jobs|
         case DoCommit(t) => open[t].phase.Inserted? && |open[t].phase.rows| == |open[t].request.jobs|
         case _ => true
  }

  predicate Moved(before: map<TxId, Tx>, after: map<TxId, Tx>, t: TxId) {
    if t in before && t in after then before[t] != after[t] else t in before || t in after
  }

  /** No committed row and no other transaction uses this id. */
  predicate Reserved(pipelines: Pipelines, open: map<TxId, Tx>, mine: TxId, unused: PipelineId) {
    unused !in pipelines && forall u :: u in open && u != mine && open[u].phase.Inserted? ==> open[u].phase.id != unused
  }

  function WithRows(t: Tx, rows: seq<JobRow>): Tx
    requires t.phase.Inserted?
  {
    t.(phase := t.phase.(rows := rows))
  }

  class PipelineStore {
    var pipelines: Pipelines
    var jobs: map<PipelineId, seq<JobRow>>
    var counters: Counters
    var open: map<TxId, Tx>

    /** What row locks and index entries guarantee about open transactions. */
    ghost predicate LocksOk()
      reads this
    {
      && (forall t :: t in open ==> TxOk(pipelines, counters, open[t]))
      && (forall t, u :: t in open && u in open && t != u ==> Apart(open[t], open[u]))
    }

    ghost predicate Valid()
      reads this
    {
      && pipelines.Keys == jobs.Keys
      && DeliveryUnique(pipelines) && NumbersGapless(pipelines, counters) && LocksOk()
    }

    constructor ()
      ensures Valid() && pipelines == map[] && counters == map[] && open == map[]
    {
      pipelines, jobs, counters, open := map[], map[], map[], map[];
    }

    /** Begin, and the early check: a delivery already recorded costs no number. */
    method Begin(t: TxId, r: Request) returns (outcome: Outcome)
      requires Valid() && t !in open
      modifies this`open
      ensures Valid()
      ensures outcome == Continues
        || (outcome.Existing? && outcome.id in pipelines && SameDelivery(pipelines[outcome.id], r))
      ensures outcome == Continues <==> forall id :: id in pipelines ==> !SameDelivery(pipelines[id], r)
      ensures open == if outcome == Continues then old(open)[t := Tx(r, Checked)] else old(open)
    {
      if id :| id in pipelines && SameDelivery(pipelines[id], r) {
        outcome := Existing(id);
      } else {
        open := open[t := Tx(r, Checked)];
        outcome := Continues;
      }
    }

    /** The counter upsert: it waits for any transaction that has bumped the same
        counter, then claims the number the last commit left. */
    method BumpCounter(t: TxId) returns (outcome: Outcome)
      requires Valid() && t in open && open[t].phase.Checked?
      modifies this`open
      ensures Valid()
      ensures outcome == Blocked || outcome == Continues
      ensures var r := old(open)[t].request;
        && (outcome == Blocked <==> exists u ::
              u in old(open) && !old(open)[u].phase.Checked? && old(open)[u].request.repository == r.repository)
        && open == if outcome == Blocked then old(open)
                   else old(open)[t := Tx(r, Numbered(NextNumber(counters, r.repository)))]
    {
      var r := open[t].request;
      if u :| u in open && HoldsCounter(open[u], r.repository) {
        return Blocked;
      }
      open := open[t := Tx(r, Numbered(NextNumber(counters, r.repository)))];
      outcome := Continues;
    }

    /** The pipeline insert. It waits for an uncommitted row of the same delivery;
        when a committed one is there, the whole transaction rolls back, the
        number included, and the winner's row is the answer. The unique key on
        (repository, number) cannot fire: the number is never taken. */
    method InsertPipeline(t: TxId, id: PipelineId) returns (outcome: Outcome)
      requires Valid() && t in open && open[t].phase.Numbered?
      requires id !in pipelines && forall u :: u in open && open[u].phase.Inserted? ==> open[u].phase.id != id
      modifies this`open
      ensures Valid()
      ensures !Taken(pipelines, old(open)[t].request.repository, old(open)[t].phase.number)
      ensures var r := old(open)[t].request;
        outcome == Blocked <==> r.delivery.Some? && exists u ::
          && u in old(open) && old(open)[u].phase.Inserted?
          && old(open)[u].request.delivery == r.delivery && old(open)[u].request.workflow == r.workflow
      ensures outcome == Blocked ==> open == old(open)
      ensures outcome == Continues ==>
        open == old(open)[t := Tx(old(open)[t].request, Inserted(id, old(open)[t].phase.number, []))]
      ensures outcome.Existing? ==>
        open == old(open) - {t} && outcome.id in pipelines && SameDelivery(pipelines[outcome.id], old(open)[t].request)
      ensures !outcome.Created?
      ensures outcome.Existing? <==>
        outcome != Blocked && exists p :: p in pipelines && SameDelivery(pipelines[p], old(open)[t].request)
    {
      var r := open[t].request;
      if u :| u in open && HoldsDelivery(open[u], r) {
        return Blocked;
      }
      if p :| p in pipelines && SameDelivery(pipelines[p], r) {
        open := open - {t};
        return Existing(p);
      }
      open := open[t := Tx(r, Inserted(id, open[t].phase.number, []))];
      outcome := Continues;
    }

    /** One turn of the loop that inserts the planned jobs: the next row, in the working copy. */
    method InsertJob(t: TxId)
      requires Valid() && t in open && open[t].phase.Inserted? && |open[t].phase.rows| < |open[t].request.jobs|
      modifies this`open
      ensures Valid()
      ensures var tx := old(open)[t];
        open == old(open)[t := WithRows(tx, JobRows(tx.phase.id, tx.request.jobs[..|tx.phase.rows| + 1]))]
    {
      var tx := open[t];
      var k := |tx.phase.rows|;
      var job := tx.request.jobs[k];
      JobRowsSnoc(tx.phase.id, tx.request.jobs, k);
      open := open[t := WithRows(tx, tx.phase.rows + [JobRow(tx.phase.id, job.key, job.needs, k)])];
    }

    /** The whole loop: a row for each planned job, in order. */
    method InsertJobs(t: TxId)
      requires Valid() && t in open && open[t].phase.Inserted? && open[t].phase.rows == []
      modifies this`open
      ensures Valid()
      ensures open == old(open)[t := WithRows(old(open)[t], JobRows(old(open)[t].phase.id, old(open)[t].request.jobs))]
    {
      ghost var tx := open[t];
      assert WithRows(tx, JobRows(tx.phase.id, tx.request.jobs[..0])) == tx;
      for k := 0 to |open[t].request.jobs|
        invariant Valid() && open == old(open)[t := WithRows(tx, JobRows(tx.phase.id, tx.request.jobs[..k]))]
      {
        InsertJob(t);
      }
      assert tx.request.jobs[..|tx.request.jobs|] == tx.request.jobs;
    }

    /** Pipeline, jobs and counter become visible together. */
    method Commit(t: TxId) returns (outcome: Outcome)
      requires Valid() && t in open && open[t].phase.Inserted? && |open[t].phase.rows| == |open[t].request.jobs|
      modifies this
      ensures Valid()
      ensures outcome == Created(old(open)[t].phase.id)
      ensures var r, n := old(open)[t].request, old(NextNumber(counters, open[t].request.repository));
        && pipelines == old(pipelines)[outcome.id := RowOf(r, n)]
        && jobs == old(jobs)[outcome.id := JobRows(outcome.id, r.jobs)]
        && counters == old(counters)[r.repository := n + 1]
        && open == old(open) - {t}
    {
      var tx := open[t];
      CommitKeepsGapless(pipelines, counters, tx);
      CommitKeepsDeliveryUnique(pipelines, counters, tx);
      forall u | u in open && u != t
        ensures TxOk(pipelines[tx.phase.id := RowOf(tx.request, tx.phase.number)],
                     counters[tx.request.repository := tx.phase.number + 1], open[u])
      {
        CommitKeepsOthers(pipelines, counters, tx, open[u]);
      }
      pipelines := pipelines[tx.phase.id := RowOf(tx.request, tx.phase.number)];
      assert tx.request.jobs[..|tx.request.jobs|] == tx.request.jobs;
      jobs := jobs[tx.phase.id := tx.phase.rows];
      counters := counters[tx.request.repository := tx.phase.number + 1];
      open := open - {t};
      outcome := Created(tx.phase.id);
    }

    /** A lost connection, a crash, or any other database error. */
    method RollBack(t: TxId)
      requires Valid() && t in open
      modifies this`open
      ensures Valid() && open == old(open) - {t}
    {
      open := open - {t};
    }

    /** What follows the early check, when nothing has to be waited for: the next number, the pipeline row,
        the job rows and the commit. */
    method CreateChecked(t: TxId, unused: PipelineId)
      requires Valid() && t in open && open[t].phase.Checked? && unused !in pipelines
      requires NoneInTheWay(open, open[t].request, unused)
      requires forall p :: p in pipelines ==> !SameDelivery(pipelines[p], open[t].request)
      modifies this
      ensures Valid() && open == old(open) - {t}
      ensures var r, n := old(open)[t].request, old(NextNumber(counters, open[t].request.repository));
        && pipelines == old(pipelines)[unused := RowOf(r, n)] && jobs == old(jobs)[unused := JobRows(unused, r.jobs)]
        && counters == old(counters)[r.repository := n + 1]
    {
      NumberAndInsert(t, unused);
      WriteAndCommit(t);
    }

    /** Counter and pipeline row. */
    method NumberAndInsert(t: TxId, unused: PipelineId)
      requires Valid() && t in open && open[t].phase.Checked? && unused !in pipelines
      requires NoneInTheWay(open, open[t].request, unused)
      requires forall p :: p in pipelines ==> !SameDelivery(pipelines[p], open[t].request)
      modifies this`open
      ensures Valid()
      ensures var r := old(open)[t].request;
        open == old(open)[t := Tx(r, Inserted(unused, NextNumber(counters, r.repository), []))]
    {
      var bumped := BumpCounter(t);
      assert bumped == Continues;
      var inserted := InsertPipeline(t, unused);
      assert inserted == Continues;
    }

    /** Job rows and commit. */
    method WriteAndCommit(t: TxId)
      requires Valid() && t in open && open[t].phase.Inserted? && open[t].phase.rows == []
      modifies this
      ensures Valid() && open == old(open) - {t}
      ensures var tx, n := old(open)[t], old(NextNumber(counters, open[t].request.repository));
        && pipelines == old(pipelines)[tx.phase.id := RowOf(tx.request, n)]
        && jobs == old(jobs)[tx.phase.id := JobRows(tx.phase.id, tx.request.jobs)]
        && counters == old(counters)[tx.request.repository := n + 1]
    {
      InsertJobs(t);
      var committed := Commit(t);
    }

    /** The whole function, in transaction `t`, beside open transactions it need not wait for: a retried
        delivery gets the recorded pipeline and changes nothing, no number included. */
    method Create(t: TxId, r: Request, unused: PipelineId) returns (id: PipelineId, created: bool)
      requires Valid() && t !in open && unused !in pipelines && NoneInTheWay(open, r, unused)
      modifies this
      ensures Valid() && open == old(open)
      ensures id in pipelines
      ensures created <==> forall p :: p in old(pipelines) ==> !SameDelivery(old(pipelines)[p], r)
      ensures !created ==> SameDelivery(pipelines[id], r)
      ensures !created ==> pipelines == old(pipelines) && jobs == old(jobs) && counters == old(counters)
      ensures created ==>
        && id == unused && jobs == old(jobs)[id := JobRows(id, r.jobs)]
        && pipelines == old(pipelines)[id := RowOf(r, old(NextNumber(counters, r.repository)))]
        && NextNumber(counters, r.repository) == old(NextNumber(counters, r.repository)) + 1
    {
      var outcome := Begin(t, r);
      if outcome.Existing? {
        return outcome.id, false;
      }
      CheckedBeside(old(open), t, r, unused);
      CreateChecked(t, unused);
      id, created := unused, true;
    }

    /** A statement of another transaction, if that transaction is where the statement needs it. */
    method Perform(s: Statement, ghost mine: TxId, ghost unused: PipelineId)
      requires Valid() && Foreign(s, mine, unused) && Reserved(pipelines, open, mine, unused)
      modifies this
      ensures Valid() && Reserved(pipelines, open, mine, unused)
      ensures Ready(s, old(pipelines), old(open)) ==> Moved(old(open), open, s.t)
      ensures s.DoCommit? && Ready(s, old(pipelines), old(open)) ==> old(open)[s.t].phase.id in pipelines
      ensures mine in open <==> mine in old(open)
      ensures mine in open ==> open[mine] == old(open)[mine]
    {
      match s {
        case DoBegin(t, r) =>
          if t !in open { var _ := Begin(t, r); }
        case DoBump(t) =>
          if t in open && open[t].phase.Checked? { var _ := BumpCounter(t); }
        case DoInsert(t, id) =>
          PerformInsert(t, id, mine, unused);
        case DoInsertJob(t) =>
          PerformRow(t, mine, unused);
        case DoCommit(t) =>
          PerformCommit(t, mine, unused);
        case DoRollBack(t) =>
          if t in open { RollBack(t); }
      }
    }

    method PerformInsert(t: TxId, id: PipelineId, ghost mine: TxId, ghost unused: PipelineId)
      requires Valid() && t != mine && id != unused && Reserved(pipelines, open, mine, unused)
      modifies this
      ensures Valid() && Reserved(pipelines, open, mine, unused)
      ensures Ready(DoInsert(t, id), old(pipelines), old(open)) ==> Moved(old(open), open, t)
      ensures mine in open <==> mine in old(open)
      ensures mine in open ==> open[mine] == old(open)[mine]
    {
      if t in open && open[t].phase.Numbered? && id !in pipelines
        && forall u :: u in open && open[u].phase.Inserted? ==> open[u].phase.id != id
      {
        var _ := InsertPipeline(t, id);
      }
    }

    method PerformRow(t: TxId, ghost mine: TxId, ghost unused: PipelineId)
      requires Valid() && t != mine && Reserved(pipelines, open, mine, unused)
      modifies this`open
      ensures Valid() && Reserved(pipelines, open, mine, unused)
      ensures Ready(DoInsertJob(t), old(pipelines), old(open)) ==> Moved(old(open), open, t)
      ensures mine in open <==> mine in old(open)
      ensures mine in open ==> open[mine] == old(open)[mine]
    {
      if t in open && open[t].phase.Inserted? && |open[t].phase.rows| < |open[t].request.jobs| {
        InsertJob(t);
      }
    }

    method PerformCommit(t: TxId, ghost mine: TxId, ghost unused: PipelineId)
      requires Valid() && t != mine && Reserved(pipelines, open, mine, unused)
      modifies this
      ensures Valid() && Reserved(pipelines, open, mine, unused)
      ensures Ready(DoCommit(t), old(pipelines), old(open)) ==> t !in open && old(open)[t].phase.id in pipelines
      ensures mine in open <==> mine in old(open)
      ensures mine in open ==> open[mine] == old(open)[mine]
    {
      if t in open && open[t].phase.Inserted? && |open[t].phase.rows| == |open[t].request.jobs| {
        var _ := Commit(t);
      }
    }

    /** What other transactions do between two statements of this one. */
    method Others(statements: seq<Statement>, ghost mine: TxId, ghost unused: PipelineId)
      requires Valid() && AllForeign(statements, mine, unused) && Reserved(pipelines, open, mine, unused)
      modifies this
      ensures Valid() && Reserved(pipelines, open, mine, unused)
      ensures mine in open <==> mine in old(open)
      ensures mine in open ==> open[mine] == old(open)[mine]
    {
      for k := 0 to |statements|
        invariant Valid() && Reserved(pipelines, open, mine, unused)
        invariant mine in open <==> mine in old(open)
        invariant mine in open ==> open[mine] == old(open)[mine]
      {
        Perform(statements[k], mine, unused);
      }
    }

    /** The counter upsert, repeated while it waits, as long as others have something to do. */
    method AwaitCounter(t: TxId, unused: PipelineId, others: seq<seq<Statement>>) returns (outcome: Outcome)
      requires Valid() && t in open && open[t].phase.Checked? && Reserved(pipelines, open, t, unused)
      requires forall k :: 0 <= k < |others| ==> AllForeign(others[k], t, unused)
      modifies this
      ensures Valid() && t in open && open[t].request == old(open)[t].request && Reserved(pipelines, open, t, unused)
      ensures outcome == Blocked || outcome == Continues
      ensures if outcome == Blocked then open[t].phase.Checked? else open[t].phase.Numbered?
    {
      outcome := Blocked;
      for k := 0 to |others|
        invariant Valid() && t in open && open[t].request == old(open)[t].request
          && Reserved(pipelines, open, t, unused)
        invariant outcome == Blocked && open[t].phase.Checked?
      {
        Others(others[k], t, unused);
        outcome := BumpCounter(t);
        if outcome == Continues {
          return;
        }
      }
    }

    /** The pipeline insert, likewise. */
    method AwaitInsert(t: TxId, unused: PipelineId, others: seq<seq<Statement>>) returns (outcome: Outcome)
      requires Valid() && t in open && open[t].phase.Numbered? && Reserved(pipelines, open, t, unused)
      requires forall k :: 0 <= k < |others| ==> AllForeign(others[k], t, unused)
      modifies this
      ensures Valid() && !outcome.Created?
      ensures outcome == Blocked ==> t in open && open[t].request == old(open)[t].request && open[t].phase.Numbered?
      ensures unused !in pipelines
      ensures outcome.Existing? ==>
        t !in open && outcome.id in pipelines && SameDelivery(pipelines[outcome.id], old(open)[t].request)
      ensures outcome == Continues ==> t in open && open[t].request == old(open)[t].request
      ensures outcome == Continues ==> open[t].phase.Inserted? && open[t].phase.id == unused && open[t].phase.rows == []
      ensures outcome == Continues ==> Reserved(pipelines, open, t, unused)
    {
      outcome := Blocked;
      for k := 0 to |others|
        invariant Valid() && t in open && open[t].request == old(open)[t].request
          && Reserved(pipelines, open, t, unused)
        invariant outcome == Blocked && open[t].phase.Numbered?
      {
        Others(others[k], t, unused);
        outcome := InsertPipeline(t, unused);
        if outcome != Blocked {
          return;
        }
      }
    }

    /** The job rows, one statement each, and the commit. */
    method WriteAmong(t: TxId, unused: PipelineId, others: nat -> seq<Statement>)
      requires Valid() && t in open && open[t].phase.Inserted? && open[t].phase.id == unused && open[t].phase.rows == []
      requires Reserved(pipelines, open, t, unused) && forall k :: AllForeign(others(k), t, unused)
      modifies this
      ensures Valid() && t !in open && unused in pipelines && unused in jobs
      ensures pipelines[unused] == RowOf(old(open)[t].request, pipelines[unused].number)
      ensures jobs[unused] == JobRows(unused, old(open)[t].request.jobs)
    {
      ghost var tx := open[t];
      var n := |open[t].request.jobs|;
      assert WithRows(tx, JobRows(unused, tx.request.jobs[..0])) == tx;
      for k := 0 to n
        invariant Valid() && Reserved(pipelines, open, t, unused)
        invariant t in open && open[t] == WithRows(tx, JobRows(unused, tx.request.jobs[..k]))
      {
        Others(others(k), t, unused);
        InsertJob(t);
      }
      Others(others(n), t, unused);
      assert tx.request.jobs[..n] == tx.request.jobs;
      var _ := Commit(t);
    }

    /** The whole function under any interleaving with other transactions, waiting where it must as long as
        those have statements left. An answer is the one pipeline of its delivery and workflow; a created one
        has the request's row and its job rows. */
    method CreateAmong(t: TxId, r: Request, unused: PipelineId, others: seq<seq<seq<Statement>>>,
      late: nat -> seq<Statement>)
      returns (outcome: Outcome)
      requires Valid() && t !in open && Reserved(pipelines, open, t, unused) && |others| == 2
      requires forall k, m :: 0 <= k < 2 && 0 <= m < |others[k]| ==> AllForeign(others[k][m], t, unused)
      requires forall k :: AllForeign(late(k), t, unused)
      modifies this
      ensures Valid() && outcome != Continues
      ensures outcome == Blocked ==> t in open && open[t].request == r && !open[t].phase.Inserted?
      ensures unused in pipelines <==> outcome.Created?
      ensures outcome != Blocked ==> t !in open && outcome.id in pipelines
      ensures outcome != Blocked ==> forall p :: p in pipelines && SameDelivery(pipelines[p], r) ==> p == outcome.id
      ensures outcome.Existing? ==> SameDelivery(pipelines[outcome.id], r)
      ensures outcome.Created? ==> outcome.id == unused && pipelines[unused] == RowOf(r, pipelines[unused].number)
      ensures outcome.Created? ==> unused in jobs && jobs[unused] == JobRows(unused, r.jobs)
    {
      outcome := Begin(t, r);
      if outcome == Continues {
        outcome := AwaitCounter(t, unused, others[0]);
      }
      if outcome == Continues {
        outcome := AwaitInsert(t, unused, others[1]);
      }
      if outcome == Continues {
        WriteAmong(t, unused, late);
        outcome := Created(unused);
      }
    }

    /** The transaction's next statement would not wait. */
    ghost predicate CanMove(t: TxId)
      reads this
      requires t in open
    {
      match open[t].phase
      case Checked => forall u :: u in open ==> !HoldsCounter(open[u], open[t].request.repository)
      case Numbered(_) => forall u :: u in open ==> !HoldsDelivery(open[u], open[t].request)
      case Inserted(_, _, _) => true
    }

    /** Counter first, delivery second: the waits never form a circle. */
    lemma NoDeadlock()
      requires Valid() && open != map[]
      ensures exists t :: t in open && CanMove(t)
    {
      if t :| t in open && open[t].phase.Inserted? {
        assert CanMove(t);
      } else if t :| t in open && open[t].phase.Numbered? {
        assert CanMove(t);
      } else {
        var t :| t in open;
        assert CanMove(t);
      }
    }

    /** Two answers for the same delivery and workflow name the same pipeline. */
    lemma AnswersAgree(a: PipelineId, b: PipelineId, r: Request)
      requires Valid() && a in pipelines && b in pipelines
      requires SameDelivery(pipelines[a], r) && SameDelivery(pipelines[b], r)
      ensures a == b
    {}
  }
}
