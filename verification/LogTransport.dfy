/** From a job's output to the stored log: cutting into chunks, delivery, and reading back. */
module LogTransport {
  import opened Options
  import opened Utf8
  import opened LogTable
  import opened Sequences

  const CHUNK_BYTES: nat := 32 * 1024

  type JobId = nat

  datatype LogMsg = LogMsg(job: JobId, seqNo: nat, stream: Stream, text: Text, step: Option<nat>, phase: Option<string>)

  function BodyOf(m: LogMsg): Body { Body(m.stream, m.text, m.step, m.phase) }

  function Joined(msgs: seq<LogMsg>): Text {
    if msgs == [] then [] else Joined(msgs[..|msgs| - 1]) + msgs[|msgs| - 1].text
  }

  lemma {:induction false} JoinedAppend(a: seq<LogMsg>, b: seq<LogMsg>)
    ensures Joined(a + b) == Joined(a) + Joined(b)
  {
    if b == [] {
      assert a + b == a;
    } else {
      assert (a + b)[..|a + b| - 1] == a + b[..|b| - 1];
      JoinedAppend(a, b[..|b| - 1]);
    }
  }

  /** A piece is whole characters, within three bytes of the chunk size, and only the last may be short. */
  predicate PieceOk(text: Text) {
    WellFormed(text) && 0 < |text| <= CHUNK_BYTES + 3
  }

  predicate NumberedAt(msgs: seq<LogMsg>, i: nat, job: JobId, first: nat)
    requires i < |msgs|
  {
    msgs[i].job == job && msgs[i].seqNo == first + i && PieceOk(msgs[i].text)
  }

  /** The messages numbered from `first` on carry well-formed pieces of one job's output. */
  predicate Numbered(msgs: seq<LogMsg>, job: JobId, first: nat) {
    forall i {:trigger NumberedAt(msgs, i, job, first)} :: 0 <= i < |msgs| ==> NumberedAt(msgs, i, job, first)
  }

  predicate Attributed(msgs: seq<LogMsg>, stream: Stream, step: Option<nat>, phase: Option<string>) {
    forall i :: 0 <= i < |msgs| ==> msgs[i].stream == stream && msgs[i].step == step && msgs[i].phase == phase
  }

  /** No message could have been left out by filling the ones before it. */
  predicate Full(msgs: seq<LogMsg>) {
    forall i :: 0 <= i < |msgs| - 1 ==> |msgs[i].text| >= CHUNK_BYTES
  }

  /** The emitter of one attempt: everything sent so far is numbered 1, 2, … without a gap. */
  class JobLog {
    const job: JobId
    var seqNo: nat
    var step: Option<nat>
    var phase: Option<string>
    var out: seq<LogMsg>

    predicate Valid() reads this {
      |out| == seqNo && Numbered(out, job, 1)
    }

    constructor (job: JobId)
      ensures Valid() && this.job == job && out == [] && step == None && phase == None
    {
      this.job := job;
      seqNo, step, phase, out := 0, None, None, [];
    }

    method Section(phase: Option<string>, step: Option<nat>)
      requires Valid()
      modifies this`phase, this`step
      ensures Valid() && this.phase == phase && this.step == step
    {
      this.phase, this.step := phase, step;
    }

    method Emit(stream: Stream, text: Text) returns (ghost msgs: seq<LogMsg>)
      requires Valid() && WellFormed(text)
      modifies this`seqNo, this`out
      ensures Valid() && out == old(out) + msgs
      ensures Joined(out) == old(Joined(out)) + text
      ensures Joined(msgs) == text && Numbered(msgs, job, old(seqNo) + 1)
      ensures Attributed(msgs, stream, step, phase) && Full(msgs)
    {
      msgs := [];
      var rest := text;
      ghost var sent := out;
      while rest != []
        invariant Emitting(sent, out, seqNo, msgs, rest, text, job, stream, step, phase)
        decreases |rest|
      {
        var cut := CutPoint(rest);
        seqNo := seqNo + 1;
        var msg := LogMsg(job, seqNo, stream, rest[..cut], step, phase);
        EmitsOneMore(sent, out, msgs, rest, text, msg, cut);
        out := out + [msg];
        msgs := msgs + [msg];
        rest := rest[cut..];
      }
      Emitted(sent, out, seqNo, msgs, text, job, stream, step, phase);
    }
  }

  /** Where the emitter stands: the messages of this text so far follow those sent before it. */
  ghost predicate Emitting(sent: seq<LogMsg>, out: seq<LogMsg>, seqNo: nat, msgs: seq<LogMsg>, rest: Text, text: Text,
    job: JobId, stream: Stream, step: Option<nat>, phase: Option<string>)
  {
    |out| == seqNo && out == sent + msgs && Cut(msgs, rest, text, job, |sent| + 1, stream, step, phase)
  }

  lemma EmitsOneMore(sent: seq<LogMsg>, out: seq<LogMsg>, msgs: seq<LogMsg>, rest: Text, text: Text, msg: LogMsg,
    cut: nat)
    requires msg.seqNo > 0
    requires Emitting(sent, out, msg.seqNo - 1, msgs, rest, text, msg.job, msg.stream, msg.step, msg.phase)
    requires rest != [] && cut <= |rest| && msg.text == rest[..cut]
    requires PieceOk(msg.text) && WellFormed(rest[cut..]) && (cut == |rest| || cut >= CHUNK_BYTES)
    ensures Emitting(sent, out + [msg], msg.seqNo, msgs + [msg], rest[cut..], text,
                     msg.job, msg.stream, msg.step, msg.phase)
  {
    CutFurther(msgs, rest, text, msg.job, |sent| + 1, msg, cut);
    Regroup(sent, msgs, [msg]);
  }

  lemma Emitted(sent: seq<LogMsg>, out: seq<LogMsg>, seqNo: nat, msgs: seq<LogMsg>, text: Text,
    job: JobId, stream: Stream, step: Option<nat>, phase: Option<string>)
    requires Numbered(sent, job, 1) && Emitting(sent, out, seqNo, msgs, [], text, job, stream, step, phase)
    ensures |out| == seqNo && out == sent + msgs && Numbered(out, job, 1)
    ensures Joined(out) == Joined(sent) + text && Joined(msgs) == text && Numbered(msgs, job, |sent| + 1)
    ensures Attributed(msgs, stream, step, phase) && Full(msgs)
  {
    CutDone(msgs, text, job, |sent| + 1, stream, step, phase);
    NumberedAppend(sent, msgs, job, 1);
    JoinedAppend(sent, msgs);
  }

  lemma NumberedAppend(a: seq<LogMsg>, b: seq<LogMsg>, job: JobId, first: nat)
    requires Numbered(a, job, first) && Numbered(b, job, first + |a|)
    ensures Numbered(a + b, job, first)
  {
    forall i | 0 <= i < |a + b| ensures NumberedAt(a + b, i, job, first) {
      if i < |a| {
        assert NumberedAt(a, i, job, first);
      } else {
        assert NumberedAt(b, i - |a|, job, first + |a|);
      }
    }
  }

  /** Where the next piece of a non-empty text ends. */
  method CutPoint(rest: Text) returns (cut: nat)
    requires WellFormed(rest) && rest != []
    ensures cut <= |rest| && PieceOk(rest[..cut]) && WellFormed(rest[cut..])
    ensures cut == |rest| || cut >= CHUNK_BYTES
  {
    var first := if |rest| < CHUNK_BYTES then |rest| else CHUNK_BYTES;
    cut := first;
    BoundaryNear(rest, first);
    while cut < |rest| && !IsBoundary(rest, cut)
      invariant first <= cut <= |rest|
      invariant forall j :: first <= j < cut ==> !IsBoundary(rest, j)
    {
      cut := cut + 1;
    }
    CutAtBoundary(rest, cut);
  }

  predicate PieceAt(msgs: seq<LogMsg>, i: nat, rest: Text, job: JobId, first: nat,
    stream: Stream, step: Option<nat>, phase: Option<string>)
    requires i < |msgs|
  {
    && msgs[i] == LogMsg(job, first + i, stream, msgs[i].text, step, phase) && PieceOk(msgs[i].text)
    && ((rest == [] && i == |msgs| - 1) || |msgs[i].text| >= CHUNK_BYTES)
  }

  /** Part of a text has been cut into messages, the rest is still to be cut. */
  ghost predicate Cut(msgs: seq<LogMsg>, rest: Text, text: Text, job: JobId, first: nat,
    stream: Stream, step: Option<nat>, phase: Option<string>)
  {
    && WellFormed(rest) && Joined(msgs) + rest == text
    && forall i {:trigger PieceAt(msgs, i, rest, job, first, stream, step, phase)} :: 0 <= i < |msgs| ==>
         PieceAt(msgs, i, rest, job, first, stream, step, phase)
  }

  lemma CutFurther(msgs: seq<LogMsg>, rest: Text, text: Text, job: JobId, first: nat, msg: LogMsg, cut: nat)
    requires Cut(msgs, rest, text, job, first, msg.stream, msg.step, msg.phase) && rest != []
    requires msg.job == job && msg.seqNo == first + |msgs| && cut <= |rest| && msg.text == rest[..cut]
    requires PieceOk(msg.text) && WellFormed(rest[cut..]) && (cut == |rest| || cut >= CHUNK_BYTES)
    ensures Cut(msgs + [msg], rest[cut..], text, job, first, msg.stream, msg.step, msg.phase)
  {
    Extended(msgs, msg, rest, rest[cut..], text);
    forall i | 0 <= i < |msgs + [msg]|
      ensures PieceAt(msgs + [msg], i, rest[cut..], job, first, msg.stream, msg.step, msg.phase)
    {
      if i < |msgs| {
        assert PieceAt(msgs, i, rest, job, first, msg.stream, msg.step, msg.phase);
      }
    }
  }

  lemma CutDone(msgs: seq<LogMsg>, text: Text, job: JobId, first: nat,
    stream: Stream, step: Option<nat>, phase: Option<string>)
    requires Cut(msgs, [], text, job, first, stream, step, phase)
    ensures Joined(msgs) == text && Numbered(msgs, job, first)
    ensures Attributed(msgs, stream, step, phase) && Full(msgs)
  {
    forall i | 0 <= i < |msgs|
      ensures msgs[i] == LogMsg(job, first + i, stream, msgs[i].text, step, phase) && PieceOk(msgs[i].text)
      ensures i == |msgs| - 1 || |msgs[i].text| >= CHUNK_BYTES
    {
      assert PieceAt(msgs, i, [], job, first, stream, step, phase);
    }
  }

  lemma Extended(msgs: seq<LogMsg>, msg: LogMsg, was: Text, rest: Text, text: Text)
    requires Joined(msgs) + was == text && was == msg.text + rest
    ensures Joined(msgs + [msg]) + rest == text
  {
    assert (msgs + [msg])[..|msgs|] == msgs;
    assert (Joined(msgs) + msg.text) + rest == Joined(msgs) + (msg.text + rest);
  }

  /** One row of an INSERT … ON CONFLICT DO NOTHING: the row that is there stays. */
  function Insert(table: Table, c: LogChunk): Table {
    if c.seqNo in table then table else table[c.seqNo := c.body]
  }

  function InsertAll(table: Table, chunks: seq<LogChunk>): Table {
    if chunks == [] then table else Insert(InsertAll(table, chunks[..|chunks| - 1]), chunks[|chunks| - 1])
  }

  lemma {:induction false} InsertAllTwice(table: Table, a: seq<LogChunk>, b: seq<LogChunk>)
    ensures InsertAll(table, a + b) == InsertAll(InsertAll(table, a), b)
  {
    if b == [] {
      assert a + b == a;
    } else {
      assert (a + b)[..|a + b| - 1] == a + b[..|b| - 1];
      InsertAllTwice(table, a, b[..|b| - 1]);
    }
  }

  type Rows = map<(JobId, Seq), Body>

  function JobTable(rows: Rows, job: JobId): Table {
    map k | k in rows && k.0 == job :: k.1 := rows[k]
  }

  lemma InsertRow(rows: Rows, job: JobId, c: LogChunk)
    requires (job, c.seqNo) !in rows
    ensures JobTable(rows[(job, c.seqNo) := c.body], job) == Insert(JobTable(rows, job), c)
    ensures forall other :: other != job ==> JobTable(rows[(job, c.seqNo) := c.body], other) == JobTable(rows, other)
  {
  }

  /** The chunk table of all jobs, keyed by (job, sequence number). */
  class LogStore {
    var rows: Rows

    constructor ()
      ensures rows == map[]
    {
      rows := map[];
    }

    method InsertChunks(job: JobId, chunks: seq<LogChunk>)
      modifies this
      ensures JobTable(rows, job) == InsertAll(JobTable(old(rows), job), chunks)
      ensures forall other :: other != job ==> JobTable(rows, other) == JobTable(old(rows), other)
    {
      for i := 0 to |chunks|
        invariant JobTable(rows, job) == InsertAll(JobTable(old(rows), job), chunks[..i])
        invariant forall other :: other != job ==> JobTable(rows, other) == JobTable(old(rows), other)
      {
        assert chunks[..i + 1][..i] == chunks[..i];
        var c := chunks[i];
        if (job, c.seqNo) !in rows {
          InsertRow(rows, job, c);
          rows := rows[(job, c.seqNo) := c.body];
        } else {
          assert c.seqNo in JobTable(rows, job);
        }
      }
      assert chunks[..|chunks|] == chunks;
    }
  }

  ghost predicate Consistent(chunks: seq<LogChunk>) {
    forall a, b :: a in chunks && b in chunks && a.seqNo == b.seqNo ==> a == b
  }

  /** Copies of a chunk agreeing, a table ends up with what it had and every chunk whose number was free. */
  lemma {:induction false} InsertAllIs(table: Table, chunks: seq<LogChunk>, c: LogChunk)
    requires Consistent(chunks)
    ensures Stored(InsertAll(table, chunks), c) <==> Stored(table, c) || (c in chunks && c.seqNo !in table)
  {
    if chunks != [] {
      var before, last := chunks[..|chunks| - 1], chunks[|chunks| - 1];
      assert chunks == before + [last];
      assert Consistent(before);
      InsertAllIs(table, before, c);
      if c.seqNo in InsertAll(table, before) {
        var kept := LogChunk(c.seqNo, InsertAll(table, before)[c.seqNo]);
        assert Stored(InsertAll(table, before), kept);
        InsertAllIs(table, before, kept);
      }
      if c.seqNo in table {
        InsertAllIs(table, before, LogChunk(c.seqNo, table[c.seqNo]));
      }
    }
  }

  ghost predicate Sent(c: LogChunk, msgs: seq<LogMsg>) {
    exists m :: m in msgs && m.seqNo == c.seqNo && BodyOf(m) == c.body
  }

  /** The arriving chunks are those of the messages, in any order and any number of copies. */
  ghost predicate Delivers(chunks: seq<LogChunk>, msgs: seq<LogMsg>) {
    forall c :: c in chunks <==> Sent(c, msgs)
  }

  predicate Carries(msgs: seq<LogMsg>, c: LogChunk) {
    1 <= c.seqNo <= |msgs| && c.body == BodyOf(msgs[c.seqNo - 1])
  }

  ghost predicate Holds(table: Table, msgs: seq<LogMsg>) {
    forall c :: Stored(table, c) <==> Carries(msgs, c)
  }

  lemma SentIsCarried(msgs: seq<LogMsg>, job: JobId, c: LogChunk)
    requires Numbered(msgs, job, 1)
    ensures Sent(c, msgs) <==> Carries(msgs, c)
  {
    if Carries(msgs, c) {
      assert NumberedAt(msgs, c.seqNo - 1, job, 1);
      assert msgs[c.seqNo - 1] in msgs;
    }
    if Sent(c, msgs) {
      var i :| 0 <= i < |msgs| && msgs[i].seqNo == c.seqNo && BodyOf(msgs[i]) == c.body;
      assert NumberedAt(msgs, i, job, 1);
    }
  }

  /** The rows of an earlier attempt win; a later one only adds what lies beyond them. */
  function Merged(earlier: seq<LogMsg>, later: seq<LogMsg>): seq<LogMsg> {
    if |later| <= |earlier| then earlier else earlier + later[|earlier|..]
  }

  lemma DeliveryMerges(table: Table, earlier: seq<LogMsg>, later: seq<LogMsg>, job: JobId, chunks: seq<LogChunk>)
    requires Holds(table, earlier) && Delivers(chunks, later) && Numbered(later, job, 1)
    ensures Holds(InsertAll(table, chunks), Merged(earlier, later))
  {
    forall c ensures c in chunks <==> Carries(later, c) {
      SentIsCarried(later, job, c);
    }
    assert Consistent(chunks);
    forall c ensures Stored(InsertAll(table, chunks), c) <==> Carries(Merged(earlier, later), c) {
      InsertAllIs(table, chunks, c);
      NumbersHeld(table, earlier, c.seqNo);
    }
  }

  lemma NumbersHeld(table: Table, msgs: seq<LogMsg>, n: Seq)
    requires Holds(table, msgs)
    ensures n in table <==> 1 <= n <= |msgs|
  {
    if n in table {
      assert Stored(table, LogChunk(n, table[n]));
    }
    if 1 <= n <= |msgs| {
      assert Carries(msgs, LogChunk(n, BodyOf(msgs[n - 1])));
    }
  }

  function Content(chunks: seq<LogChunk>): Text {
    if chunks == [] then [] else Content(chunks[..|chunks| - 1]) + chunks[|chunks| - 1].body.text
  }

  lemma {:induction false} SameContent(chunks: seq<LogChunk>, msgs: seq<LogMsg>)
    requires |chunks| == |msgs| && forall i :: 0 <= i < |msgs| ==> chunks[i].body.text == msgs[i].text
    ensures Content(chunks) == Joined(msgs)
  {
    if chunks != [] {
      SameContent(chunks[..|chunks| - 1], msgs[..|msgs| - 1]);
    }
  }

  function ChunksOf(msgs: seq<LogMsg>): seq<LogChunk>
    requires |msgs| < MAX_SEQ
  {
    seq(|msgs|, i requires 0 <= i < |msgs| => LogChunk(i + 1, BodyOf(msgs[i])))
  }

  lemma ChunksCarry(msgs: seq<LogMsg>, c: LogChunk)
    requires |msgs| < MAX_SEQ
    ensures c in ChunksOf(msgs) <==> Carries(msgs, c)
  {
    if Carries(msgs, c) {
      assert ChunksOf(msgs)[c.seqNo - 1] == c;
    }
  }

  /** A table that holds a list of messages is read back as their text. */
  lemma ReadsBack(table: Table, msgs: seq<LogMsg>)
    requires Holds(table, msgs) && |msgs| < MAX_SEQ
    ensures FetchAll(table) == ChunksOf(msgs) && Content(FetchAll(table)) == Joined(msgs)
  {
    assert FetchAll(table) == ChunksOf(msgs) by {
      RangeIsExact(table, MIN_SEQ);
      forall c ensures c in ChunksOf(msgs) <==> c in Range(table, MIN_SEQ) {
        ChunksCarry(msgs, c);
      }
      SameChunks(ChunksOf(msgs), Range(table, MIN_SEQ));
    }
    SameContent(ChunksOf(msgs), msgs);
  }

  /** One insert per arriving batch. */
  function InsertBatches(table: Table, batches: seq<seq<LogChunk>>): Table {
    if batches == [] then table
    else InsertAll(InsertBatches(table, batches[..|batches| - 1]), batches[|batches| - 1])
  }

  function Arrived(batches: seq<seq<LogChunk>>): seq<LogChunk> {
    if batches == [] then [] else Arrived(batches[..|batches| - 1]) + batches[|batches| - 1]
  }

  /** How the chunks are grouped into batches does not matter. */
  lemma {:induction false} BatchesAreOne(table: Table, batches: seq<seq<LogChunk>>)
    ensures InsertBatches(table, batches) == InsertAll(table, Arrived(batches))
  {
    if batches != [] {
      BatchesAreOne(table, batches[..|batches| - 1]);
      InsertAllTwice(table, Arrived(batches[..|batches| - 1]), batches[|batches| - 1]);
    }
  }

  /** Within one attempt, whatever the order, grouping and repetition of the deliveries, the log reads back whole. */
  lemma Lossless(msgs: seq<LogMsg>, job: JobId, batches: seq<seq<LogChunk>>)
    requires Numbered(msgs, job, 1) && |msgs| < MAX_SEQ && Delivers(Arrived(batches), msgs)
    ensures FetchAll(InsertBatches(map[], batches)) == ChunksOf(msgs)
    ensures Content(FetchAll(InsertBatches(map[], batches))) == Joined(msgs)
  {
    BatchesAreOne(map[], batches);
    DeliveryMerges(map[], [], msgs, job, Arrived(batches));
    assert Merged([], msgs) == msgs;
    ReadsBack(InsertBatches(map[], batches), msgs);
  }

  /** A second attempt numbers from 1 again, so only its messages beyond the first attempt's are kept. */
  lemma SecondAttemptKeepsTail(table: Table, earlier: seq<LogMsg>, later: seq<LogMsg>, job: JobId,
    batches: seq<seq<LogChunk>>)
    requires Holds(table, earlier) && |earlier| < MAX_SEQ
    requires Numbered(later, job, 1) && |later| < MAX_SEQ && Delivers(Arrived(batches), later)
    ensures var common := if |earlier| < |later| then |earlier| else |later|;
      && Content(FetchAll(InsertBatches(table, batches))) == Joined(earlier) + Joined(later[common..])
      && (Content(FetchAll(InsertBatches(table, batches))) == Joined(later) <==>
          Joined(earlier) == Joined(later[..common]))
  {
    BatchesAreOne(table, batches);
    DeliveryMerges(table, earlier, later, job, Arrived(batches));
    ReadsBack(InsertBatches(table, batches), Merged(earlier, later));
    MergedText(earlier, later);
  }

  lemma MergedText(earlier: seq<LogMsg>, later: seq<LogMsg>)
    ensures var common := if |earlier| < |later| then |earlier| else |later|;
      && Joined(Merged(earlier, later)) == Joined(earlier) + Joined(later[common..])
      && (Joined(Merged(earlier, later)) == Joined(later) <==> Joined(earlier) == Joined(later[..common]))
  {
    var common := if |earlier| < |later| then |earlier| else |later|;
    var head, tail := later[..common], later[common..];
    MergedParts(earlier, later, common);
    JoinedAppend(earlier, tail);
    JoinedAppend(head, tail);
    CancelRight(Joined(earlier), Joined(head), Joined(tail));
  }

  lemma MergedParts(earlier: seq<LogMsg>, later: seq<LogMsg>, common: nat)
    requires common == if |earlier| < |later| then |earlier| else |later|
    ensures Merged(earlier, later) == earlier + later[common..] && later == later[..common] + later[common..]
  {
  }

  lemma CancelRight(a: Text, b: Text, c: Text)
    ensures a + c == b + c <==> a == b
  {
    if a + c == b + c {
      assert |a| == |b|;
      assert a == (a + c)[..|a|] == b;
    }
  }
}
