/** The stored log chunks of a job, and the ordered queries over them. */
module LogTable {
  import opened OrderedScan
  import opened Limits
  import opened Utf8
  import opened Options

  const MIN_SEQ: int := -0x8000_0000_0000_0000
  const MAX_SEQ: int := 0x7fff_ffff_ffff_ffff

  /** A 64-bit sequence number. */
  type Seq = s: int | -0x8000_0000_0000_0000 <= s <= 0x7fff_ffff_ffff_ffff

  datatype Stream = Stdout | Stderr | System

  /** The columns of a row besides its key; `byte_len` is the length of the text. */
  datatype Body = Body(stream: Stream, text: Text, step: Option<nat>, phase: Option<string>)

  datatype LogChunk = LogChunk(seqNo: Seq, body: Body)

  /** One job's rows. */
  type Table = map<Seq, Body>

  function SeqsFrom(table: Table, from: int): set<int> { set s | s in table && s >= from :: s }

  predicate Ascending(chunks: seq<LogChunk>) {
    forall i, j :: 0 <= i < j < |chunks| ==> chunks[i].seqNo < chunks[j].seqNo
  }

  predicate Stored(table: Table, c: LogChunk) { c.seqNo in table && c.body == table[c.seqNo] }

  /** Every stored chunk from a sequence number on, in order. */
  function Range(table: Table, from: int): seq<LogChunk> {
    var keys := Scan(Increasing, SeqsFrom(table, from));
    ScanLists(Increasing, SeqsFrom(table, from));
    seq(|keys|, i requires 0 <= i < |keys| =>
      assert keys[i] in SeqsFrom(table, from);
      LogChunk(keys[i], table[keys[i]]))
  }

  lemma RangeIsExact(table: Table, from: int)
    ensures Ascending(Range(table, from))
    ensures forall c :: c in Range(table, from) <==> Stored(table, c) && c.seqNo >= from
  {
    var keys := Scan(Increasing, SeqsFrom(table, from));
    ScanLists(Increasing, SeqsFrom(table, from));
    var chunks := Range(table, from);
    forall c ensures c in chunks <==> Stored(table, c) && c.seqNo >= from {
      if c in chunks {
        var i :| 0 <= i < |chunks| && chunks[i] == c;
        assert keys[i] in SeqsFrom(table, from);
      }
      if Stored(table, c) && c.seqNo >= from {
        assert c.seqNo in SeqsFrom(table, from);
        var i :| 0 <= i < |keys| && keys[i] == c.seqNo;
        assert chunks[i] == c;
      }
    }
  }

  function FetchRange(table: Table, from: int, limit: int): seq<LogChunk> {
    Take(Range(table, from), Clamp(limit, 1, 2000))
  }

  /** A fetch is the beginning of the ordered rest: all of it, or as many chunks as asked for, at least 1 and at
      most 2000. */
  lemma FetchIsPrefix(table: Table, from: int, limit: int)
    ensures FetchRange(table, from, limit) <= Range(table, from)
    ensures var n := if limit < 1 then 1 else if limit > 2000 then 2000 else limit;
      |FetchRange(table, from, limit)| == if |Range(table, from)| < n then |Range(table, from)| else n
  {
  }

  /** Every chunk of the job. */
  function FetchAll(table: Table): seq<LogChunk> { Range(table, MIN_SEQ) }

  lemma {:induction false} SameChunks(a: seq<LogChunk>, b: seq<LogChunk>)
    requires Ascending(a) && Ascending(b)
    requires forall c :: c in a <==> c in b
    ensures a == b
  {
    assert a != [] ==> a[0] in b;
    assert b != [] ==> b[0] in a;
    if a != [] && b != [] {
      assert a[0] == b[0];
      forall c ensures c in a[1..] <==> c in b[1..] {
        TailHas(a, c);
        TailHas(b, c);
      }
      SameChunks(a[1..], b[1..]);
    }
  }

  lemma TailHas(a: seq<LogChunk>, c: LogChunk)
    requires Ascending(a) && a != []
    ensures c in a[1..] <==> c in a && c != a[0]
  {
    if c in a && c != a[0] {
      var i :| 0 <= i < |a| && a[i] == c;
      assert a[1..][i - 1] == c;
    }
  }
}
