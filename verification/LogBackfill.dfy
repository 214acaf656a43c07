/** Replaying a job's stored log to a browser, batch by batch. */
module LogBackfill {
  import opened OrderedScan
  import opened LogTable
  import opened Sequences

  const BATCH: nat := 2000

  function NextAfter(s: Seq): Seq { if s == MAX_SEQ then MAX_SEQ else s + 1 }

  function Later(a: int, b: int): int { if a >= b then a else b }

  /** A listing continues, after any of its chunks, with the listing from the next number on. */
  lemma RangeRest(table: Table, from: int, n: nat)
    requires 0 < n <= |Range(table, from)|
    ensures Range(table, from)[n..] == Range(table, Range(table, from)[n - 1].seqNo + 1)
  {
    var all := Range(table, from);
    var next := all[n - 1].seqNo + 1;
    RangeIsExact(table, from);
    RangeIsExact(table, next);
    assert all[n - 1] in all;
    forall c ensures c in all[n..] <==> c in Range(table, next) {
      Beyond(all, n, c);
    }
    SameChunks(all[n..], Range(table, next));
  }

  lemma Beyond(all: seq<LogChunk>, n: nat, c: LogChunk)
    requires Ascending(all) && 0 < n <= |all|
    ensures c in all[n..] <==> c in all && c.seqNo > all[n - 1].seqNo
  {
    if c in all {
      var i :| 0 <= i < |all| && all[i] == c;
      if i >= n {
        assert all[n..][i - n] == c;
      }
    }
  }

  ghost predicate Covers(later: Table, earlier: Table) {
    forall c :: Stored(earlier, c) ==> Stored(later, c)
  }

  /** The table only ever gains rows while the replay runs; stored rows are never rewritten. */
  ghost predicate Grows(at: nat -> Table) {
    forall i, j {:trigger Covers(at(j), at(i))} :: i <= j ==> Covers(at(j), at(i))
  }

  ghost predicate Fixed(at: nat -> Table) { forall i :: at(i) == at(0) }

  /** The one duplicate the saturating cursor allows: the chunk numbered MAX_SEQ, sent twice at the end. */
  predicate RepeatsMax(sent: seq<LogChunk>) {
    && |sent| >= 2
    && Ascending(sent[..|sent| - 1])
    && sent[|sent| - 1] == sent[|sent| - 2]
    && sent[|sent| - 1].seqNo == MAX_SEQ
  }

  /** Whether a replay of this table sends its last chunk twice. */
  predicate EndsTwice(table: Table, from: int) {
    MAX_SEQ in table && |Range(table, from)| % BATCH == 0
  }

  /** What a replay of a fixed table sends. */
  function Replay(table: Table, from: Seq): seq<LogChunk> {
    Range(table, from) + if EndsTwice(table, from) then [LogChunk(MAX_SEQ, table[MAX_SEQ])] else []
  }

  /** The replay of a fixed table sends every chunk once iff the marker does not end a full batch. */
  lemma ReplayIsOneScanIff(table: Table, from: Seq)
    requires from >= 0
    ensures Ascending(Replay(table, from)) <==> !EndsTwice(table, from)
    ensures Replay(table, from) == Range(table, from) <==> !EndsTwice(table, from)
  {
    RangeIsExact(table, from);
    if EndsTwice(table, from) {
      var marker := LogChunk(MAX_SEQ, table[MAX_SEQ]);
      var all := Range(table, from);
      assert marker in all;
      var i :| 0 <= i < |all| && all[i] == marker;
      var sent := Replay(table, from);
      assert sent == all + [marker];
      assert sent[i] == sent[|all|];
    }
  }

  /** A log of 1999 chunks and the overflow marker is replayed with the marker sent twice. */
  lemma MarkerEndsFullBatch(table: Table)
    requires forall s: Seq :: s in table <==> 1 <= s < BATCH || s == MAX_SEQ
    ensures EndsTwice(table, 0)
  {
    CountWithMarker(table, BATCH);
  }

  lemma CountWithMarker(table: Table, n: nat)
    requires 1 <= n <= MAX_SEQ && forall s: Seq :: s in table <==> 1 <= s < n || s == MAX_SEQ
    ensures |Range(table, 0)| == n
  {
    NumberedIs(n);
    forall s: int ensures s in SeqsFrom(table, 0) <==> s in Numbered(n) + {MAX_SEQ} {
      if s in Numbered(n) + {MAX_SEQ} {
        var known: Seq := s;
        assert known in table;
      }
    }
    assert SeqsFrom(table, 0) == Numbered(n) + {MAX_SEQ};
    ScanLists(Increasing, SeqsFrom(table, 0));
  }

  ghost function Numbered(n: nat): set<int> {
    if n <= 1 then {} else Numbered(n - 1) + {n - 1}
  }

  lemma {:induction false} NumberedIs(n: nat)
    requires n >= 1
    ensures |Numbered(n)| == n - 1 && forall s :: s in Numbered(n) <==> 1 <= s < n
  {
    if n > 1 {
      NumberedIs(n - 1);
    }
  }

  ghost predicate Sound(now: Table, from: int, reach: int, sent: seq<LogChunk>) {
    forall c :: c in sent ==> Stored(now, c) && from <= c.seqNo < reach
  }

  ghost predicate Complete(first: Table, from: int, reach: int, sent: seq<LogChunk>) {
    forall c :: Stored(first, c) && from <= c.seqNo < reach ==> c in sent
  }

  /** Where a replay stands: everything below `reach` has been sent, once. */
  ghost predicate SentBelow(first: Table, now: Table, from: int, reach: int, sent: seq<LogChunk>) {
    && from <= reach <= MAX_SEQ + 1
    && Ascending(sent)
    && Sound(now, from, reach, sent)
    && Complete(first, from, reach, sent)
  }

  lemma Below(all: seq<LogChunk>, n: nat, c: LogChunk)
    requires Ascending(all) && 0 < n <= |all|
    ensures c in all[..n] <==> c in all && c.seqNo < all[n - 1].seqNo + 1
  {
    if c in all {
      var i :| 0 <= i < |all| && all[i] == c;
      if i < n {
        assert all[..n][i] == c;
      }
    }
  }

  /** Sending everything stored from `reach` on would finish the job. */
  lemma SendingAll(first: Table, now: Table, from: int, reach: int, sent: seq<LogChunk>, all: seq<LogChunk>)
    requires SentBelow(first, now, from, reach, sent)
    requires Covers(now, first)
    requires Ascending(all) && forall c :: c in all <==> Stored(now, c) && c.seqNo >= reach
    ensures SentBelow(first, now, from, MAX_SEQ + 1, sent + all)
  {
    assert forall i :: 0 <= i < |all| ==> all[i] in all;
    forall c | Stored(first, c) && from <= c.seqNo < MAX_SEQ + 1 ensures c in sent + all {
      if c.seqNo >= reach {
        assert c in all;
      }
    }
  }

  /** So a prefix of it reaches the number after its last chunk. */
  lemma SendingPage(first: Table, now: Table, from: int, both: seq<LogChunk>, n: nat)
    requires SentBelow(first, now, from, MAX_SEQ + 1, both)
    requires 0 < n <= |both|
    ensures SentBelow(first, now, from, both[n - 1].seqNo + 1, both[..n])
  {
    assert both[n - 1] in both;
    forall c ensures c in both[..n] <==> c in both && c.seqNo < both[n - 1].seqNo + 1 {
      Below(both, n, c);
    }
  }

  lemma PageAdvances(first: Table, now: Table, from: int, reach: int, sent: seq<LogChunk>, all: seq<LogChunk>, n: nat)
    requires SentBelow(first, now, from, reach, sent)
    requires Covers(now, first)
    requires Ascending(all) && forall c :: c in all <==> Stored(now, c) && c.seqNo >= reach
    requires 0 < n <= |all|
    ensures SentBelow(first, now, from, all[n - 1].seqNo + 1, sent + all[..n])
  {
    SendingAll(first, now, from, reach, sent, all);
    SendingPage(first, now, from, sent + all, |sent| + n);
    assert (sent + all)[..|sent| + n] == sent + all[..n];
  }

  /** Over a fixed table, what is left to send is what a fetch without a limit would return. */
  predicate Remaining(table: Table, from: int, reach: int, sent: seq<LogChunk>) {
    Range(table, from) == sent + Range(table, reach)
  }

  lemma PageLeavesRest(table: Table, from: int, reach: int, sent: seq<LogChunk>, n: nat)
    requires Remaining(table, from, reach, sent) && 0 < n <= |Range(table, reach)|
    ensures Remaining(table, from, Range(table, reach)[n - 1].seqNo + 1, sent + Range(table, reach)[..n])
  {
    RangeRest(table, reach, n);
    var page := Range(table, reach);
    assert page == page[..n] + page[n..];
    Regroup(sent, page[..n], page[n..]);
  }

  /** Once MAX_SEQ has been sent, the saturated cursor finds just that chunk again. */
  lemma MaxAgain(table: Table, c: LogChunk)
    requires Stored(table, c) && c.seqNo == MAX_SEQ
    ensures Range(table, MAX_SEQ) == [c]
  {
    var all := Range(table, MAX_SEQ);
    RangeIsExact(table, MAX_SEQ);
    assert c in all;
    SameChunks(all, [c]);
  }

  /** Sending the chunks of one batch leaves the cursor past its last chunk. */
  method SendBatch(page: seq<LogChunk>, start: Seq, sentBefore: seq<LogChunk>)
    returns (sent: seq<LogChunk>, cursor: Seq)
    requires Ascending(page)
    ensures sent == sentBefore + page
    ensures cursor == if page == [] then start else Later(start, NextAfter(page[|page| - 1].seqNo))
  {
    sent, cursor := sentBefore, start;
    for i := 0 to |page|
      invariant sent == sentBefore + page[..i]
      invariant cursor == if i == 0 then start else Later(start, NextAfter(page[i - 1].seqNo))
    {
      cursor := Later(cursor, NextAfter(page[i].seqNo));
      sent := sent + [page[i]];
    }
  }

  /** The last fetch, when MAX_SEQ had not been sent before. */
  lemma LastBatch(first: Table, now: Table, from: int, reach: int, sent: seq<LogChunk>, full: nat)
    requires SentBelow(first, now, from, reach, sent) && 0 <= from
    requires Covers(now, first)
    requires |sent| == BATCH * full && |Range(now, reach)| < BATCH && reach <= MAX_SEQ
    ensures SentBelow(first, now, from, MAX_SEQ + 1, sent + Range(now, reach))
    ensures Remaining(now, from, reach, sent) ==> sent + Range(now, reach) == Replay(now, from)
  {
    RangeIsExact(now, reach);
    SendingAll(first, now, from, reach, sent, Range(now, reach));
    if MAX_SEQ in now {
      MarkerInRange(now, reach);
    }
    assert (|sent| + |Range(now, reach)|) % BATCH == |Range(now, reach)| by {
      Residue(full, |Range(now, reach)|);
    }
  }

  lemma Residue(full: nat, rest: nat)
    requires rest < BATCH
    ensures (BATCH * full + rest) % BATCH == rest
  {
  }

  lemma MarkerInRange(table: Table, reach: int)
    requires MAX_SEQ in table && reach <= MAX_SEQ
    ensures Range(table, reach) != []
  {
    RangeIsExact(table, reach);
    assert LogChunk(MAX_SEQ, table[MAX_SEQ]) in Range(table, reach);
  }

  /** The last fetch, when MAX_SEQ ended the batch before: the marker goes out a second time. */
  lemma MarkerAgain(first: Table, now: Table, from: Seq, sent: seq<LogChunk>, full: nat)
    requires SentBelow(first, now, from, MAX_SEQ + 1, sent)
    requires Covers(now, first)
    requires |sent| == BATCH * full && sent != [] && sent[|sent| - 1].seqNo == MAX_SEQ
    ensures Range(now, MAX_SEQ) == [sent[|sent| - 1]]
    ensures RepeatsMax(sent + Range(now, MAX_SEQ))
    ensures Remaining(now, from, MAX_SEQ + 1, sent) ==> sent + Range(now, MAX_SEQ) == Replay(now, from)
  {
    var last := sent[|sent| - 1];
    assert last in sent;
    MaxAgain(now, last);
    var all := sent + [last];
    assert all[..|all| - 1] == sent;
    Residue(full, 0);
    if Remaining(now, from, MAX_SEQ + 1, sent) {
      assert Range(now, MAX_SEQ + 1) == [] by { RangeIsExact(now, MAX_SEQ + 1); NothingBeyond(now); }
    }
  }

  lemma NothingBeyond(table: Table)
    ensures Range(table, MAX_SEQ + 1) == []
  {
    RangeIsExact(table, MAX_SEQ + 1);
    var all := Range(table, MAX_SEQ + 1);
    assert forall i :: 0 <= i < |all| ==> all[i] in all;
  }

  /** How a replay stands before a fetch. */
  ghost predicate Standing(fixed: bool, first: Table, now: Table, from: Seq, reach: int, cursor: Seq,
    sent: seq<LogChunk>, full: nat) {
    && SentBelow(first, now, from, reach, sent)
    && (fixed ==> first == now && Remaining(first, from, reach, sent))
    && (reach > MAX_SEQ ==> sent != [] && sent[|sent| - 1].seqNo == MAX_SEQ)
    && cursor == (if reach > MAX_SEQ then MAX_SEQ else reach)
    && |sent| == BATCH * full
  }

  /** What one fetch returns: everything from the cursor on, or the first full batch of it. */
  predicate IsPage(table: Table, cursor: Seq, page: seq<LogChunk>) {
    && |page| <= BATCH && (|page| < BATCH ==> page == Range(table, cursor))
    && (|page| == BATCH ==> BATCH <= |Range(table, cursor)| && page == Range(table, cursor)[..BATCH])
  }

  method Fetch(table: Table, cursor: Seq) returns (page: seq<LogChunk>)
    ensures IsPage(table, cursor, page) && Ascending(page)
  {
    page := FetchRange(table, cursor, BATCH);
    RangeIsExact(table, cursor);
  }

  lemma FullPage(table: Table, cursor: Seq, page: seq<LogChunk>)
    requires IsPage(table, cursor, page) && |page| == BATCH
    ensures page[BATCH - 1] == Range(table, cursor)[BATCH - 1] && cursor <= page[BATCH - 1].seqNo
  {
    RangeIsExact(table, cursor);
    assert Range(table, cursor)[BATCH - 1] in Range(table, cursor);
  }

  lemma FullBatch(fixed: bool, first: Table, now: Table, next: Table, from: Seq, reach: int,
    cursor: Seq, sent: seq<LogChunk>, full: nat, page: seq<LogChunk>)
    requires Standing(fixed, first, now, from, reach, cursor, sent, full) && 0 <= from
    requires Covers(now, first) && Covers(next, now)
    requires fixed ==> now == next
    requires IsPage(now, cursor, page) && |page| == BATCH
    ensures reach <= page[BATCH - 1].seqNo
    ensures Standing(fixed, first, next, from, page[BATCH - 1].seqNo + 1,
                     Later(cursor, NextAfter(page[BATCH - 1].seqNo)), sent + page, full + 1)
  {
    StillOpen(first, now, from, reach, cursor, sent, full, page);
    FullPage(now, cursor, page);
    PageSends(first, now, next, from, reach, sent, page);
    if fixed {
      PageLeavesRest(now, from, reach, sent, BATCH);
    }
  }

  /** A full batch after MAX_SEQ is impossible. */
  lemma StillOpen(first: Table, now: Table, from: Seq, reach: int, cursor: Seq, sent: seq<LogChunk>, full: nat,
    page: seq<LogChunk>)
    requires Standing(false, first, now, from, reach, cursor, sent, full) && Covers(now, first)
    requires IsPage(now, cursor, page) && |page| == BATCH
    ensures reach == cursor
  {
    if reach > MAX_SEQ {
      MarkerAgain(first, now, from, sent, full);
    }
  }

  lemma PageSends(first: Table, now: Table, next: Table, from: Seq, reach: int, sent: seq<LogChunk>,
    page: seq<LogChunk>)
    requires SentBelow(first, now, from, reach, sent)
    requires Covers(now, first) && Covers(next, now)
    requires |page| == BATCH <= |Range(now, reach)| && page == Range(now, reach)[..BATCH]
    ensures SentBelow(first, next, from, page[BATCH - 1].seqNo + 1, sent + page)
  {
    RangeIsExact(now, reach);
    PageAdvances(first, now, from, reach, sent, Range(now, reach), BATCH);
    Widens(now, next, from, page[BATCH - 1].seqNo + 1, sent + page);
  }

  lemma LastFetch(fixed: bool, first: Table, now: Table, from: Seq, reach: int, cursor: Seq, sent: seq<LogChunk>,
    full: nat, page: seq<LogChunk>)
    requires Standing(fixed, first, now, from, reach, cursor, sent, full) && 0 <= from
    requires Covers(now, first)
    requires IsPage(now, cursor, page) && |page| < BATCH
    ensures var all := sent + page;
      && Sound(now, from, MAX_SEQ + 1, all) && Complete(first, from, MAX_SEQ + 1, all)
      && (Ascending(all) || RepeatsMax(all))
      && (fixed ==> all == Replay(first, from))
  {
    RangeIsExact(now, cursor);
    if reach > MAX_SEQ {
      MarkerAgain(first, now, from, sent, full);
    } else {
      LastBatch(first, now, from, reach, sent, full);
    }
  }

  lemma Widens(now: Table, next: Table, from: int, reach: int, sent: seq<LogChunk>)
    requires Sound(now, from, reach, sent)
    requires Covers(next, now)
    ensures Sound(next, from, reach, sent)
  {
  }

  /**
   * The replay over a table that may gain rows between two fetches. What was stored when it began
   * is sent, in ascending order; over a fixed table the output is determined, and it is a single
   * scan unless the overflow marker sits at the end of a full batch.
   */
  method Backfill(at: nat -> Table, fromSeq: Seq) returns (sent: seq<LogChunk>, batches: nat)
    requires Grows(at)
    ensures batches >= 1
    ensures Sound(at(batches - 1), Later(fromSeq, 0), MAX_SEQ + 1, sent)
    ensures Complete(at(0), Later(fromSeq, 0), MAX_SEQ + 1, sent)
    ensures Ascending(sent) || RepeatsMax(sent)
    ensures Fixed(at) ==> sent == Replay(at(0), Later(fromSeq, 0))
  {
    var cursor: Seq := Later(fromSeq, 0);
    ghost var from: Seq, reach: int, fixed: bool := cursor, cursor, Fixed(at);
    sent, batches := [], 0;
    while true
      invariant fixed == Fixed(at) && from == Later(fromSeq, 0)
      invariant Standing(fixed, at(0), at(batches), from, reach, cursor, sent, batches)
      decreases MAX_SEQ + 1 - reach
    {
      ghost var now, before, was := at(batches), sent, cursor;
      assert Covers(now, at(0)) && Covers(at(batches + 1), now);
      var page := Fetch(at(batches), cursor);
      batches := batches + 1;
      sent, cursor := SendBatch(page, cursor, sent);
      if |page| < BATCH {
        LastFetch(fixed, at(0), now, from, reach, was, before, batches - 1, page);
        break;
      }
      FullBatch(fixed, at(0), now, at(batches), from, reach, was, before, batches - 1, page);
      reach := page[BATCH - 1].seqNo + 1;
    }
  }
}
