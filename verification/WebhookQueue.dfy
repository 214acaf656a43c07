/** The durable webhook queue under its single consumer, with crashes. */
module WebhookQueueModel {
  import opened Options

  type DeliveryId = nat
  type Time = nat

  datatype Status = Pending | Processing | Processed | Ignored | Failed

  datatype Delivery = Delivery(receivedAt: Time, status: Status, payload: Option<string>, retries: nat,
    lastAttempt: Option<Time>)

  /** What the receiver stores for an event: the processed kinds carry a payload, the rest none. */
  datatype Incoming = Incoming(id: DeliveryId, processedKind: bool, payload: string)

  datatype Key = Key(at: Time, id: DeliveryId)

  predicate Before(a: Key, b: Key) {
    a.at < b.at || (a.at == b.at && a.id < b.id)
  }

  predicate Live(d: Delivery) {
    d.status == Pending || d.status == Processing
  }

  predicate Over(d: Delivery) {
    d.status == Processed || d.status == Ignored
  }

  predicate RowOk(d: Delivery, max: nat) {
    && (Live(d) ==> d.payload.Some? && d.retries < max)
    && (d.status == Failed ==> d.payload == None && d.retries == max)
    && (d.status == Processed || d.status == Ignored ==> d.payload == None)
  }

  function Stored(i: Incoming, now: Time): Delivery {
    if i.processedKind then Delivery(now, Pending, Some(i.payload), 0, None) else Delivery(now, Ignored, None, 0, None)
  }

  /** The conflict branch of the insert: a failed row starts over with the new payload, whatever that is. */
  function Revived(d: Delivery, i: Incoming): Delivery {
    d.(status := Pending, retries := 0, payload := if i.processedKind then Some(i.payload) else None)
  }

  function FailedOnce(d: Delivery, max: nat): Delivery {
    if d.retries + 1 >= max then d.(retries := d.retries + 1, status := Failed, payload := None)
    else d.(retries := d.retries + 1, status := Pending)
  }

  function Finished(d: Delivery, ignored: bool): Delivery {
    d.(status := if ignored then Ignored else Processed, payload := None)
  }

  /** The revival takes the payload of the redelivery as it is: the row stays
      processable exactly when the redelivered event is of a processed kind. */
  lemma RevivalKeepsRowIff(d: Delivery, i: Incoming, max: nat)
    requires 1 <= max && d.status == Failed
    ensures RowOk(Revived(d, i), max) <==> i.processedKind
  {}

  /** `record_failure` has no status guard: exactly when it keeps the row's invariant. */
  lemma FailureKeepsRowIff(d: Delivery, max: nat)
    requires 1 <= max && RowOk(d, max)
    ensures RowOk(FailedOnce(d, max), max) <==> (d.payload.Some? || d.retries + 1 == max)
  {}

  type Rows = map<DeliveryId, Delivery>

  function KeyOf(rows: Rows, id: DeliveryId): Key
    requires id in rows
  {
    Key(rows[id].receivedAt, id)
  }

  predicate Waiting(rows: Rows, id: DeliveryId) {
    id in rows && rows[id].status == Pending
  }

  predicate BeforeRow(k: Key, rows: Rows, id: DeliveryId) {
    id in rows ==> Before(k, KeyOf(rows, id))
  }

  /** `id` sorts before every other waiting row. */
  predicate OldestWaiting(rows: Rows, id: DeliveryId) {
    Waiting(rows, id) && forall other ::
      other in rows && rows[other].status == Pending && other != id ==> BeforeRow(KeyOf(rows, id), rows, other)
  }

  lemma OldestExists(rows: Rows, candidates: set<DeliveryId>) returns (oldest: DeliveryId)
    requires candidates != {} && forall id :: id in candidates ==> id in rows
    ensures oldest in candidates && forall id ::
      id in candidates && id != oldest ==> BeforeRow(KeyOf(rows, oldest), rows, id)
  {
    var one :| one in candidates;
    oldest := one;
    if candidates != {one} {
      assert candidates == (candidates - {one}) + {one};
      var rest := OldestExists(rows, candidates - {one});
      if !Before(KeyOf(rows, one), KeyOf(rows, rest)) { oldest := rest; }
      forall id | id in candidates && id != oldest
        ensures BeforeRow(KeyOf(rows, oldest), rows, id)
      {
        if id != one && id != rest { assert BeforeRow(KeyOf(rows, rest), rows, id); }
      }
    }
  }

  predicate Ascending(keys: seq<Key>) {
    forall i, j :: 0 <= i < j < |keys| ==> Before(keys[i], keys[j])
  }

  /** Something that sorts after this key has left already. */
  predicate Overtaken(k: Key, left: seq<Key>) {
    exists j :: 0 <= j < |left| && Before(k, left[j])
  }

  predicate HasLeft(id: DeliveryId, left: seq<Key>) {
    exists j :: 0 <= j < |left| && left[j].id == id
  }

  /** The departures so far are those of rows that are over, one each. */
  ghost predicate LeftOk(rows: Rows, left: seq<Key>) {
    && (forall k :: 0 <= k < |left| ==>
        left[k].id in rows && KeyOf(rows, left[k].id) == left[k] && !Live(rows[left[k].id]))
    && (forall j, k :: 0 <= j < k < |left| ==> left[j].id != left[k].id)
  }

  /** The row in work, if there is one, is the only one being processed. */
  predicate InWork(rows: Rows, current: Option<DeliveryId>) {
    && (forall id :: id in rows && rows[id].status == Processing ==> current == Some(id))
    && (current.Some? ==> current.value in rows && rows[current.value].status == Processing)
  }

  /** `late`: deliveries that came after a later-sorting one had left, or during the attempt in which it left.
      `early`: those of which this depends on how the attempt going on ends. */
  ghost predicate Tracked(rows: Rows, current: Option<DeliveryId>, left: seq<Key>, late: set<DeliveryId>,
    early: set<DeliveryId>) {
    && (forall id :: id in rows && Live(rows[id]) ==> (id in late <==> Overtaken(KeyOf(rows, id), left)))
    && (forall id :: id in late ==> id in rows && (Live(rows[id]) || HasLeft(id, left)))
    && (forall id :: id in early <==> Waiting(rows, id) && id !in late && current.Some? && current.value in rows
                                      && Before(KeyOf(rows, id), KeyOf(rows, current.value)))
  }

  /** The departures ascend exactly as long as none of them was late. */
  predicate AscendIffTimely(left: seq<Key>, late: set<DeliveryId>) {
    Ascending(left) <==> forall k :: 0 <= k < |left| ==> left[k].id !in late
  }

  ghost predicate Departures(rows: Rows, current: Option<DeliveryId>, left: seq<Key>, late: set<DeliveryId>,
    early: set<DeliveryId>) {
    LeftOk(rows, left) && InWork(rows, current) && Tracked(rows, current, left, late, early)
      && AscendIffTimely(left, late)
  }

  /** A live arrival sorts after everything that has left and after the row being worked on. */
  predicate ArrivesInOrder(rows: Rows, current: Option<DeliveryId>, left: seq<Key>, i: Incoming, now: Time) {
    i.processedKind ==>
      && (forall k :: 0 <= k < |left| ==> Before(left[k], Key(now, i.id)))
      && (current.Some? && current.value in rows ==> Before(KeyOf(rows, current.value), Key(now, i.id)))
  }

  /** A clock that never gives two deliveries the same time suffices. */
  lemma LaterArrivesInOrder(rows: Rows, current: Option<DeliveryId>, left: seq<Key>, i: Incoming, now: Time)
    requires LeftOk(rows, left)
    requires forall id :: id in rows ==> rows[id].receivedAt < now
    ensures ArrivesInOrder(rows, current, left, i, now)
  {
    forall k | 0 <= k < |left| ensures Before(left[k], Key(now, i.id)) {
      assert KeyOf(rows, left[k].id) == left[k];
    }
  }

  function LateAfterArrival(left: seq<Key>, late: set<DeliveryId>, i: Incoming, now: Time): set<DeliveryId> {
    if i.processedKind && Overtaken(Key(now, i.id), left) then late + {i.id} else late
  }

  function EarlyAfterArrival(rows: Rows, current: Option<DeliveryId>, left: seq<Key>, early: set<DeliveryId>,
    i: Incoming, now: Time): set<DeliveryId> {
    if i.processedKind && !Overtaken(Key(now, i.id), left) && current.Some? && current.value in rows
      && Before(Key(now, i.id), KeyOf(rows, current.value))
    then early + {i.id} else early
  }

  lemma ArrivalTracked(rows: Rows, current: Option<DeliveryId>, left: seq<Key>, late: set<DeliveryId>,
    early: set<DeliveryId>, i: Incoming, now: Time)
    requires Departures(rows, current, left, late, early) && i.id !in rows
    ensures Departures(rows[i.id := Stored(i, now)], current, left,
      LateAfterArrival(left, late, i, now), EarlyAfterArrival(rows, current, left, early, i, now))
  {
    var after := rows[i.id := Stored(i, now)];
    assert KeyOf(after, i.id) == Key(now, i.id);
    forall id | id in rows ensures after[id] == rows[id] && KeyOf(after, id) == KeyOf(rows, id) {}
  }

  /** The new sets grow exactly when the arrival is not in order. */
  lemma OutOfOrderIsTracked(rows: Rows, current: Option<DeliveryId>, left: seq<Key>, i: Incoming, now: Time)
    requires LeftOk(rows, left) && i.id !in rows
    ensures ArrivesInOrder(rows, current, left, i, now) <==>
      !(i.processedKind && (Overtaken(Key(now, i.id), left)
        || (current.Some? && current.value in rows && Before(Key(now, i.id), KeyOf(rows, current.value)))))
  {
    forall k | 0 <= k < |left| ensures Before(left[k], Key(now, i.id)) <==> !Before(Key(now, i.id), left[k]) {
      assert left[k].id in rows;
    }
  }

  /** A status change of one row, its key unchanged. */
  predicate OneRowChanged(rows: Rows, after: Rows, id: DeliveryId) {
    && id in rows && after.Keys == rows.Keys && after[id].receivedAt == rows[id].receivedAt
    && forall other :: other in rows && other != id ==> after[other] == rows[other]
  }

  lemma SameKeys(rows: Rows, after: Rows, id: DeliveryId)
    requires OneRowChanged(rows, after, id)
    ensures forall other :: other in rows ==> other in after && KeyOf(after, other) == KeyOf(rows, other)
  {
  }

  /** Nothing waiting sorts before the oldest, so a claim starts with no early arrival. */
  lemma ClaimTracked(rows: Rows, after: Rows, left: seq<Key>, late: set<DeliveryId>, early: set<DeliveryId>,
    id: DeliveryId)
    requires Departures(rows, None, left, late, early) && OldestWaiting(rows, id)
    requires OneRowChanged(rows, after, id) && after[id].status == Processing
    ensures early == {} && Departures(after, Some(id), left, late, {})
  {
    SameKeys(rows, after, id);
    forall other | Waiting(after, other) ensures !Before(KeyOf(after, other), KeyOf(after, id)) {
      assert BeforeRow(KeyOf(rows, id), rows, other);
    }
  }

  /** A departure makes the early arrivals late; the order breaks here exactly when the row itself was late. */
  lemma DepartureTracked(rows: Rows, after: Rows, left: seq<Key>, late: set<DeliveryId>, early: set<DeliveryId>,
    id: DeliveryId)
    requires Departures(rows, Some(id), left, late, early) && OneRowChanged(rows, after, id) && !Live(after[id])
    ensures Departures(after, None, left + [KeyOf(rows, id)], late + early, {})
  {
    var departed := left + [KeyOf(rows, id)];
    SameKeys(rows, after, id);
    DepartedLeftOk(rows, after, left, id);
    DepartedAscend(rows, left, late, early, id);
    forall other | other in after && Live(after[other])
      ensures other in late + early <==> Overtaken(KeyOf(after, other), departed)
    {
      OvertakenByOneMore(KeyOf(after, other), left, KeyOf(rows, id));
      assert other != id && rows[other] == after[other];
      assert Waiting(rows, other);
    }
    forall other | other in late + early ensures other in after && (Live(after[other]) || HasLeft(other, departed)) {
      if other == id {
        assert departed[|left|].id == id;
      } else if HasLeft(other, left) {
        var j :| 0 <= j < |left| && left[j].id == other;
        assert departed[j].id == other;
      }
    }
  }

  lemma OvertakenByOneMore(k: Key, left: seq<Key>, last: Key)
    ensures Overtaken(k, left + [last]) <==> Overtaken(k, left) || Before(k, last)
  {
    var departed := left + [last];
    if Overtaken(k, left) {
      var j :| 0 <= j < |left| && Before(k, left[j]);
      assert Before(k, departed[j]);
    }
    if Before(k, last) {
      assert Before(k, departed[|left|]);
    }
  }

  lemma DepartedLeftOk(rows: Rows, after: Rows, left: seq<Key>, id: DeliveryId)
    requires LeftOk(rows, left) && id in rows && Live(rows[id]) && OneRowChanged(rows, after, id) && !Live(after[id])
    ensures LeftOk(after, left + [KeyOf(rows, id)])
  {
  }

  lemma DepartedAscend(rows: Rows, left: seq<Key>, late: set<DeliveryId>, early: set<DeliveryId>, id: DeliveryId)
    requires Departures(rows, Some(id), left, late, early)
    ensures AscendIffTimely(left + [KeyOf(rows, id)], late + early)
  {
    var departed := left + [KeyOf(rows, id)];
    forall k | 0 <= k < |left| ensures Before(left[k], KeyOf(rows, id)) <==> !Before(KeyOf(rows, id), left[k]) {
      assert left[k].id != id;
    }
    assert Overtaken(KeyOf(rows, id), left) <==> id in late;
    assert forall k :: 0 <= k < |left| ==> left[k].id !in early;
    assert id !in early;
    AscendingSnoc(left, KeyOf(rows, id));
    TimelySnoc(left, KeyOf(rows, id), late + early);
  }

  lemma AscendingSnoc(left: seq<Key>, last: Key)
    ensures Ascending(left + [last]) <==> Ascending(left) && forall j :: 0 <= j < |left| ==> Before(left[j], last)
  {
    var departed := left + [last];
    assert forall k :: 0 <= k < |left| ==> departed[k] == left[k];
    if Ascending(departed) {
      forall j | 0 <= j < |left| ensures Before(left[j], last) {
        assert Before(departed[j], departed[|left|]);
      }
      forall j, k | 0 <= j < k < |left| ensures Before(left[j], left[k]) {
        assert Before(departed[j], departed[k]);
      }
    }
  }

  lemma TimelySnoc(left: seq<Key>, last: Key, late: set<DeliveryId>)
    ensures (forall k :: 0 <= k < |left + [last]| ==> (left + [last])[k].id !in late)
       <==> (forall k :: 0 <= k < |left| ==> left[k].id !in late) && last.id !in late
  {
    var departed := left + [last];
    assert departed[|left|] == last && forall k :: 0 <= k < |left| ==> departed[k] == left[k];
  }

  /** A failed attempt that goes back to the queue decides nothing. */
  lemma RetryTracked(rows: Rows, after: Rows, left: seq<Key>, late: set<DeliveryId>, early: set<DeliveryId>,
    id: DeliveryId)
    requires Departures(rows, Some(id), left, late, early) && OneRowChanged(rows, after, id)
      && after[id].status == Pending
    ensures Departures(after, None, left, late, {})
  {
    SameKeys(rows, after, id);
  }

  /** The history of the queue, as far as the order of departures goes: what has left, what was late, what may
      turn out late, whether there was no crash, revival or failure on a finished row, whether each attempt so
      far ended in a departure, and whether each live arrival came in order. */
  datatype Track = Track(left: seq<Key>, late: set<DeliveryId>, early: set<DeliveryId>, smooth: bool, firstTry: bool,
    inOrder: bool)

  const START: Track := Track([], {}, {}, true, true, true)

  ghost function Arrived(t: Track, rows: Rows, working: Option<DeliveryId>, i: Incoming, now: Time): Track {
    t.(late := LateAfterArrival(t.left, t.late, i, now),
       early := EarlyAfterArrival(rows, working, t.left, t.early, i, now),
       inOrder := t.inOrder && ArrivesInOrder(rows, working, t.left, i, now))
  }

  function Departed(t: Track, key: Key): Track {
    t.(left := t.left + [key], late := t.late + t.early, early := {})
  }

  function Retried(t: Track): Track { t.(early := {}, firstTry := false) }

  function Broken(t: Track): Track { t.(smooth := false) }

  ghost predicate Tracks(rows: Rows, working: Option<DeliveryId>, t: Track) {
    && (t.smooth ==> Departures(rows, working, t.left, t.late, t.early))
    && (t.smooth && t.inOrder ==> t.late == {} && t.early == {})
    && (t.smooth && t.firstTry ==> (t.inOrder <==> t.late == {} && t.early == {}))
  }

  lemma ArrivalTracks(rows: Rows, working: Option<DeliveryId>, t: Track, i: Incoming, now: Time)
    requires Tracks(rows, working, t) && i.id !in rows
    ensures Tracks(rows[i.id := Stored(i, now)], working, Arrived(t, rows, working, i, now))
  {
    if t.smooth {
      ArrivalTracked(rows, working, t.left, t.late, t.early, i, now);
      OutOfOrderIsTracked(rows, working, t.left, i, now);
    }
  }

  lemma ClaimTracks(rows: Rows, after: Rows, t: Track, id: DeliveryId)
    requires Tracks(rows, None, t) && OldestWaiting(rows, id)
    requires OneRowChanged(rows, after, id) && after[id].status == Processing
    ensures Tracks(after, Some(id), t)
  {
    if t.smooth {
      ClaimTracked(rows, after, t.left, t.late, t.early, id);
    }
  }

  lemma DepartureTracks(rows: Rows, after: Rows, t: Track, id: DeliveryId)
    requires Tracks(rows, Some(id), t) && OneRowChanged(rows, after, id) && !Live(after[id])
    ensures Tracks(after, None, Departed(t, KeyOf(rows, id)))
  {
    if t.smooth {
      DepartureTracked(rows, after, t.left, t.late, t.early, id);
    }
  }

  lemma RetryTracks(rows: Rows, after: Rows, t: Track, id: DeliveryId)
    requires Tracks(rows, Some(id), t) && OneRowChanged(rows, after, id) && after[id].status == Pending
    ensures Tracks(after, None, Retried(t))
  {
    if t.smooth {
      RetryTracked(rows, after, t.left, t.late, t.early, id);
    }
  }

  lemma BrokenTracks(rows: Rows, working: Option<DeliveryId>, t: Track)
    ensures Tracks(rows, working, Broken(t))
  {
  }

  /** The end of an attempt, whichever way it went. */
  function Ended(rows: Rows, after: Rows, t: Track, id: DeliveryId): Track
    requires id in rows && id in after
  {
    if after[id].status == Pending then Retried(t) else Departed(t, KeyOf(rows, id))
  }

  /** In every run without crash, revival or failure on a finished row, retries included: deliveries leave in
      (received_at, delivery_id) order iff none that left had come after a later-sorting one left, or during
      the attempt in which it left. */
  lemma DeparturesAscendIff(rows: Rows, working: Option<DeliveryId>, t: Track)
    requires Tracks(rows, working, t) && t.smooth
    ensures Ascending(t.left) <==> forall k :: 0 <= k < |t.left| ==> t.left[k].id !in t.late
  {
  }

  /** Arrivals in order leave in order, however often they are retried. */
  lemma InOrderArrivalsLeaveInOrder(rows: Rows, working: Option<DeliveryId>, t: Track)
    requires Tracks(rows, working, t) && t.smooth && t.inOrder
    ensures Ascending(t.left)
  {
    DeparturesAscendIff(rows, working, t);
  }

  /** When besides no attempt was retried and nothing is left in the queue: iff every live arrival came in order. */
  lemma DrainedInOrderIff(rows: Rows, t: Track)
    requires Tracks(rows, None, t) && t.smooth && t.firstTry && forall id :: id in rows ==> !Live(rows[id])
    ensures Ascending(t.left) <==> t.inOrder
  {
    forall id | id in t.late ensures HasLeft(id, t.left) {
      assert id in rows;
    }
  }

  predicate RowsOk(rows: Rows, max: nat) {
    forall id :: id in rows ==> RowOk(rows[id], max)
  }

  // What became of each delivery

  /** Per delivery: when it was first stored, what was last recorded for it, how many attempts have failed since,
      and, while it is finished, whether it was dropped rather than processed. */
  datatype Memory = Memory(first: map<DeliveryId, Time>, last: map<DeliveryId, Incoming>,
    failures: map<DeliveryId, nat>, dropped: map<DeliveryId, bool>)

  const NOTHING: Memory := Memory(map[], map[], map[], map[])

  function Recorded(m: Memory, i: Incoming): Memory {
    m.(last := m.last[i.id := i], failures := m.failures[i.id := 0], dropped := m.dropped - {i.id})
  }

  function FirstRecorded(m: Memory, i: Incoming, now: Time): Memory {
    var n := Recorded(m, i).(first := m.first[i.id := now]);
    if i.processedKind then n else n.(dropped := n.dropped[i.id := true])
  }

  function FinishRecorded(m: Memory, id: DeliveryId, ignored: bool): Memory {
    m.(dropped := m.dropped[id := ignored])
  }

  function FailureRecorded(m: Memory, id: DeliveryId): Memory
    requires id in m.failures
  {
    m.(failures := m.failures[id := m.failures[id] + 1], dropped := m.dropped - {id})
  }

  /** The columns of a row, told by its history: the time of its first arrival, the payload of its last one if it
      still has one, a retry for each failure since, and a final status for a reason. */
  predicate RowTells(d: Delivery, id: DeliveryId, m: Memory, max: nat) {
    && id in m.first && d.receivedAt == m.first[id]
    && id in m.last && (d.payload.Some? ==> m.last[id].processedKind && d.payload == Some(m.last[id].payload))
    && id in m.failures && d.retries == m.failures[id]
    && (d.status == Failed <==> d.retries >= max)
    && (d.status == Processed <==> id in m.dropped && !m.dropped[id])
    && (d.status == Ignored <==> id in m.dropped && m.dropped[id])
  }

  predicate RowsTell(rows: Rows, m: Memory, max: nat) {
    forall id :: id in rows ==> RowTells(rows[id], id, m, max)
  }

  lemma ArrivalTells(rows: Rows, m: Memory, max: nat, i: Incoming, now: Time)
    requires 1 <= max && RowsTell(rows, m, max) && i.id !in rows
    ensures RowsTell(rows[i.id := Stored(i, now)], FirstRecorded(m, i, now), max)
  {
    forall id | id in rows ensures RowTells(rows[id], id, FirstRecorded(m, i, now), max) {
      assert RowTells(rows[id], id, m, max);
    }
  }

  lemma ArrivalKeepsRows(rows: Rows, max: nat, i: Incoming, now: Time)
    requires 1 <= max && i.id !in rows
    ensures RowsOk(rows, max) ==> RowsOk(rows[i.id := Stored(i, now)], max)
    ensures forall id :: id in rows ==> rows[i.id := Stored(i, now)][id] == rows[id]
  {
  }

  lemma RevivalTells(rows: Rows, m: Memory, max: nat, i: Incoming)
    requires 1 <= max && RowsTell(rows, m, max) && i.id in rows
    ensures RowsTell(rows[i.id := Revived(rows[i.id], i)], Recorded(m, i), max)
  {
    forall id | id in rows && id != i.id ensures RowTells(rows[id], id, Recorded(m, i), max) {
      assert RowTells(rows[id], id, m, max);
    }
    assert RowTells(rows[i.id], i.id, m, max);
  }

  lemma FinishTells(rows: Rows, m: Memory, max: nat, id: DeliveryId, ignored: bool)
    requires RowsTell(rows, m, max) && id in rows && rows[id].status == Processing
    ensures RowsTell(rows[id := Finished(rows[id], ignored)], FinishRecorded(m, id, ignored), max)
  {
    forall other | other in rows && other != id
      ensures RowTells(rows[other], other, FinishRecorded(m, id, ignored), max)
    {
      assert RowTells(rows[other], other, m, max);
    }
    assert RowTells(rows[id], id, m, max);
  }

  lemma FailureTells(rows: Rows, m: Memory, max: nat, id: DeliveryId)
    requires RowsTell(rows, m, max) && id in rows
    ensures id in m.failures
    ensures RowsTell(rows[id := FailedOnce(rows[id], max)], FailureRecorded(m, id), max)
  {
    assert RowTells(rows[id], id, m, max);
    forall other | other in rows && other != id ensures RowTells(rows[other], other, FailureRecorded(m, id), max) {
      assert RowTells(rows[other], other, m, max);
    }
  }

  class WebhookQueue {
    const maxRetries: nat
    var rows: Rows
    /** The delivery the one consumer is working on; a crash forgets it. */
    var current: Option<DeliveryId>
    /** Its completion took effect, but the consumer was told that it failed. */
    var misreported: bool
    ghost var track: Track
    /** Every row revived, or failed when it was over, was left as a row should be. */
    ghost var faithful: bool
    ghost var memory: Memory

    ghost function Working(): Option<DeliveryId>
      reads this
    {
      if misreported then None else current
    }

    ghost predicate Valid()
      reads this
    {
      && 1 <= maxRetries
      && (faithful ==> RowsOk(rows, maxRetries))
      && (misreported ==> current.Some?)
      && (current.Some? ==> current.value in rows)
      && (current.Some? ==> if misreported then Over(rows[current.value]) else rows[current.value].status == Processing)
      && Tracks(rows, Working(), track)
      && RowsTell(rows, memory, maxRetries)
    }

    /** Rows that are over, processed or ignored, are the same before and after. */
    twostate predicate OverUntouched()
      reads this
    {
      forall id :: id in old(rows) && Over(old(rows)[id]) ==> id in rows && rows[id] == old(rows)[id]
    }

    constructor (maxRetries: nat)
      requires 1 <= maxRetries
      ensures Valid() && rows == map[] && current == None && !misreported && this.maxRetries == maxRetries
      ensures track == START && faithful && memory == NOTHING
    {
      this.maxRetries := maxRetries;
      rows, current, misreported := map[], None, false;
      track, faithful, memory := START, true, NOTHING;
    }

    /** A new delivery is stored, a failed one revived, any other redelivery dropped. */
    method Receive(i: Incoming, now: Time) returns (recorded: bool)
      requires Valid()
      modifies this`rows, this`track, this`faithful, this`memory
      ensures Valid() && OverUntouched()
      ensures memory == if i.id !in old(rows) then FirstRecorded(old(memory), i, now)
                        else if recorded then Recorded(old(memory), i) else old(memory)
      ensures faithful <==> old(faithful) && (recorded && i.id in old(rows) ==> i.processedKind)
      ensures recorded <==> i.id !in old(rows) || old(rows)[i.id].status == Failed
      ensures recorded ==>
        i.id in rows && rows[i.id].status == if i.processedKind || i.id in old(rows) then Pending else Ignored
      ensures rows == if i.id !in old(rows) then old(rows)[i.id := Stored(i, now)]
                      else if old(rows)[i.id].status == Failed then old(rows)[i.id := Revived(old(rows)[i.id], i)]
                      else old(rows)
      ensures track == if i.id !in old(rows) then Arrived(old(track), old(rows), Working(), i, now)
                       else if recorded then Broken(old(track)) else old(track)
    {
      recorded := false;
      if i.id !in rows {
        StoreNew(i, now);
        recorded := true;
      } else if rows[i.id].status == Failed {
        ReviveFailed(i);
        recorded := true;
      }
    }

    method StoreNew(i: Incoming, now: Time)
      requires Valid() && i.id !in rows
      modifies this`rows, this`track, this`memory
      ensures Valid() && rows == old(rows)[i.id := Stored(i, now)]
      ensures memory == FirstRecorded(old(memory), i, now)
      ensures track == Arrived(old(track), old(rows), Working(), i, now)
    {
      ArrivalTracks(rows, Working(), track, i, now);
      ArrivalTells(rows, memory, maxRetries, i, now);
      ArrivalKeepsRows(rows, maxRetries, i, now);
      track := Arrived(track, rows, Working(), i, now);
      memory := FirstRecorded(memory, i, now);
      rows := rows[i.id := Stored(i, now)];
    }

    method ReviveFailed(i: Incoming)
      requires Valid() && i.id in rows && rows[i.id].status == Failed
      modifies this`rows, this`track, this`faithful, this`memory
      ensures Valid() && rows == old(rows)[i.id := Revived(old(rows)[i.id], i)]
      ensures memory == Recorded(old(memory), i) && track == Broken(old(track))
      ensures faithful == (old(faithful) && i.processedKind)
    {
      track := Broken(track);
      faithful := faithful && i.processedKind;
      RevivalTells(rows, memory, maxRetries, i);
      memory := Recorded(memory, i);
      rows := rows[i.id := Revived(rows[i.id], i)];
      BrokenTracks(rows, Working(), track);
    }

    /** The oldest pending row by (received_at, delivery_id), if there is one. */
    method ClaimNext(now: Time) returns (claimed: Option<DeliveryId>)
      requires Valid() && current == None
      modifies this`rows, this`current
      ensures Valid() && OverUntouched() && current == claimed
      ensures claimed == None <==> forall id :: !Waiting(old(rows), id)
      ensures claimed == None ==> rows == old(rows)
      ensures claimed.Some? ==>
        && OldestWaiting(old(rows), claimed.value)
        && rows == old(rows)[claimed.value := old(rows)[claimed.value].(status := Processing, lastAttempt := Some(now))]
    {
      claimed := Oldest(rows);
      if claimed.Some? {
        var id := claimed.value;
        var after := rows[id := rows[id].(status := Processing, lastAttempt := Some(now))];
        ClaimTracks(rows, after, track, id);
        rows, current := after, claimed;
      }
    }

    /** The completion transaction: processed or deliberately ignored, payload dropped. When the commit
        takes effect but the consumer is told otherwise, the consumer goes on to record a failure. */
    method Complete(ignored: bool, acknowledged: bool)
      requires Valid() && current.Some? && !misreported
      modifies this`rows, this`current, this`misreported, this`track, this`memory
      ensures Valid() && OverUntouched() && memory == FinishRecorded(old(memory), old(current).value, ignored)
      ensures if acknowledged then current == None && !misreported else current == old(current) && misreported
      ensures rows == old(rows)[old(current).value := Finished(old(rows)[old(current).value], ignored)]
      ensures track == Departed(old(track), KeyOf(old(rows), old(current).value))
    {
      var id := current.value;
      var after := rows[id := Finished(rows[id], ignored)];
      DepartureTracks(rows, after, track, id);
      track := Departed(track, KeyOf(rows, id));
      FinishTells(rows, memory, maxRetries, id, ignored);
      memory := FinishRecorded(memory, id, ignored);
      rows := after;
      if acknowledged {
        current := None;
      } else {
        misreported := true;
      }
    }

    /** Recording a failure has no status guard: back to pending, or parked once the retries are spent,
        whatever the row was. Finished rows stay as they are iff the failure is not recorded on one. */
    method Fail()
      requires Valid() && current.Some?
      modifies this
      ensures Valid() && current == None && !misreported
      ensures old(current).value in old(memory).failures && memory == FailureRecorded(old(memory), old(current).value)
      ensures rows == old(rows)[old(current).value := FailedOnce(old(rows)[old(current).value], maxRetries)]
      ensures OverUntouched() <==> !old(misreported)
      ensures faithful <==> old(faithful) && (old(misreported) ==> RowOk(rows[old(current).value], maxRetries))
      ensures track == if old(misreported) then Broken(old(track))
        else Ended(old(rows), rows, old(track), old(current).value)
    {
      var id := current.value;
      assert FailedOnce(rows[id], maxRetries).retries != rows[id].retries;
      if misreported {
        FailFinished(id);
      } else {
        FailAttempt(id);
      }
    }

    method FailFinished(id: DeliveryId)
      requires Valid() && current == Some(id) && misreported
      modifies this
      ensures Valid() && current == None && !misreported && track == Broken(old(track))
      ensures id in old(memory).failures && memory == FailureRecorded(old(memory), id)
      ensures rows == old(rows)[id := FailedOnce(old(rows)[id], maxRetries)]
      ensures faithful <==> old(faithful) && RowOk(rows[id], maxRetries)
    {
      var after := rows[id := FailedOnce(rows[id], maxRetries)];
      FailureTells(rows, memory, maxRetries, id);
      memory := FailureRecorded(memory, id);
      track := Broken(track);
      BrokenTracks(after, None, track);
      faithful := faithful && RowOk(after[id], maxRetries);
      rows, current, misreported := after, None, false;
    }

    method FailAttempt(id: DeliveryId)
      requires Valid() && current == Some(id) && !misreported
      modifies this
      ensures Valid() && current == None && !misreported && faithful == old(faithful)
      ensures id in old(memory).failures && memory == FailureRecorded(old(memory), id)
      ensures rows == old(rows)[id := FailedOnce(old(rows)[id], maxRetries)]
      ensures track == Ended(old(rows), rows, old(track), id)
    {
      var after := rows[id := FailedOnce(rows[id], maxRetries)];
      FailureTells(rows, memory, maxRetries, id);
      memory := FailureRecorded(memory, id);
      if after[id].status == Pending {
        RetryTracks(rows, after, track, id);
        track := Retried(track);
      } else {
        DepartureTracks(rows, after, track, id);
        track := Departed(track, KeyOf(rows, id));
      }
      rows, current := after, None;
    }

    /** The consumer dies, or cannot even record its failure: the row stays as it is. */
    method Crash()
      requires Valid()
      modifies this`current, this`misreported, this`track
      ensures Valid() && OverUntouched() && current == None && !misreported && track == Broken(old(track))
    {
      current, misreported := None, false;
      track := Broken(track);
    }

    /** The sweep between two drains. */
    method RevertStuck(cutoff: Time) returns (reverted: set<DeliveryId>)
      requires Valid() && current == None
      modifies this`rows
      ensures Valid() && OverUntouched()
      ensures forall id :: id in reverted <==>
        && id in old(rows) && old(rows)[id].status == Processing
        && old(rows)[id].lastAttempt.Some? && old(rows)[id].lastAttempt.value < cutoff
      ensures rows == map id | id in old(rows) ::
        if id in reverted then old(rows)[id].(status := Pending) else old(rows)[id]
      ensures track.smooth ==> reverted == {}
    {
      reverted := set id | id in rows && Stuck(rows[id], cutoff);
      rows := map id | id in rows :: if id in reverted then rows[id].(status := Pending) else rows[id];
      assert track.smooth ==> reverted == {};
      assert reverted == {} ==> rows == old(rows);
    }
  }

  /** The row the WHERE clause of the sweep selects. */
  predicate Stuck(d: Delivery, cutoff: Time) {
    d.status == Processing && d.lastAttempt.Some? && d.lastAttempt.value < cutoff
  }

  /** The inner SELECT of the claim. */
  method Oldest(rows: Rows) returns (oldest: Option<DeliveryId>)
    ensures oldest == None <==> forall id :: !Waiting(rows, id)
    ensures oldest.Some? ==> OldestWaiting(rows, oldest.value)
  {
    var pending := set id | id in rows && rows[id].status == Pending;
    if pending == {} {
      assert forall id :: Waiting(rows, id) ==> id in pending;
      return None;
    }
    ghost var first := OldestExists(rows, pending);
    assert OldestWaiting(rows, first) && first in pending;
    var id :| id in pending && OldestWaiting(rows, id);
    assert Waiting(rows, id);
    return Some(id);
  }

  // Runs

  /** One delivery stored and claimed in an empty queue. */
  method ClaimFirst(id: DeliveryId) returns (q: WebhookQueue)
    ensures fresh(q) && q.Valid() && q.maxRetries == 3 && q.current == Some(id) && !q.misreported
    ensures q.rows == map[id := Delivery(10, Processing, Some(""), 0, Some(10))]
    ensures q.track.left == [] && q.track.smooth && q.track.firstTry && q.track.inOrder
  {
    q := new WebhookQueue(3);
    var stored := q.Receive(Incoming(id, true, ""), 10);
    assert Waiting(q.rows, id);
    var claimed := q.ClaimNext(10);
    assert Waiting(map[id := Delivery(10, Pending, Some(""), 0, None)], claimed.value);
  }

  /** 5 in work and 2, with the same time of arrival, just stored. */
  method FiveThenTwo() returns (q: WebhookQueue)
    ensures fresh(q) && q.Valid() && q.maxRetries == 3 && q.current == Some(5) && !q.misreported
    ensures q.rows == map[5 := Delivery(10, Processing, Some(""), 0, Some(10)),
                          2 := Delivery(10, Pending, Some(""), 0, None)]
    ensures q.track.left == [] && q.track.smooth && q.track.firstTry && !q.track.inOrder
  {
    q := ClaimFirst(5);
    ghost var before := q.rows;
    var stored := q.Receive(Incoming(2, true, ""), 10);
    assert !Before(KeyOf(before, 5), Key(10, 2));
  }

  /** One turn of the consumer that goes well. */
  method ProcessOldest(q: WebhookQueue, id: DeliveryId)
    requires q.Valid() && q.current == None && OldestWaiting(q.rows, id)
    modifies q
    ensures q.Valid() && q.current == None
    ensures q.track == Departed(old(q.track), KeyOf(old(q.rows), id))
    ensures OneRowChanged(old(q.rows), q.rows, id) && q.rows[id].status == Processed
  {
    ghost var rows := q.rows;
    var claimed := q.ClaimNext(10);
    assert Waiting(rows, id);
    OneOldest(rows, id, claimed.value);
    q.Complete(false, true);
  }

  lemma OneOldest(rows: Rows, a: DeliveryId, b: DeliveryId)
    requires OldestWaiting(rows, a) && OldestWaiting(rows, b)
    ensures a == b
  {
    var first, second := KeyOf(rows, a), KeyOf(rows, b);
    assert a != b ==> BeforeRow(first, rows, b) && BeforeRow(second, rows, a);
  }

  method FiveLeaves() returns (q: WebhookQueue)
    ensures fresh(q) && q.Valid() && q.current == None
    ensures q.rows == map[5 := Delivery(10, Processed, None, 0, Some(10)),
                          2 := Delivery(10, Pending, Some(""), 0, None)]
    ensures q.track.left == [Key(10, 5)] && q.track.smooth && q.track.firstTry && !q.track.inOrder
  {
    q := FiveThenTwo();
    q.Complete(false, true);
  }

  /** Deliveries 5 and then 2 at one time, 2 while 5 is in work: 5 leaves first, out of order. */
  method EqualTimesOvertake() returns (q: WebhookQueue)
    ensures q.Valid() && q.track.smooth && q.track.firstTry && !q.track.inOrder
    ensures q.track.left == [Key(10, 5), Key(10, 2)] && !Ascending(q.track.left)
  {
    q := FiveLeaves();
    assert OldestWaiting(q.rows, 2);
    ProcessOldest(q, 2);
    assert !Before(q.track.left[0], q.track.left[1]);
  }

  method FiveFailsOnce() returns (q: WebhookQueue)
    ensures fresh(q) && q.Valid() && q.current == None
    ensures q.rows == map[5 := Delivery(10, Pending, Some(""), 1, Some(10)),
                          2 := Delivery(10, Pending, Some(""), 0, None)]
    ensures q.track.left == [] && q.track.smooth && !q.track.firstTry && !q.track.inOrder
  {
    q := FiveThenTwo();
    q.Fail();
  }

  method TwoLeavesFirst() returns (q: WebhookQueue)
    ensures fresh(q) && q.Valid() && q.current == None
    ensures OldestWaiting(q.rows, 5) && KeyOf(q.rows, 5) == Key(10, 5)
    ensures q.track.left == [Key(10, 2)] && q.track.smooth && !q.track.firstTry && !q.track.inOrder
  {
    q := FiveFailsOnce();
    assert OldestWaiting(q.rows, 2) && Waiting(q.rows, 5);
    ProcessOldest(q, 2);
  }

  /** The same arrivals, but the attempt at 5 fails and is repeated: both leave in order. */
  method RetryRestoresOrder() returns (q: WebhookQueue)
    ensures q.Valid() && q.track.smooth && !q.track.firstTry && !q.track.inOrder
    ensures q.track.left == [Key(10, 2), Key(10, 5)] && Ascending(q.track.left)
  {
    q := TwoLeavesFirst();
    ProcessOldest(q, 5);
  }

  /** A completion that took effect but was reported as failed: the processed row is pending again, without payload. */
  method MisreportedCompletionReopens() returns (q: WebhookQueue)
    ensures q.Valid() && !q.faithful && q.rows == map[1 := Delivery(10, Pending, None, 1, Some(10))]
  {
    q := ClaimFirst(1);
    q.Complete(false, false);
    assert q.rows == map[1 := Delivery(10, Processed, None, 0, Some(10))];
    q.Fail();
  }
}
