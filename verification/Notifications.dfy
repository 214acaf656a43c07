/** The notification table: merge on write, read and archive flags, retention. */
module NotificationsModel {
  import opened Options

  type NotificationId = nat
  type Time = nat

  datatype Notification = Notification(
    workspace: nat, user: nat, category: string, text: string, dedup: Option<string>,
    count: nat, readAt: Option<Time>, archivedAt: Option<Time>)

  datatype Incoming = Incoming(workspace: nat, user: nat, category: string, text: string, dedup: Option<string>)

  datatype Verb = Read | Unread | Archive | Other

  type Rows = map<NotificationId, Notification>

  /** The rows the partial unique index covers. */
  predicate Indexed(n: Notification) {
    n.readAt == None && n.archivedAt == None && n.dedup.Some?
  }

  predicate Collide(a: Notification, b: Notification) {
    Indexed(a) && Indexed(b) && a.user == b.user && a.dedup == b.dedup
  }

  /** The partial unique index: at most one unread, unarchived row per (user, dedup key). */
  predicate IndexOk(rows: Rows) {
    forall a, b {:trigger Collide(rows[a], rows[b])} ::
      a in rows && b in rows && Collide(rows[a], rows[b]) ==> a == b
  }

  predicate RowOk(n: Notification) {
    n.count >= 1 && (n.archivedAt.Some? ==> n.readAt.Some?)
  }

  /** The row an upsert merges into. */
  predicate MergesInto(n: Notification, i: Incoming) {
    Indexed(n) && n.user == i.user && n.dedup == i.dedup
  }

  function Merged(n: Notification, i: Incoming): Notification {
    n.(count := n.count + 1, text := i.text)
  }

  function Inserted(i: Incoming): Notification {
    Notification(i.workspace, i.user, i.category, i.text, i.dedup, 1, None, None)
  }

  predicate Mine(n: Notification, workspace: nat, user: nat) {
    n.workspace == workspace && n.user == user
  }

  /** The rows "mark all read" selects, in one category or all. */
  predicate Pending(n: Notification, workspace: nat, user: nat, category: Option<string>) {
    && Mine(n, workspace, user) && n.readAt == None && n.archivedAt == None
    && (category == None || category == Some(n.category))
  }

  /** Which rows a bulk verb's WHERE clause selects. */
  predicate Selected(n: Notification, verb: Verb) {
    match verb
    case Read => n.readAt == None
    case Unread => n.readAt.Some? && n.archivedAt == None
    case Archive => n.archivedAt == None
    case Other => false
  }

  function Flip(n: Notification, verb: Verb, now: Time): Notification {
    match verb
    case Read => n.(readAt := Some(now))
    case Unread => n.(readAt := None)
    case Archive => n.(archivedAt := Some(now), readAt := if n.readAt.Some? then n.readAt else Some(now))
    case Other => n
  }

  function Bulk(rows: Rows, workspace: nat, user: nat, verb: Verb, ids: set<NotificationId>, now: Time): Rows {
    map id | id in rows ::
      if id in ids && Mine(rows[id], workspace, user) && Selected(rows[id], verb)
      then Flip(rows[id], verb, now)
      else rows[id]
  }

  /** What a bulk verb leaves: nothing but flags changes, and those of the caller's listed rows only. `read` sets
      what is unread, `unread` clears what is not archived, `archive` sets both flags and keeps older times. */
  lemma BulkLeaves(rows: Rows, workspace: nat, user: nat, verb: Verb, ids: set<NotificationId>, now: Time,
    id: NotificationId)
    requires id in rows
    ensures var (n, m) := (rows[id], Bulk(rows, workspace, user, verb, ids, now)[id]);
      var listed := id in ids && n.workspace == workspace && n.user == user;
      && m == n.(readAt := m.readAt, archivedAt := m.archivedAt)
      && (!listed || verb == Other ==> m == n)
      && (listed && verb == Read ==>
          m.readAt == Some(if n.readAt == None then now else n.readAt.value) && m.archivedAt == n.archivedAt)
      && (listed && verb == Unread ==>
          m.archivedAt == n.archivedAt && m.readAt == if n.archivedAt == None then None else n.readAt)
      && (listed && verb == Archive && n.archivedAt == None ==>
          && m.archivedAt == Some(now)
          && m.readAt == Some(if n.readAt == None then now else n.readAt.value))
      && (listed && verb == Archive && n.archivedAt.Some? ==> m == n)
  {
  }

  /** Unread selected rows that would land on a key already taken: by a live row, or by another selected one. */
  predicate UnreadCollides(rows: Rows, workspace: nat, user: nat, ids: set<NotificationId>) {
    exists a, b :: a in rows && b in rows && a != b && Reopens(rows[a], a, workspace, user, ids)
      && SameKey(rows[a], rows[b])
      && (Indexed(rows[b]) || Reopens(rows[b], b, workspace, user, ids))
  }

  predicate SameKey(a: Notification, b: Notification) {
    a.dedup.Some? && a.user == b.user && a.dedup == b.dedup
  }

  predicate Reopens(n: Notification, id: NotificationId, workspace: nat, user: nat, ids: set<NotificationId>) {
    id in ids && Mine(n, workspace, user) && n.readAt.Some? && n.archivedAt == None
  }

  /** A bulk verb breaks the unique index exactly when it is `unread` and reopens a taken key. */
  lemma BulkBreaksIndexIff(rows: Rows, workspace: nat, user: nat, verb: Verb, ids: set<NotificationId>, now: Time)
    requires IndexOk(rows)
    ensures IndexOk(Bulk(rows, workspace, user, verb, ids, now))
       <==> !(verb == Unread && UnreadCollides(rows, workspace, user, ids))
  {
    var after := Bulk(rows, workspace, user, verb, ids, now);
    if verb == Unread {
      forall id | id in rows
        ensures Indexed(after[id]) <==>
          rows[id].dedup.Some? && (Indexed(rows[id]) || Reopens(rows[id], id, workspace, user, ids))
      {}
      if UnreadCollides(rows, workspace, user, ids) {
        var a, b :| a in rows && b in rows && a != b && Reopens(rows[a], a, workspace, user, ids)
          && SameKey(rows[a], rows[b])
          && (Indexed(rows[b]) || Reopens(rows[b], b, workspace, user, ids));
        assert Collide(after[a], after[b]);
      } else {
        forall a, b | a in after && b in after && Collide(after[a], after[b])
          ensures a == b
        {
          assert SameKey(rows[a], rows[b]) && SameKey(rows[b], rows[a]);
          if Indexed(rows[a]) && Indexed(rows[b]) { assert Collide(rows[a], rows[b]); }
        }
      }
    } else {
      forall a, b | a in after && b in after && Collide(after[a], after[b])
        ensures a == b
      {
        assert Collide(rows[a], rows[b]);
      }
    }
  }

  // Counting occurrences

  ghost function Total(rows: Rows): nat {
    if rows == map[] then 0 else
      var id :| id in rows;
      rows[id].count + Total(rows - {id})
  }

  /** Any row may be taken out first. */
  lemma {:induction false} TotalTakeOut(rows: Rows, id: NotificationId)
    requires id in rows
    ensures Total(rows) == rows[id].count + Total(rows - {id})
    decreases |rows|
  {
    var first :| first in rows && Total(rows) == rows[first].count + Total(rows - {first});
    if first != id {
      TotalTakeOut(rows - {first}, id);
      TotalTakeOut(rows - {id}, first);
      assert rows - {first} - {id} == rows - {id} - {first};
    }
  }

  lemma TotalSet(rows: Rows, id: NotificationId, n: Notification)
    ensures Total(rows[id := n]) == n.count + Total(rows - {id})
  {
    TotalTakeOut(rows[id := n], id);
    assert rows[id := n] - {id} == rows - {id};
  }

  /** Flags do not count. */
  lemma {:induction false} TotalSameCounts(a: Rows, b: Rows)
    requires a.Keys == b.Keys && forall id :: id in a ==> a[id].count == b[id].count
    ensures Total(a) == Total(b)
    decreases |a|
  {
    if a != map[] {
      var id :| id in a;
      TotalTakeOut(a, id);
      TotalTakeOut(b, id);
      TotalSameCounts(a - {id}, b - {id});
    } else {
      assert b == map[];
    }
  }

  function Restrict(rows: Rows, ids: set<NotificationId>): Rows {
    map id | id in rows && id in ids :: rows[id]
  }

  lemma TakeOutDeleted(rows: Rows, ids: set<NotificationId>, id: NotificationId)
    requires id in rows && id in ids
    ensures Total(Restrict(rows, ids)) == rows[id].count + Total(Restrict(rows - {id}, ids))
    ensures rows - {id} - ids == rows - ids
  {
    TotalTakeOut(Restrict(rows, ids), id);
    assert Restrict(rows, ids) - {id} == Restrict(rows - {id}, ids);
  }

  lemma TakeOutKept(rows: Rows, ids: set<NotificationId>, id: NotificationId)
    requires id in rows && id !in ids
    ensures Total(rows - ids) == rows[id].count + Total(rows - {id} - ids)
    ensures Restrict(rows - {id}, ids) == Restrict(rows, ids)
  {
    TotalTakeOut(rows - ids, id);
    assert rows - ids - {id} == rows - {id} - ids;
  }

  /** A delete splits the total into what stays and what goes. */
  lemma {:induction false} TotalSplit(rows: Rows, ids: set<NotificationId>)
    ensures Total(rows) == Total(rows - ids) + Total(Restrict(rows, ids))
    decreases |rows|
  {
    if rows == map[] {
      assert rows - ids == map[] && Restrict(rows, ids) == map[];
    } else {
      var id :| id in rows;
      TotalTakeOut(rows, id);
      TotalSplit(rows - {id}, ids);
      if id in ids {
        TakeOutDeleted(rows, ids, id);
      } else {
        TakeOutKept(rows, ids, id);
      }
    }
  }

  predicate RowsOk(rows: Rows) {
    IndexOk(rows) && forall id :: id in rows ==> RowOk(rows[id])
  }

  lemma MergeKeeps(rows: Rows, id: NotificationId, i: Incoming)
    requires RowsOk(rows) && id in rows && MergesInto(rows[id], i)
    ensures RowsOk(rows[id := Merged(rows[id], i)])
    ensures Total(rows[id := Merged(rows[id], i)]) == Total(rows) + 1
  {
    var after := rows[id := Merged(rows[id], i)];
    TotalTakeOut(rows, id);
    TotalSet(rows, id, Merged(rows[id], i));
    forall a, b | a in after && b in after && Collide(after[a], after[b]) ensures a == b {
      assert Collide(rows[a], rows[b]);
    }
  }

  lemma InsertKeeps(rows: Rows, id: NotificationId, i: Incoming)
    requires RowsOk(rows) && id !in rows
    requires i.dedup == None || forall n :: n in rows ==> !MergesInto(rows[n], i)
    ensures RowsOk(rows[id := Inserted(i)])
    ensures Total(rows[id := Inserted(i)]) == Total(rows) + 1
  {
    TotalSet(rows, id, Inserted(i));
    assert rows - {id} == rows;
  }

  /** Changing flags keeps everything, as long as no row comes back into the index. */
  lemma FlagsKeep(rows: Rows, after: Rows)
    requires RowsOk(rows) && after.Keys == rows.Keys
    requires forall id :: id in rows ==> RowOk(after[id]) && after[id].count == rows[id].count
    requires forall id :: id in rows && Indexed(after[id]) ==> after[id] == rows[id]
    ensures RowsOk(after) && Total(after) == Total(rows)
  {
    TotalSameCounts(rows, after);
    forall a, b | a in after && b in after && Collide(after[a], after[b]) ensures a == b {
      assert Collide(rows[a], rows[b]);
    }
  }

  class NotificationCenter {
    var rows: Rows
    ghost var upserts: nat
    /** Occurrences counted on rows since purged. */
    ghost var purged: nat

    ghost predicate Valid()
      reads this
    {
      RowsOk(rows) && Total(rows) + purged == upserts
    }

    constructor ()
      ensures Valid() && rows == map[] && upserts == 0 && purged == 0
    {
      rows, upserts, purged := map[], 0, 0;
    }

    /** Insert, or merge into the live row of the same user and key: no event is lost or counted twice. */
    method Upsert(i: Incoming, unused: NotificationId) returns (id: NotificationId, inserted: bool)
      requires Valid() && unused !in rows
      modifies this
      ensures Valid() && upserts == old(upserts) + 1 && purged == old(purged)
      ensures inserted <==> i.dedup == None || forall n :: n in old(rows) ==> !MergesInto(old(rows)[n], i)
      ensures inserted ==> id == unused && rows == old(rows)[id := Inserted(i)]
      ensures !inserted ==>
        id in old(rows) && MergesInto(old(rows)[id], i) && rows == old(rows)[id := Merged(old(rows)[id], i)]
      ensures id in rows && rows[id].user == i.user && rows[id].dedup == i.dedup && rows[id].text == i.text
      ensures rows[id].readAt == None && rows[id].archivedAt == None
      ensures inserted ==> rows[id].workspace == i.workspace && rows[id].category == i.category && rows[id].count == 1
      ensures !inserted ==>
        rows[id] == old(rows)[id].(count := rows[id].count, text := i.text) && rows[id].count == old(rows)[id].count + 1
      ensures i.dedup.Some? ==> forall n ::
        (n in rows && rows[n].readAt == None && rows[n].archivedAt == None
         && rows[n].user == i.user && rows[n].dedup == i.dedup) ==> n == id
    {
      if n :| n in rows && i.dedup.Some? && MergesInto(rows[n], i) {
        MergeKeeps(rows, n, i);
        var merged := rows[n].(count := rows[n].count + 1, text := i.text);
        rows, id, inserted := rows[n := merged], n, false;
      } else {
        InsertKeeps(rows, unused, i);
        rows, id, inserted := rows[unused := Inserted(i)], unused, true;
      }
      upserts := upserts + 1;
      assert forall n :: n in rows && i.dedup.Some? && MergesInto(rows[n], i) ==> Collide(rows[n], rows[id]);
    }

    method MarkRead(workspace: nat, user: nat, id: NotificationId, now: Time) returns (changed: bool)
      requires Valid()
      modifies this`rows
      ensures Valid()
      ensures changed <==> id in old(rows) && Mine(old(rows)[id], workspace, user) && old(rows)[id].readAt == None
      ensures rows == if changed then old(rows)[id := old(rows)[id].(readAt := Some(now))] else old(rows)
    {
      changed := id in rows && Mine(rows[id], workspace, user) && rows[id].readAt == None;
      if changed {
        var after := rows[id := rows[id].(readAt := Some(now))];
        FlagsKeep(rows, after);
        rows := after;
      }
    }

    method MarkAllRead(workspace: nat, user: nat, category: Option<string>, now: Time)
      returns (changed: set<NotificationId>)
      requires Valid()
      modifies this`rows
      ensures Valid()
      ensures forall id :: id in changed <==> id in old(rows) && Pending(old(rows)[id], workspace, user, category)
      ensures forall id :: id in changed ==>
        old(rows)[id].workspace == workspace && old(rows)[id].user == user && old(rows)[id].readAt == None
      ensures category.Some? ==> forall id :: id in changed ==> old(rows)[id].category == category.value
      ensures forall id ::
        (id in rows && rows[id].workspace == workspace && rows[id].user == user
         && (category.Some? ==> rows[id].category == category.value)) ==> rows[id].readAt.Some?
      ensures rows == map id | id in old(rows) ::
        if id in changed then old(rows)[id].(readAt := Some(now)) else old(rows)[id]
    {
      changed := set id | id in rows && Pending(rows[id], workspace, user, category);
      var after := map id | id in rows :: if id in changed then rows[id].(readAt := Some(now)) else rows[id];
      FlagsKeep(rows, after);
      rows := after;
    }

    /** A bulk verb over the caller's rows. The statement aborts, changing
        nothing, exactly when it would break the unique index. */
    method BulkUpdate(workspace: nat, user: nat, verb: Verb, ids: set<NotificationId>, now: Time)
      returns (aborted: bool)
      requires Valid()
      modifies this`rows
      ensures Valid()
      ensures aborted <==> verb == Unread && UnreadCollides(old(rows), workspace, user, ids)
      ensures rows == if aborted then old(rows) else Bulk(old(rows), workspace, user, verb, ids, now)
    {
      var after := map id | id in rows ::
        if id in ids && Mine(rows[id], workspace, user) && Selected(rows[id], verb)
        then Flip(rows[id], verb, now)
        else rows[id];
      assert after == Bulk(rows, workspace, user, verb, ids, now);
      BulkBreaksIndexIff(rows, workspace, user, verb, ids, now);
      aborted := !IndexOk(after);
      if !aborted {
        TotalSameCounts(rows, after);
        rows := after;
      }
    }

    /** The janitor archives a batch of rows read before the cutoff. */
    method AutoArchiveRead(cutoff: Time, batch: set<NotificationId>, now: Time)
      requires Valid()
      requires forall id :: id in batch ==>
        id in rows && rows[id].readAt.Some? && rows[id].archivedAt == None && rows[id].readAt.value < cutoff
      modifies this`rows
      ensures Valid()
      ensures rows == map id | id in old(rows) ::
        if id in batch then old(rows)[id].(archivedAt := Some(now)) else old(rows)[id]
    {
      var after := map id | id in rows :: if id in batch then rows[id].(archivedAt := Some(now)) else rows[id];
      FlagsKeep(rows, after);
      rows := after;
    }

    /** The janitor deletes a batch of rows archived before the cutoff; all of them were read. */
    method PurgeArchived(cutoff: Time, batch: set<NotificationId>)
      requires Valid()
      requires forall id :: id in batch ==>
        id in rows && rows[id].archivedAt.Some? && rows[id].archivedAt.value < cutoff
      modifies this
      ensures Valid() && rows == old(rows) - batch && upserts == old(upserts)
      ensures purged == old(purged) + Total(Restrict(old(rows), batch))
      ensures forall id :: id in batch ==> old(rows)[id].readAt.Some?
    {
      TotalSplit(rows, batch);
      purged := purged + Total(Restrict(rows, batch));
      rows := rows - batch;
    }
  }
}
