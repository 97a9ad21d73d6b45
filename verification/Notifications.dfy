/** One recipient's notifications as stored by the server, and the events each change emits. */
module NotificationServer {
  import opened Outcomes
  import opened Sequences

  datatype Notification = Notification(
    id: int, aggregateKey: int, payload: string, readAt: Option<int>,
    activityAt: int, createdAt: int, updatedAt: int)

  datatype Event =
    | Updated(notification: Notification, unreadCount: int)
    | ReadAll(readAt: int, cutoffActivityAt: int, unreadCount: int)

  datatype Listing = Listing(items: seq<Notification>, nextCursor: Option<int>, unreadCount: int)

  function IdOf(n: Notification): int {
    n.id
  }

  function KeyOf(n: Notification): int {
    n.aggregateKey
  }

  function HasId(id: int): Notification -> bool {
    (n: Notification) => n.id == id
  }

  function HasKey(key: int): Notification -> bool {
    (n: Notification) => n.aggregateKey == key
  }

  /** Newest activity first, then greatest id: `orderBy` on the server, the comparator in the browser. */
  predicate ByActivity(a: Notification, b: Notification) {
    a.activityAt > b.activityAt || (a.activityAt == b.activityAt && a.id >= b.id)
  }

  function IsUnread(n: Notification): int {
    if n.readAt.None? then 1 else 0
  }

  function CountUnread(rows: seq<Notification>): int {
    Sum(IsUnread, rows)
  }

  function Ordered(rows: seq<Notification>): seq<Notification> {
    Sort(ByActivity, rows)
  }

  /** The first page of a listing. */
  function FirstPage(rows: seq<Notification>, limit: nat): Listing {
    var found := Take(limit + 1, Ordered(rows));
    var page := Take(limit, found);
    Listing(page, if |found| > limit && page != [] then Some(page[|page| - 1].id) else None, CountUnread(rows))
  }

  function Put(rows: seq<Notification>, n: Notification): seq<Notification> {
    match FindIndex(HasId(n.id), rows)
    case Some(i) => rows[i := n]
    case None => rows + [n]
  }

  /** The record an upsert leaves behind: a new one, or the existing one unread and active again. */
  function Upserted(rows: seq<Notification>, key: int, payload: string, newId: int, now: int): Notification {
    match FindIndex(HasKey(key), rows)
    case Some(i) => rows[i].(payload := payload, readAt := None, activityAt := now, updatedAt := now)
    case None => Notification(newId, key, payload, None, now, now, now)
  }

  function Upsert(rows: seq<Notification>, key: int, payload: string, newId: int, now: int): seq<Notification> {
    match FindIndex(HasKey(key), rows)
    case Some(i) => rows[i := Upserted(rows, key, payload, newId, now)]
    case None => rows + [Upserted(rows, key, payload, newId, now)]
  }

  datatype MarkOutcome = Marked(record: Notification) | Changed | Missing

  /** With an expected activity the write overwrites; without one an earlier read instant is kept. */
  function MarkOutcomeOf(rows: seq<Notification>, id: int, readAt: int, expected: Option<int>, now: int): MarkOutcome {
    match FindIndex(HasId(id), rows)
    case None => Missing
    case Some(i) =>
      var row := rows[i];
      if expected.Some? then
        if row.activityAt != expected.value then Changed
        else Marked(row.(readAt := Some(readAt), updatedAt := now))
      else Marked(row.(readAt := if row.readAt.Some? then row.readAt else Some(readAt), updatedAt := now))
  }

  function MarkRead(rows: seq<Notification>, id: int, readAt: int, expected: Option<int>, now: int): seq<Notification> {
    match MarkOutcomeOf(rows, id, readAt, expected, now)
    case Marked(record) => Put(rows, record)
    case Changed => rows
    case Missing => rows
  }

  predicate CutOff(n: Notification, cutoff: int) {
    n.readAt.None? && n.activityAt <= cutoff
  }

  function ReadBy(readAt: int, cutoff: int, now: int): Notification -> Notification {
    (n: Notification) => if CutOff(n, cutoff) then n.(readAt := Some(readAt), updatedAt := now) else n
  }

  function MarkAllRead(rows: seq<Notification>, readAt: int, cutoff: int, now: int): seq<Notification> {
    Map(ReadBy(readAt, cutoff, now), rows)
  }

  datatype Operation =
    | UpsertOp(key: int, payload: string, newId: int, now: int)
    | MarkReadOp(id: int, readAt: int, expected: Option<int>, now: int)
    | MarkAllReadOp(readAt: int, cutoff: int, now: int)

  function Apply(rows: seq<Notification>, op: Operation): seq<Notification> {
    match op
    case UpsertOp(key, payload, newId, now) => Upsert(rows, key, payload, newId, now)
    case MarkReadOp(id, readAt, expected, now) => MarkRead(rows, id, readAt, expected, now)
    case MarkAllReadOp(readAt, cutoff, now) => MarkAllRead(rows, readAt, cutoff, now)
  }

  /** The event written to the outbox in the same transaction, if any. */
  function Emitted(rows: seq<Notification>, op: Operation): Option<Event> {
    var unread := CountUnread(Apply(rows, op));
    match op
    case UpsertOp(key, payload, newId, now) => Some(Updated(Upserted(rows, key, payload, newId, now), unread))
    case MarkReadOp(id, readAt, expected, now) =>
      (match MarkOutcomeOf(rows, id, readAt, expected, now)
       case Marked(record) => Some(Updated(record, unread))
       case Changed => None
       case Missing => None)
    case MarkAllReadOp(readAt, cutoff, _) => Some(ReadAll(readAt, cutoff, unread))
  }

  // ---- what the table's operations mean to the recipient ----

  /** An upsert leaves one row per key: the key's is unread and active now, every other is as it was. */
  lemma UpsertMakesUnread(rows: seq<Notification>, key: int, payload: string, newId: int, now: int)
    requires DistinctBy(KeyOf, rows)
    ensures var after := Upsert(rows, key, payload, newId, now);
            && DistinctBy(KeyOf, after)
            && (forall n :: n in after && n.aggregateKey == key ==>
                  n.readAt.None? && n.activityAt == now && n.payload == payload)
            && (exists n :: n in after && n.aggregateKey == key)
            && (forall n: Notification :: n.aggregateKey != key ==> (n in after <==> n in rows))
  {
    var after := Upsert(rows, key, payload, newId, now);
    var at := match FindIndex(HasKey(key), rows) case Some(i) => i case None => |rows|;
    assert after[at].aggregateKey == key && after[at] in after;
    forall i | 0 <= i < |rows| && i != at ensures after[i] == rows[i] && rows[i].aggregateKey != key {
      assert rows[i] in rows;
      if at == |rows| {
        assert !HasKey(key)(rows[i]);
      } else {
        assert if i < at then Differ(KeyOf)(rows[i], rows[at]) else Differ(KeyOf)(rows[at], rows[i]);
        assert KeyOf(rows[i]) != KeyOf(rows[at]);
      }
    }
    forall i, j | 0 <= i < j < |after| ensures Differ(KeyOf)(after[i], after[j]) {
      if i != at && j != at {
        assert Differ(KeyOf)(rows[i], rows[j]);
        assert KeyOf(rows[i]) != KeyOf(rows[j]);
      }
      assert KeyOf(after[i]) != KeyOf(after[j]);
    }
  }

  /** Without an expected activity the first read instant stays; marking never makes a row unread. */
  lemma MarkReadKeepsFirst(rows: seq<Notification>, id: int, first: int, second: int, now: int, later: int)
    requires DistinctBy(IdOf, rows) && MarkOutcomeOf(rows, id, first, None, now).Marked?
    ensures var once := MarkOutcomeOf(rows, id, first, None, now).record;
            var again := MarkOutcomeOf(MarkRead(rows, id, first, None, now), id, second, None, later);
            again.Marked? && again.record.readAt == once.readAt && once.readAt.Some?
  {
    var i := FindIndex(HasId(id), rows).value;
    var once := MarkOutcomeOf(rows, id, first, None, now).record;
    var at := FindIndex(HasId(once.id), rows).value;
    DistinctIndices(IdOf, rows, i, at);
    var after := rows[i := once];
    assert MarkRead(rows, id, first, None, now) == after;
    assert HasId(id)(after[i]) && after[i] in after;
    var k := FindIndex(HasId(id), after).value;
    if k != i { DistinctIndices(IdOf, rows, k, i); }
  }

  function UnreadAfter(cutoff: int): Notification -> int {
    (n: Notification) => if n.readAt.None? && n.activityAt > cutoff then 1 else 0
  }

  /** After a read-all only what became active after the cutoff is unread, and read rows keep their instant. */
  lemma {:induction false} MarkAllReadLeavesNewer(rows: seq<Notification>, readAt: int, cutoff: int, now: int)
    ensures var after := MarkAllRead(rows, readAt, cutoff, now);
            && CountUnread(after) == Sum(UnreadAfter(cutoff), rows)
            && (forall i :: 0 <= i < |rows| && rows[i].readAt.Some? ==> after[i] == rows[i])
  {
    if rows != [] {
      MarkAllReadLeavesNewer(rows[1..], readAt, cutoff, now);
      assert MarkAllRead(rows, readAt, cutoff, now)[1..] == MarkAllRead(rows[1..], readAt, cutoff, now);
    }
  }

  function IsCutOff(cutoff: int): Notification -> int {
    (n: Notification) => if CutOff(n, cutoff) then 1 else 0
  }

  lemma {:induction false} MarkedAreRead(rows: seq<Notification>, cutoff: int)
    ensures CountUnread(rows) == Sum(IsCutOff(cutoff), rows) + Sum(UnreadAfter(cutoff), rows)
  {
    if rows != [] { MarkedAreRead(rows[1..], cutoff); }
  }

  class NotificationTable {
    var rows: seq<Notification>

    constructor ()
      ensures rows == []
    {
      rows := [];
    }

    method UpsertRow(key: int, payload: string, newId: int, now: int) returns (record: Notification, event: Event)
      modifies this
      ensures rows == Apply(old(rows), UpsertOp(key, payload, newId, now))
      ensures record == Upserted(old(rows), key, payload, newId, now)
      ensures Some(event) == Emitted(old(rows), UpsertOp(key, payload, newId, now))
    {
      var existing := FindIndex(HasKey(key), rows);
      if existing.Some? {
        var i := existing.value;
        record := rows[i].(payload := payload, readAt := None, activityAt := now, updatedAt := now);
        rows := rows[i := record];
      } else {
        record := Notification(newId, key, payload, None, now, now, now);
        rows := rows + [record];
      }
      event := Updated(record, CountUnread(rows));
    }

    method MarkReadRow(id: int, readAt: int, expected: Option<int>, now: int)
      returns (outcome: MarkOutcome, event: Option<Event>)
      modifies this
      ensures rows == Apply(old(rows), MarkReadOp(id, readAt, expected, now))
      ensures outcome == MarkOutcomeOf(old(rows), id, readAt, expected, now)
      ensures event == Emitted(old(rows), MarkReadOp(id, readAt, expected, now))
      ensures outcome.Missing? <==> forall n :: n in old(rows) ==> n.id != id
      ensures outcome.Marked? ==> outcome.record in rows && outcome.record.id == id
      ensures outcome.Marked? && expected.Some? ==>
                outcome.record.readAt == Some(readAt) && outcome.record.activityAt == expected.value
      ensures !outcome.Marked? ==> rows == old(rows) && event == None
    {
      var found := FindIndex(HasId(id), rows);
      if found.None? {
        return Missing, None;
      }
      var i := found.value;
      var record := rows[i];
      if expected.Some? {
        if record.activityAt != expected.value {
          return Changed, None;
        }
        record := record.(readAt := Some(readAt), updatedAt := now);
      } else {
        record := record.(readAt := if record.readAt.Some? then record.readAt else Some(readAt), updatedAt := now);
      }
      rows := rows[i := record];
      assert rows[i] == record;
      return Marked(record), Some(Updated(record, CountUnread(rows)));
    }

    /** Marks every row that is unread and was active by the cutoff, and answers how many there were. */
    method MarkAllReadRows(readAt: int, cutoff: int, now: int)
      returns (updatedCount: int, unreadCount: int, event: Event)
      modifies this
      ensures rows == Apply(old(rows), MarkAllReadOp(readAt, cutoff, now))
      ensures Some(event) == Emitted(old(rows), MarkAllReadOp(readAt, cutoff, now))
      ensures updatedCount == CountUnread(old(rows)) - unreadCount && unreadCount == CountUnread(rows)
      ensures unreadCount == Sum(UnreadAfter(cutoff), old(rows))
    {
      MarkAllReadLeavesNewer(rows, readAt, cutoff, now);
      MarkedAreRead(rows, cutoff);
      updatedCount := Sum(IsCutOff(cutoff), rows);
      rows := Map(ReadBy(readAt, cutoff, now), rows);
      unreadCount := CountUnread(rows);
      event := ReadAll(readAt, cutoff, unreadCount);
    }
  }
}

/** The browser's live copy of the first page, kept up to date by events alone. */
module LiveNotifications {
  import opened Outcomes
  import opened Sequences
  import opened NotificationServer

  const LIST_LIMIT: nat := 10

  function ApplyUpdated(s: Listing, n: Notification, unreadCount: int): Listing {
    s.(items := Take(LIST_LIMIT, Ordered(Put(s.items, n))), unreadCount := unreadCount)
  }

  function ReadLocally(readAt: int, cutoff: int): Notification -> Notification {
    (n: Notification) =>
      n.(readAt := if n.readAt.Some? then n.readAt else if n.activityAt <= cutoff then Some(readAt) else None)
  }

  function ApplyReadAll(s: Listing, readAt: int, cutoff: int, unreadCount: int): Listing {
    s.(items := Map(ReadLocally(readAt, cutoff), s.items), unreadCount := unreadCount)
  }

  function ApplyEvent(s: Listing, e: Event): Listing {
    match e
    case Updated(n, unread) => ApplyUpdated(s, n, unread)
    case ReadAll(readAt, cutoff, unread) => ApplyReadAll(s, readAt, cutoff, unread)
  }

  // ---- ordering facts ----

  lemma ActivityOrderIsTotal()
    ensures TotalPreorder(ByActivity)
  {
  }

  ghost predicate UniqueIds(s: seq<Notification>) {
    DistinctBy(IdOf, s)
  }

  lemma OrderedFacts(s: seq<Notification>)
    requires UniqueIds(s)
    ensures var o := Ordered(s);
            && UniqueIds(o) && Sorted(ByActivity, o) && Antisymmetric(ByActivity, o)
            && |o| == |s| && multiset(o) == multiset(s)
  {
    ActivityOrderIsTotal();
    SortSorts(ByActivity, s);
    DistinctPermutation(IdOf, s, Ordered(s));
    SameMembers(s, Ordered(s));
    Distinguished(Ordered(s));
  }

  lemma Distinguished(s: seq<Notification>)
    requires UniqueIds(s)
    ensures Antisymmetric(ByActivity, s)
  {
    forall x, y | x in s && y in s && ByActivity(x, y) && ByActivity(y, x) ensures x == y {
      DistinctMembers(IdOf, s, x, y);
    }
  }

  /** Whatever order the rows are in, they have one listing order. */
  lemma OrderedIs(s: seq<Notification>, o: seq<Notification>)
    requires UniqueIds(s) && multiset(o) == multiset(s) && Sorted(ByActivity, o)
    ensures Ordered(s) == o
  {
    OrderedFacts(s);
    SortedUnique(ByActivity, Ordered(s), o);
  }

  function NotId(id: int): Notification -> bool {
    (n: Notification) => n.id != id
  }

  function Without(s: seq<Notification>, id: int): seq<Notification> {
    Filter(NotId(id), s)
  }

  lemma WithoutAbsent(s: seq<Notification>, id: int)
    requires forall n :: n in s ==> n.id != id
    ensures Without(s, id) == s
  {
    FilterAll(NotId(id), s);
  }

  lemma WithoutPresent(a: seq<Notification>, n: Notification, b: seq<Notification>)
    requires UniqueIds(a + [n] + b)
    ensures Without(a + [n] + b, n.id) == a + b
  {
    DistinctMiddle(IdOf, a, n, b);
    forall x | x in a || x in b ensures x.id != n.id {
      assert IdOf(x) != IdOf(n);
    }
    FilterMiddle(NotId(n.id), a, n, b);
  }

  lemma WithoutPut(s: seq<Notification>, n: Notification)
    requires UniqueIds(s)
    ensures multiset(Put(s, n)) == multiset(Without(s, n.id) + [n])
  {
    match FindIndex(HasId(n.id), s)
    case Some(i) =>
      var a, b := s[..i], s[i + 1..];
      assert s == a + [s[i]] + b;
      WithoutPresent(a, s[i], b);
      assert s[i := n] == a + [n] + b;
      assert multiset(a + [n] + b) == multiset(a + b + [n]);
    case None =>
      forall x | x in s ensures x.id != n.id {
        assert !HasId(n.id)(x);
      }
      WithoutAbsent(s, n.id);
  }

  lemma WithoutUnique(s: seq<Notification>, n: Notification)
    requires UniqueIds(s)
    ensures UniqueIds(Without(s, n.id) + [n])
  {
    var w := Without(s, n.id);
    FilterSorted(NotId(n.id), Differ(IdOf), s);
    forall i, j | 0 <= i < j < |w + [n]| ensures Differ(IdOf)((w + [n])[i], (w + [n])[j]) {
      if j < |w| {
        assert Differ(IdOf)(w[i], w[j]);
      } else {
        assert w[i] in w && NotId(n.id)(w[i]);
        assert IdOf(w[i]) != IdOf(n);
      }
      assert IdOf((w + [n])[i]) != IdOf((w + [n])[j]);
    }
  }

  lemma PutUnique(s: seq<Notification>, n: Notification)
    requires UniqueIds(s)
    ensures UniqueIds(Put(s, n))
  {
    WithoutUnique(s, n);
    WithoutPut(s, n);
    DistinctPermutation(IdOf, Without(s, n.id) + [n], Put(s, n));
  }

  lemma PutMembers(s: seq<Notification>, o: seq<Notification>, n: Notification)
    requires UniqueIds(s) && multiset(o) == multiset(s)
    ensures multiset(Insert(ByActivity, n, Without(o, n.id))) == multiset(Put(s, n))
  {
    WithoutPut(s, n);
    FilterPermutation(NotId(n.id), s, o);
    InsertMembers(ByActivity, n, Without(o, n.id));
  }

  /** Putting a notification into an ordered list re-inserts it at its place. */
  lemma PutReinserts(s: seq<Notification>, o: seq<Notification>, n: Notification)
    requires UniqueIds(s) && multiset(o) == multiset(s) && Sorted(ByActivity, o)
    ensures Ordered(Put(s, n)) == Insert(ByActivity, n, Without(o, n.id))
  {
    PutUnique(s, n);
    var w := Without(o, n.id);
    FilterSorted(NotId(n.id), ByActivity, o);
    ActivityOrderIsTotal();
    InsertKeepsSorted(ByActivity, n, w);
    PutMembers(s, o, n);
    OrderedIs(Put(s, n), Insert(ByActivity, n, w));
  }

  /** Inserting below the head of `t` goes past it. */
  lemma InsertBelow(s: seq<Notification>, t: seq<Notification>, n: Notification)
    requires t != [] && Sorted(ByActivity, s + t) && !ByActivity(n, t[0])
    ensures Insert(ByActivity, n, s) == s + [n]
    ensures s + [t[0]] <= Insert(ByActivity, n, s + t)
  {
    var all := s + t;
    forall i | 0 <= i <= |s| ensures !ByActivity(n, all[i]) {
      assert all[|s|] == t[0];
      assert i < |s| ==> ByActivity(all[i], all[|s|]);
    }
    assert forall i :: 0 <= i < |s| ==> s[i] == all[i];
    InsertAt(ByActivity, n, s, |s|);
    var p := Place(ByActivity, n, all);
    InsertAt(ByActivity, n, all, p);
    assert p > |s|;
    assert all[..|s| + 1] == s + [t[0]];
    assert all[..|s| + 1] <= all[..p];
  }
}
