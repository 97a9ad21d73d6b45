/** The notification calls column by column: what each one leaves in the rows, answers and emits. */
module NotificationRows {
  import opened Outcomes
  import opened Sequences
  import opened NotificationServer
  import opened LiveNotifications

  // ---- counting ----

  /** Where the unread rows are. */
  function UnreadAt(rows: seq<Notification>): set<nat> {
    set i: nat | i < |rows| && rows[i].readAt == None
  }

  lemma {:induction false} CountUnreadCounts(rows: seq<Notification>)
    ensures CountUnread(rows) == |UnreadAt(rows)|
  {
    if rows != [] {
      var n := |rows| - 1;
      CountUnreadCounts(rows[..n]);
      assert rows == rows[..n] + [rows[n]];
      SumConcat(IsUnread, rows[..n], [rows[n]]);
      var at := if rows[n].readAt == None then {n} else {};
      assert UnreadAt(rows) == UnreadAt(rows[..n]) + at;
    }
  }

  lemma Overwritten(rows: seq<Notification>, i: nat, row: Notification)
    requires i < |rows|
    ensures |UnreadAt(rows[i := row])|
         == |UnreadAt(rows)| - (if rows[i].readAt == None then 1 else 0) + (if row.readAt == None then 1 else 0)
  {
    var others := UnreadAt(rows) - {i};
    assert UnreadAt(rows) == others + (if rows[i].readAt == None then {i} else {});
    assert UnreadAt(rows[i := row]) == others + (if row.readAt == None then {i} else {});
  }

  lemma Appended(rows: seq<Notification>, row: Notification)
    requires row.readAt == None
    ensures |UnreadAt(rows + [row])| == |UnreadAt(rows)| + 1
  {
    var all, was := rows + [row], UnreadAt(rows);
    forall i: nat ensures i in UnreadAt(all) <==> i in was + {|rows|} {
      if i < |rows| { assert all[i] == rows[i]; }
    }
    assert UnreadAt(all) == was + {|rows|};
  }

  lemma FoundById(rows: seq<Notification>, i: nat)
    requires i < |rows| && forall j, k :: 0 <= j < k < |rows| ==> rows[j].id != rows[k].id
    ensures FindIndex(HasId(rows[i].id), rows) == Some(i)
  {
    assert HasId(rows[i].id)(rows[i]) && rows[i] in rows;
  }

  // ---- marking one notification read ----

  /** Marking the activity the caller saw stores the read instant, whether or not the row was read before. */
  lemma MarkReadExpected(rows: seq<Notification>, i: nat, readAt: int, now: int)
    requires i < |rows| && forall j, k :: 0 <= j < k < |rows| ==> rows[j].id != rows[k].id
    ensures var op := MarkReadOp(rows[i].id, readAt, Some(rows[i].activityAt), now);
            var row := rows[i].(readAt := Some(readAt), updatedAt := now);
            var unread := |UnreadAt(rows)| - if rows[i].readAt == None then 1 else 0;
            && MarkOutcomeOf(rows, rows[i].id, readAt, Some(rows[i].activityAt), now) == Marked(row)
            && Apply(rows, op) == rows[i := row] && |UnreadAt(Apply(rows, op))| == unread
            && Emitted(rows, op) == Some(Updated(row, unread))
  {
    FoundById(rows, i);
    Overwritten(rows, i, rows[i].(readAt := Some(readAt), updatedAt := now));
    CountUnreadCounts(rows[i := rows[i].(readAt := Some(readAt), updatedAt := now)]);
  }

  /** When there has been activity since, the caller is told so and nothing is written. */
  lemma MarkReadOvertaken(rows: seq<Notification>, i: nat, readAt: int, expected: int, now: int)
    requires i < |rows| && forall j, k :: 0 <= j < k < |rows| ==> rows[j].id != rows[k].id
    requires rows[i].activityAt != expected
    ensures var op := MarkReadOp(rows[i].id, readAt, Some(expected), now);
            && MarkOutcomeOf(rows, rows[i].id, readAt, Some(expected), now) == Changed
            && Apply(rows, op) == rows && Emitted(rows, op) == None
  {
    FoundById(rows, i);
  }

  /** Without an expected activity an unread row gets the instant and a read one keeps its own. */
  lemma MarkReadUnconditional(rows: seq<Notification>, i: nat, readAt: int, now: int)
    requires i < |rows| && forall j, k :: 0 <= j < k < |rows| ==> rows[j].id != rows[k].id
    ensures var op := MarkReadOp(rows[i].id, readAt, None, now);
            var kept := if rows[i].readAt == None then Some(readAt) else rows[i].readAt;
            var row := rows[i].(readAt := kept, updatedAt := now);
            var unread := |UnreadAt(rows)| - if rows[i].readAt == None then 1 else 0;
            && MarkOutcomeOf(rows, rows[i].id, readAt, None, now) == Marked(row)
            && Apply(rows, op) == rows[i := row] && |UnreadAt(Apply(rows, op))| == unread
            && Emitted(rows, op) == Some(Updated(row, unread))
  {
    var row := rows[i].(readAt := if rows[i].readAt == None then Some(readAt) else rows[i].readAt, updatedAt := now);
    FoundById(rows, i);
    Overwritten(rows, i, row);
    CountUnreadCounts(rows[i := row]);
  }

  lemma MarkReadMissing(rows: seq<Notification>, id: int, readAt: int, expected: Option<int>, now: int)
    requires forall n :: n in rows ==> n.id != id
    ensures var op := MarkReadOp(id, readAt, expected, now);
            && MarkOutcomeOf(rows, id, readAt, expected, now) == Missing
            && Apply(rows, op) == rows && Emitted(rows, op) == None
  {
  }

  // ---- upserts and reading all ----

  lemma UpsertRefreshes(rows: seq<Notification>, i: nat, payload: string, newId: int, now: int)
    requires i < |rows| && forall j, k :: 0 <= j < k < |rows| ==> rows[j].aggregateKey != rows[k].aggregateKey
    ensures var op := UpsertOp(rows[i].aggregateKey, payload, newId, now);
            var row := rows[i].(payload := payload, readAt := None, activityAt := now, updatedAt := now);
            var unread := |UnreadAt(rows)| + if rows[i].readAt == None then 0 else 1;
            && Apply(rows, op) == rows[i := row] && |UnreadAt(Apply(rows, op))| == unread
            && Emitted(rows, op) == Some(Updated(row, unread))
  {
    var row := rows[i].(payload := payload, readAt := None, activityAt := now, updatedAt := now);
    assert HasKey(rows[i].aggregateKey)(rows[i]) && rows[i] in rows;
    Overwritten(rows, i, row);
    CountUnreadCounts(rows[i := row]);
  }

  lemma UpsertAdds(rows: seq<Notification>, key: int, payload: string, newId: int, now: int)
    requires forall n :: n in rows ==> n.aggregateKey != key
    ensures var op := UpsertOp(key, payload, newId, now);
            var row := Notification(newId, key, payload, None, now, now, now);
            && Apply(rows, op) == rows + [row] && |UnreadAt(Apply(rows, op))| == |UnreadAt(rows)| + 1
            && Emitted(rows, op) == Some(Updated(row, |UnreadAt(rows)| + 1))
  {
    Appended(rows, Notification(newId, key, payload, None, now, now, now));
    CountUnreadCounts(rows + [Notification(newId, key, payload, None, now, now, now)]);
  }

  /** Exactly the unread rows active by the cutoff get the read instant; the event carries how many are left. */
  lemma MarkAllReadMarks(rows: seq<Notification>, readAt: int, cutoff: int, now: int)
    ensures var op := MarkAllReadOp(readAt, cutoff, now);
            var after := Apply(rows, op);
            && |after| == |rows|
            && (forall i :: 0 <= i < |rows| ==>
                  after[i] == if rows[i].readAt == None && rows[i].activityAt <= cutoff then
                                rows[i].(readAt := Some(readAt), updatedAt := now)
                              else rows[i])
            && Emitted(rows, op) == Some(ReadAll(readAt, cutoff, |UnreadAt(after)|))
            && UnreadAt(after) == set i: nat | i < |rows| && rows[i].readAt == None && rows[i].activityAt > cutoff
  {
    CountUnreadCounts(MarkAllRead(rows, readAt, cutoff, now));
  }

  // ---- listings ----

  /** Newest activity first, and among equals the greatest id. */
  ghost predicate NewestFirst(s: seq<Notification>) {
    forall i, j :: 0 <= i < j < |s| ==>
      s[i].activityAt > s[j].activityAt || (s[i].activityAt == s[j].activityAt && s[i].id > s[j].id)
  }

  lemma OrderedIsNewestFirst(rows: seq<Notification>)
    requires UniqueIds(rows)
    ensures NewestFirst(Ordered(rows))
  {
    OrderedFacts(rows);
    var o := Ordered(rows);
    forall i, j | 0 <= i < j < |o|
      ensures o[i].activityAt > o[j].activityAt || (o[i].activityAt == o[j].activityAt && o[i].id > o[j].id)
    {
      assert ByActivity(o[i], o[j]) && Differ(IdOf)(o[i], o[j]);
      assert IdOf(o[i]) != IdOf(o[j]);
    }
  }

  /**
   * The first page is where the newest-first arrangement of the rows starts, as long as the limit allows; it
   * offers its last id as cursor exactly when rows are left over, and counts the unread rows of them all.
   */
  lemma FirstPageIs(rows: seq<Notification>, sorted: seq<Notification>, limit: nat)
    requires forall i, j :: 0 <= i < j < |rows| ==> rows[i].id != rows[j].id
    requires multiset(sorted) == multiset(rows) && |sorted| == |rows| && NewestFirst(sorted)
    ensures var page := FirstPage(rows, limit);
            && page.items == sorted[..if limit <= |rows| then limit else |rows|]
            && page.nextCursor == (if 0 < limit < |rows| then Some(sorted[limit - 1].id) else None)
            && page.unreadCount == |UnreadAt(rows)|
  {
    DistinctIds(rows);
    OrderedIs(rows, sorted);
    SameMembers(rows, sorted);
    CountUnreadCounts(rows);
  }

  // ---- the browser ----

  lemma {:induction false} Once(s: seq<Notification>, x: Notification)
    requires UniqueIds(s)
    ensures multiset(s)[x] == if x in s then 1 else 0
  {
    if s != [] {
      Once(s[1..], x);
      assert s == [s[0]] + s[1..];
      if x == s[0] && x in s[1..] {
        var j :| 0 <= j < |s[1..]| && s[1..][j] == x;
        DistinctIndices(IdOf, s, 0, j + 1);
      }
    }
  }

  lemma SameOnce(a: seq<Notification>, b: seq<Notification>)
    requires UniqueIds(a) && UniqueIds(b) && forall x :: x in a <==> x in b
    ensures multiset(a) == multiset(b)
  {
    forall x ensures multiset(a)[x] == multiset(b)[x] {
      Once(a, x);
      Once(b, x);
    }
  }

  /**
   * An update leaves the ten newest of the listed notifications with this one in place of its older self;
   * the count is the event's, and the cursor stays what it was.
   */
  lemma ApplyUpdatedIs(s: Listing, n: Notification, unreadCount: int, sorted: seq<Notification>)
    requires forall i, j :: 0 <= i < j < |s.items| ==> s.items[i].id != s.items[j].id
    requires NewestFirst(sorted) && forall i, j :: 0 <= i < j < |sorted| ==> sorted[i].id != sorted[j].id
    requires forall x :: x in sorted <==> x == n || (x in s.items && x.id != n.id)
    ensures ApplyEvent(s, Updated(n, unreadCount))
         == Listing(if |sorted| <= 10 then sorted else sorted[..10], s.nextCursor, unreadCount)
  {
    DistinctIds(s.items);
    DistinctIds(sorted);
    WithoutUnique(s.items, n);
    WithoutPut(s.items, n);
    PutUnique(s.items, n);
    var w := Without(s.items, n.id);
    forall x ensures x in sorted <==> x in w + [n] {
      assert x in w <==> x in s.items && NotId(n.id)(x);
    }
    SameOnce(sorted, w + [n]);
    assert Sorted(ByActivity, sorted);
    OrderedIs(Put(s.items, n), sorted);
  }

  lemma DistinctIds(s: seq<Notification>)
    requires forall i, j :: 0 <= i < j < |s| ==> s[i].id != s[j].id
    ensures UniqueIds(s)
  {
    forall i, j | 0 <= i < j < |s| ensures Differ(IdOf)(s[i], s[j]) {
      assert IdOf(s[i]) != IdOf(s[j]);
    }
  }

  /** Reading all marks the listed unread notifications active by the cutoff and touches no others. */
  lemma ApplyReadAllIs(s: Listing, readAt: int, cutoff: int, unreadCount: int)
    ensures var after := ApplyEvent(s, ReadAll(readAt, cutoff, unreadCount));
            && |after.items| == |s.items| && after.unreadCount == unreadCount && after.nextCursor == s.nextCursor
            && forall i :: 0 <= i < |s.items| ==>
                 after.items[i] == if s.items[i].readAt == None && s.items[i].activityAt <= cutoff then
                                     s.items[i].(readAt := Some(readAt))
                                   else s.items[i]
  {
    var after := ApplyEvent(s, ReadAll(readAt, cutoff, unreadCount));
    forall i | 0 <= i < |s.items| ensures after.items[i] == ReadLocally(readAt, cutoff)(s.items[i]) {
    }
  }
}
