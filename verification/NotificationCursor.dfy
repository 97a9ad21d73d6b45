/** Events do not carry the paging cursor; when the one the browser has stays right all the same. */
module NotificationCursor {
  import opened Outcomes
  import opened Sequences
  import opened NotificationServer
  import opened LiveNotifications
  import opened NotificationMirror

  const LAST := LIST_LIMIT - 1

  /** The id of the last listed notification, when there are more to list. */
  function Cursor(rows: seq<Notification>): Option<int> {
    FirstPage(rows, LIST_LIMIT).nextCursor
  }

  lemma CursorIs(rows: seq<Notification>)
    ensures Cursor(rows) == if |Ordered(rows)| > LIST_LIMIT then Some(Ordered(rows)[LAST].id) else None
  {
  }

  /**
   * Putting this notification leaves everything listed on one page, or leaves the same one last listed: a
   * new one comes in below it, one listed above it stays above, one below stays below, and the last listed
   * itself stays between its neighbours.
   */
  predicate LastStays(rows: seq<Notification>, n: Notification) {
    var o := Ordered(rows);
    match FindIndex(HasId(n.id), o)
    case None => |o| < LIST_LIMIT || (|o| > LIST_LIMIT && !ByActivity(n, o[LAST]))
    case Some(k) =>
      || |o| <= LIST_LIMIT
      || (if k < LAST then ByActivity(n, o[LAST])
          else if k == LAST then !ByActivity(n, o[LAST - 1]) && ByActivity(n, o[LIST_LIMIT])
          else !ByActivity(n, o[LAST]))
  }

  /** What stands last on the page after an insertion into a sorted list. */
  lemma LastAfterInsert(w: seq<Notification>, n: Notification)
    requires |w| >= LIST_LIMIT && Sorted(ByActivity, w)
    ensures |Insert(ByActivity, n, w)| == |w| + 1
    ensures Insert(ByActivity, n, w)[LAST] ==
              if ByActivity(n, w[LAST - 1]) then w[LAST - 1] else if ByActivity(n, w[LAST]) then n else w[LAST]
  {
    var p := Place(ByActivity, n, w);
    InsertAt(ByActivity, n, w, p);
    if p < LAST {
      assert ByActivity(w[p], w[LAST - 1]) || p == LAST - 1;
    } else if p > LAST {
      assert !ByActivity(n, w[LAST]);
    }
  }

  lemma AbsentWithout(o: seq<Notification>, n: Notification)
    requires FindIndex(HasId(n.id), o).None?
    ensures Without(o, n.id) == o
  {
    forall x | x in o ensures x.id != n.id {
      assert !HasId(n.id)(x);
    }
    WithoutAbsent(o, n.id);
  }

  lemma PresentWithout(o: seq<Notification>, n: Notification, k: nat)
    requires UniqueIds(o) && FindIndex(HasId(n.id), o) == Some(k)
    ensures Without(o, n.id) == o[..k] + o[k + 1..]
    ensures forall j :: 0 <= j < |o| && j != k ==> o[j].id != n.id
  {
    OthersDiffer(o, k);
    WithoutIndex(o, k);
  }

  lemma PutLength(rows: seq<Notification>, n: Notification)
    requires UniqueIds(rows)
    ensures var o := Ordered(rows);
            |Ordered(Put(rows, n))| == |o| + if FindIndex(HasId(n.id), o).None? then 1 else 0
  {
    var o := Ordered(rows);
    OrderedFacts(rows);
    PutReinserts(rows, o, n);
    InsertMembers(ByActivity, n, Without(o, n.id));
    match FindIndex(HasId(n.id), o)
    case None => AbsentWithout(o, n);
    case Some(k) => PresentWithout(o, n, k);
  }

  lemma LastIdOfNew(o: seq<Notification>, n: Notification)
    requires Sorted(ByActivity, o) && |o| > LIST_LIMIT && FindIndex(HasId(n.id), o).None?
    requires UniqueIds(o)
    ensures |Insert(ByActivity, n, Without(o, n.id))| > LAST
    ensures Insert(ByActivity, n, Without(o, n.id))[LAST].id == o[LAST].id <==> !ByActivity(n, o[LAST])
  {
    AbsentWithout(o, n);
    assert o[LAST] in o && !HasId(n.id)(o[LAST]);
    OthersDiffer(o, LAST);
    LastAfterInsert(o, n);
    assert ByActivity(o[LAST - 1], o[LAST]);
  }

  lemma LastIdOfMoved(o: seq<Notification>, n: Notification, k: nat)
    requires UniqueIds(o) && Sorted(ByActivity, o) && |o| > LIST_LIMIT && FindIndex(HasId(n.id), o) == Some(k)
    ensures |Insert(ByActivity, n, Without(o, n.id))| > LAST
    ensures Insert(ByActivity, n, Without(o, n.id))[LAST].id == o[LAST].id <==>
              if k < LAST then ByActivity(n, o[LAST])
              else if k == LAST then !ByActivity(n, o[LAST - 1]) && ByActivity(n, o[LIST_LIMIT])
              else !ByActivity(n, o[LAST])
  {
    MovedRest(o, n, k);
    LastAfterInsert(Without(o, n.id), n);
  }

  /** Who stands around the last place once the moved notification is taken out. */
  lemma MovedRest(o: seq<Notification>, n: Notification, k: nat)
    requires UniqueIds(o) && Sorted(ByActivity, o) && |o| > LIST_LIMIT && FindIndex(HasId(n.id), o) == Some(k)
    ensures var w := Without(o, n.id);
            && Sorted(ByActivity, w) && |w| == |o| - 1
            && w[LAST - 1] == (if k < LAST then o[LAST] else o[LAST - 1])
            && w[LAST] == (if k <= LAST then o[LIST_LIMIT] else o[LAST])
    ensures o[LAST - 1].id != o[LAST].id && o[LIST_LIMIT].id != o[LAST].id && ByActivity(o[LAST - 1], o[LAST])
    ensures n.id == o[LAST].id <==> k == LAST
  {
    FilterSorted(NotId(n.id), ByActivity, o);
    PresentWithout(o, n, k);
    OthersDiffer(o, LAST);
  }

  /** The server's cursor is the same after a change if and only if its last listed notification stays last. */
  lemma PutCursorIff(rows: seq<Notification>, n: Notification)
    requires UniqueIds(rows)
    ensures Cursor(Put(rows, n)) == Cursor(rows) <==> LastStays(rows, n)
  {
    var o := Ordered(rows);
    OrderedFacts(rows);
    PutReinserts(rows, o, n);
    PutLength(rows, n);
    CursorIs(rows);
    CursorIs(Put(rows, n));
    if |o| > LIST_LIMIT {
      match FindIndex(HasId(n.id), o)
      case None => LastIdOfNew(o, n);
      case Some(k) => LastIdOfMoved(o, n, k);
    }
  }

  // ---- each kind of event ----

  predicate CursorStays(rows: seq<Notification>, op: Operation) {
    op.UpsertOp? ==> LastStays(rows, Upserted(rows, op.key, op.payload, op.newId, op.now))
  }

  lemma MarkReadLastStays(rows: seq<Notification>, id: int, readAt: int, expected: Option<int>, now: int)
    requires UniqueIds(rows) && MarkOutcomeOf(rows, id, readAt, expected, now).Marked?
    ensures LastStays(rows, MarkOutcomeOf(rows, id, readAt, expected, now).record)
  {
    var n := MarkOutcomeOf(rows, id, readAt, expected, now).record;
    var row := rows[FindIndex(HasId(id), rows).value];
    var o := Ordered(rows);
    OrderedFacts(rows);
    SameMembers(rows, o);
    assert row in o && HasId(n.id)(row);
    var k := FindIndex(HasId(n.id), o).value;
    DistinctMembers(IdOf, o, o[k], row);
    if |o| > LIST_LIMIT {
      SamePlaceStays(o, n, k);
    }
  }

  lemma SamePlaceStays(o: seq<Notification>, n: Notification, k: nat)
    requires UniqueIds(o) && Sorted(ByActivity, o) && |o| > LIST_LIMIT && k < |o|
    requires n.id == o[k].id && n.activityAt == o[k].activityAt
    ensures k < LAST ==> ByActivity(n, o[LAST])
    ensures k == LAST ==> !ByActivity(n, o[LAST - 1]) && ByActivity(n, o[LIST_LIMIT])
    ensures k > LAST ==> !ByActivity(n, o[LAST])
  {
    OthersDiffer(o, k);
    assert k < LAST ==> ByActivity(o[k], o[LAST]);
    assert k > LAST ==> ByActivity(o[LAST], o[k]);
    assert ByActivity(o[LAST - 1], o[LAST]) && ByActivity(o[LAST], o[LIST_LIMIT]);
  }

  lemma {:induction false} MapKeepsLast(f: Notification -> Notification, rows: seq<Notification>)
    requires forall n :: f(n).id == n.id && f(n).activityAt == n.activityAt
    ensures Cursor(Map(f, rows)) == Cursor(rows)
  {
    MapKeepsOrder(f, rows);
    CursorIs(rows);
    CursorIs(Map(f, rows));
  }

  /**
   * A live list whose cursor is right still has the right one after an event if and only if the change
   * leaves the server's last listed notification last. Read marks and read-alls always do; an upsert may not.
   */
  lemma CursorStaysRightIff(s: Listing, rows: seq<Notification>, op: Operation)
    requires UniqueIds(rows) && Orderly(rows, op) && s.nextCursor == Cursor(rows)
    ensures Receive(s, Emitted(rows, op)).nextCursor == Cursor(Apply(rows, op)) <==> CursorStays(rows, op)
  {
    match op
    case UpsertOp(key, payload, newId, now) =>
      UpsertIsPut(rows, key, payload, newId, now);
      PutCursorIff(rows, Upserted(rows, key, payload, newId, now));
    case MarkReadOp(id, readAt, expected, now) =>
      if MarkOutcomeOf(rows, id, readAt, expected, now).Marked? {
        MarkReadLastStays(rows, id, readAt, expected, now);
        PutCursorIff(rows, MarkOutcomeOf(rows, id, readAt, expected, now).record);
      }
    case MarkAllReadOp(readAt, cutoff, now) =>
      MapKeepsLast(ReadBy(readAt, cutoff, now), rows);
  }

  /**
   * What that comes to when nothing was active later than now: the cursor goes stale exactly when an upsert
   * lifts a notification into a full page from its last place or from below, or brings in an eleventh.
   */
  lemma LatestActivityCursorIff(rows: seq<Notification>, key: int, payload: string, newId: int, now: int)
    requires UniqueIds(rows) && Orderly(rows, UpsertOp(key, payload, newId, now))
    requires forall n :: n in rows ==> n.activityAt < now
    ensures var o := Ordered(rows);
            CursorStays(rows, UpsertOp(key, payload, newId, now)) <==>
              match FindIndex(HasKey(key), rows)
              case None => |rows| < LIST_LIMIT
              case Some(i) => |rows| <= LIST_LIMIT || rows[i] in Take(LAST, o)
  {
    var o := Ordered(rows);
    var n := Upserted(rows, key, payload, newId, now);
    OrderedFacts(rows);
    SameMembers(rows, o);
    forall x | x in o ensures ByActivity(n, x) {
      assert x in rows;
    }
    LiftedLastStays(rows, n);
    match FindIndex(HasKey(key), rows)
    case None => ToTheTop(o, n);
    case Some(i) => LiftedStays(o, rows[i], n);
  }

  lemma LiftedLastStays(rows: seq<Notification>, n: Notification)
    requires forall x :: x in Ordered(rows) ==> ByActivity(n, x)
    ensures LastStays(rows, n) <==>
              match FindIndex(HasId(n.id), Ordered(rows))
              case None => |Ordered(rows)| < LIST_LIMIT
              case Some(k) => |Ordered(rows)| <= LIST_LIMIT || k < LAST
  {
    var o := Ordered(rows);
    if |o| > LIST_LIMIT {
      assert o[LAST - 1] in o && o[LAST] in o && o[LIST_LIMIT] in o;
    }
  }

  lemma ToTheTop(o: seq<Notification>, n: Notification)
    requires forall x :: x in o ==> x.id != n.id
    ensures FindIndex(HasId(n.id), o).None?
  {
    assert forall x :: x in o ==> !HasId(n.id)(x);
  }

  /** A notification that goes to the top leaves the last place alone exactly when it was above it. */
  lemma LiftedStays(o: seq<Notification>, row: Notification, n: Notification)
    requires UniqueIds(o) && row in o && n.id == row.id
    ensures FindIndex(HasId(n.id), o).Some?
    ensures FindIndex(HasId(n.id), o).value < LAST <==> row in Take(LAST, o)
  {
    assert HasId(n.id)(row);
    var k := FindIndex(HasId(n.id), o).value;
    DistinctMembers(IdOf, o, o[k], row);
    ListedAt(o, k);
  }

  lemma ListedAt(o: seq<Notification>, k: nat)
    requires UniqueIds(o) && k < |o|
    ensures o[k] in Take(LAST, o) <==> k < LAST
  {
    if k < LAST {
      assert Take(LAST, o)[k] == o[k];
    } else if j: nat :| j < |Take(LAST, o)| && Take(LAST, o)[j] == o[k] {
      DistinctIndices(IdOf, o, j, k);
    }
  }
}
