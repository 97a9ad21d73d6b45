/** The browser's list refines the server's: events alone keep it equal to the first page. */
module NotificationMirror {
  import opened Outcomes
  import opened Sequences
  import opened NotificationServer
  import opened LiveNotifications

  /** What both sides agree on: every field but the storage layer's own update stamp. */
  function Seen(n: Notification): Notification {
    n.(updatedAt := 0)
  }

  ghost predicate Agree(a: seq<Notification>, b: seq<Notification>) {
    |a| == |b| && forall i :: 0 <= i < |a| ==> Seen(a[i]) == Seen(b[i])
  }

  /** The live list shows what a fresh listing would: same notifications, order, read flags and count. */
  ghost predicate Mirrors(s: Listing, rows: seq<Notification>) {
    var page := FirstPage(rows, LIST_LIMIT);
    Agree(s.items, page.items) && s.unreadCount == page.unreadCount
  }

  lemma FirstPageItems(rows: seq<Notification>)
    ensures FirstPage(rows, LIST_LIMIT).items == Take(LIST_LIMIT, Ordered(rows))
  {
  }

  // ---- the top of the list after one notification moved ----

  /** The moved notification was not listed, or everything is listed, or it stays above the first unlisted one. */
  predicate StaysListed(rows: seq<Notification>, n: Notification) {
    var o := Ordered(rows);
    || |o| <= LIST_LIMIT
    || (forall i :: 0 <= i < LIST_LIMIT ==> o[i].id != n.id)
    || ByActivity(n, o[LIST_LIMIT])
  }

  function Top(rows: seq<Notification>): seq<Notification> {
    Take(LIST_LIMIT, Ordered(rows))
  }

  lemma TopFacts(rows: seq<Notification>)
    requires UniqueIds(rows)
    ensures UniqueIds(Top(rows)) && Sorted(ByActivity, Top(rows))
  {
    OrderedFacts(rows);
    var o, t := Ordered(rows), Top(rows);
    forall i, j | 0 <= i < j < |t| ensures Differ(IdOf)(t[i], t[j]) && ByActivity(t[i], t[j]) {
      assert Differ(IdOf)(o[i], o[j]);
    }
  }

  lemma InsertIntoPrefix(t: seq<Notification>, u: seq<Notification>, n: Notification)
    ensures Take(|t|, Insert(ByActivity, n, t + u)) == Take(|t|, Insert(ByActivity, n, t))
  {
    assert Take(|t|, t + u) == t;
    InsertTake(ByActivity, n, t + u, |t|);
  }

  lemma UnlistedRest(o: seq<Notification>, n: Notification)
    requires |o| > LIST_LIMIT && forall x :: x in o[..LIST_LIMIT] ==> x.id != n.id
    ensures Without(o, n.id) == o[..LIST_LIMIT] + Without(o[LIST_LIMIT..], n.id)
  {
    assert o == o[..LIST_LIMIT] + o[LIST_LIMIT..];
    FilterConcat(NotId(n.id), o[..LIST_LIMIT], o[LIST_LIMIT..]);
    WithoutAbsent(o[..LIST_LIMIT], n.id);
  }

  lemma TopUnlisted(rows: seq<Notification>, n: Notification)
    requires UniqueIds(rows) && |Ordered(rows)| > LIST_LIMIT
    requires forall x :: x in Top(rows) ==> x.id != n.id
    ensures Top(Put(Top(rows), n)) == Top(Put(rows, n))
  {
    var o, t := Ordered(rows), Top(rows);
    OrderedFacts(rows);
    TopFacts(rows);
    PutReinserts(rows, o, n);
    PutReinserts(t, t, n);
    UnlistedRest(o, n);
    WithoutAbsent(t, n.id);
    InsertIntoPrefix(t, Without(o[LIST_LIMIT..], n.id), n);
  }

  lemma OthersDiffer(s: seq<Notification>, i: nat)
    requires UniqueIds(s) && i < |s|
    ensures forall j :: 0 <= j < |s| && j != i ==> s[j].id != s[i].id
  {
    forall j | 0 <= j < |s| && j != i ensures s[j].id != s[i].id {
      if s[j].id == s[i].id {
        DistinctIndices(IdOf, s, i, j);
      }
    }
  }

  lemma WithoutIndex(s: seq<Notification>, i: nat)
    requires i < |s| && forall j :: 0 <= j < |s| && j != i ==> s[j].id != s[i].id
    ensures Without(s, s[i].id) == s[..i] + s[i + 1..]
  {
    assert s == s[..i] + [s[i]] + s[i + 1..];
    FilterMiddle(NotId(s[i].id), s[..i], s[i], s[i + 1..]);
  }

  /** With a listed notification taken out, the list is the other nine and then the unlisted ones. */
  lemma ListedRest(o: seq<Notification>, i: nat)
    requires UniqueIds(o) && |o| > LIST_LIMIT && i < LIST_LIMIT
    ensures |Without(o[..LIST_LIMIT], o[i].id)| == LIST_LIMIT - 1
    ensures Without(o, o[i].id) == Without(o[..LIST_LIMIT], o[i].id) + o[LIST_LIMIT..]
    ensures o[LIST_LIMIT].id != o[i].id
  {
    OthersDiffer(o, i);
    WithoutIndex(o, i);
    WithoutIndex(o[..LIST_LIMIT], i);
  }

  lemma TopListed(rows: seq<Notification>, n: Notification, i: nat)
    requires UniqueIds(rows) && |Ordered(rows)| > LIST_LIMIT && i < LIST_LIMIT && Ordered(rows)[i].id == n.id
    ensures ByActivity(n, Ordered(rows)[LIST_LIMIT]) ==> Top(Put(Top(rows), n)) == Top(Put(rows, n))
    ensures !ByActivity(n, Ordered(rows)[LIST_LIMIT]) ==> !Agree(Top(Put(Top(rows), n)), Top(Put(rows, n)))
  {
    var o, t := Ordered(rows), Top(rows);
    OrderedFacts(rows);
    TopFacts(rows);
    PutReinserts(rows, o, n);
    PutReinserts(t, t, n);
    ListedRest(o, i);
    FilterSorted(NotId(n.id), ByActivity, o);
    InsertIntoNine(Without(t, n.id), o[LIST_LIMIT..], n);
  }

  /** Nine listed notifications, the unlisted ones after them, and one to be placed among them. */
  lemma InsertIntoNine(others: seq<Notification>, unlisted: seq<Notification>, n: Notification)
    requires |others| == LIST_LIMIT - 1 && unlisted != [] && unlisted[0].id != n.id
    requires Sorted(ByActivity, others + unlisted)
    ensures var mine := Take(LIST_LIMIT, Insert(ByActivity, n, others));
            var theirs := Take(LIST_LIMIT, Insert(ByActivity, n, others + unlisted));
            if ByActivity(n, unlisted[0]) then mine == theirs else !Agree(mine, theirs)
  {
    InsertMembers(ByActivity, n, others);
    var mine := Take(LIST_LIMIT, Insert(ByActivity, n, others));
    var theirs := Take(LIST_LIMIT, Insert(ByActivity, n, others + unlisted));
    if ByActivity(n, unlisted[0]) {
      InsertAbove(ByActivity, n, others, unlisted);
    } else {
      InsertBelow(others, unlisted, n);
      assert mine[LIST_LIMIT - 1] == n;
      assert theirs[LIST_LIMIT - 1] == unlisted[0];
    }
  }

  /** Keeping only the top of the list is enough exactly when the moved notification stays listed. */
  lemma TopPutIff(rows: seq<Notification>, n: Notification)
    requires UniqueIds(rows)
    ensures StaysListed(rows, n) ==> Top(Put(Top(rows), n)) == Top(Put(rows, n))
    ensures !StaysListed(rows, n) ==> !Agree(Top(Put(Top(rows), n)), Top(Put(rows, n)))
  {
    var o := Ordered(rows);
    if |o| <= LIST_LIMIT {
      OrderedFacts(rows);
      PutReinserts(rows, o, n);
      PutReinserts(o, o, n);
    } else if i: nat :| i < LIST_LIMIT && o[i].id == n.id {
      TopListed(rows, n, i);
    } else {
      forall x | x in Top(rows) ensures x.id != n.id {
        var i :| 0 <= i < LIST_LIMIT && Top(rows)[i] == x;
        assert o[i] == x;
      }
      TopUnlisted(rows, n);
    }
  }

  // ---- agreement up to the update stamp ----

  lemma {:induction false} InsertAgrees(x: Notification, y: Notification, a: seq<Notification>, b: seq<Notification>)
    requires Seen(x) == Seen(y) && Agree(a, b)
    ensures Agree(Insert(ByActivity, x, a), Insert(ByActivity, y, b))
  {
    if a != [] {
      assert Seen(a[0]) == Seen(b[0]);
      if !ByActivity(x, a[0]) {
        InsertAgrees(x, y, a[1..], b[1..]);
      }
    }
  }

  lemma {:induction false} OrderAgrees(a: seq<Notification>, b: seq<Notification>)
    requires Agree(a, b)
    ensures Agree(Ordered(a), Ordered(b))
  {
    if a != [] {
      OrderAgrees(a[1..], b[1..]);
      InsertAgrees(a[0], b[0], Ordered(a[1..]), Ordered(b[1..]));
    }
  }

  lemma SameIds(a: seq<Notification>, b: seq<Notification>, i: nat)
    requires Agree(a, b) && i < |a|
    ensures a[i].id == b[i].id
  {
    assert Seen(a[i]) == Seen(b[i]);
  }

  lemma PutAgrees(a: seq<Notification>, b: seq<Notification>, n: Notification)
    requires Agree(a, b)
    ensures Agree(Put(a, n), Put(b, n))
  {
    FindAgrees(a, b, n.id);
  }

  lemma {:induction false} FindAgrees(a: seq<Notification>, b: seq<Notification>, id: int)
    requires Agree(a, b)
    ensures FindIndex(HasId(id), a) == FindIndex(HasId(id), b)
  {
    if a != [] {
      SameIds(a, b, 0);
      forall i | 0 <= i < |a[1..]| ensures Seen(a[1..][i]) == Seen(b[1..][i]) {
        assert a[1..][i] == a[i + 1] && b[1..][i] == b[i + 1];
      }
      FindAgrees(a[1..], b[1..], id);
    }
  }

  lemma TopAgrees(a: seq<Notification>, b: seq<Notification>, n: Notification)
    requires Agree(a, b)
    ensures Agree(Top(Put(a, n)), Top(Put(b, n)))
  {
    PutAgrees(a, b, n);
    OrderAgrees(Put(a, n), Put(b, n));
  }

  lemma AgreeTransitive(a: seq<Notification>, b: seq<Notification>, c: seq<Notification>)
    requires Agree(a, b)
    ensures Agree(b, c) <==> Agree(a, c)
  {
    forall i | 0 <= i < |a| ensures Seen(a[i]) == Seen(b[i]) {
    }
  }

  // ---- one event ----

  /**
   * Applying an update event keeps the browser's list equal to the server's if and only if the moved
   * notification stays listed: the browser does not know the eleventh one.
   */
  lemma UpdateMirrorsIff(s: Listing, rows: seq<Notification>, n: Notification)
    requires UniqueIds(rows) && Mirrors(s, rows)
    ensures Mirrors(ApplyUpdated(s, n, CountUnread(Put(rows, n))), Put(rows, n)) <==> StaysListed(rows, n)
  {
    FirstPageItems(rows);
    FirstPageItems(Put(rows, n));
    TopAgrees(s.items, Top(rows), n);
    TopPutIff(rows, n);
    AgreeTransitive(Top(Put(s.items, n)), Top(Put(Top(rows), n)), Top(Put(rows, n)));
  }

  /** New notifications, and ones whose activity does not move backwards, stay listed. */
  lemma ForwardActivityStaysListed(rows: seq<Notification>, n: Notification)
    requires UniqueIds(rows)
    requires forall x :: x in rows && x.id == n.id ==> x.activityAt <= n.activityAt
    ensures StaysListed(rows, n)
  {
    var o := Ordered(rows);
    OrderedFacts(rows);
    SameMembers(rows, o);
    if |o| > LIST_LIMIT {
      forall i | 0 <= i < LIST_LIMIT && o[i].id == n.id ensures ByActivity(n, o[LIST_LIMIT]) {
        assert o[i] in o;
        assert ByActivity(o[i], o[LIST_LIMIT]);
      }
    }
  }

  // ---- read-all ----

  lemma {:induction false} MapKeepsInsert(f: Notification -> Notification, x: Notification, s: seq<Notification>)
    requires forall n :: f(n).id == n.id && f(n).activityAt == n.activityAt
    ensures Map(f, Insert(ByActivity, x, s)) == Insert(ByActivity, f(x), Map(f, s))
  {
    if s != [] {
      MapKeepsInsert(f, x, s[1..]);
      assert Map(f, s)[1..] == Map(f, s[1..]);
    }
  }

  /** Changing neither ids nor activity instants leaves the order alone. */
  lemma {:induction false} MapKeepsOrder(f: Notification -> Notification, s: seq<Notification>)
    requires forall n :: f(n).id == n.id && f(n).activityAt == n.activityAt
    ensures Ordered(Map(f, s)) == Map(f, Ordered(s))
  {
    if s != [] {
      MapKeepsOrder(f, s[1..]);
      MapKeepsInsert(f, s[0], Ordered(s[1..]));
      assert Map(f, s)[1..] == Map(f, s[1..]);
    }
  }

  lemma ReadAllMirrors(s: Listing, rows: seq<Notification>, readAt: int, cutoff: int, now: int)
    requires Mirrors(s, rows)
    ensures var after := MarkAllRead(rows, readAt, cutoff, now);
            Mirrors(ApplyReadAll(s, readAt, cutoff, CountUnread(after)), after)
  {
    var after := MarkAllRead(rows, readAt, cutoff, now);
    FirstPageItems(rows);
    FirstPageItems(after);
    MapKeepsOrder(ReadBy(readAt, cutoff, now), rows);
    assert Top(after) == Map(ReadBy(readAt, cutoff, now), Top(rows));
    ReadAgrees(s.items, Top(rows), readAt, cutoff, now);
  }

  lemma ReadAgrees(a: seq<Notification>, b: seq<Notification>, readAt: int, cutoff: int, now: int)
    requires Agree(a, b)
    ensures Agree(Map(ReadLocally(readAt, cutoff), a), Map(ReadBy(readAt, cutoff, now), b))
  {
    forall i | 0 <= i < |a|
      ensures Seen(ReadLocally(readAt, cutoff)(a[i])) == Seen(ReadBy(readAt, cutoff, now)(b[i]))
    {
      assert Seen(a[i]) == Seen(b[i]);
    }
  }

  // ---- runs ----

  /** A fresh id for a new notification; a clock that never stamps one earlier than its last activity. */
  ghost predicate Orderly(rows: seq<Notification>, op: Operation) {
    op.UpsertOp? ==>
      (match FindIndex(HasKey(op.key), rows)
       case Some(i) => rows[i].activityAt <= op.now
       case None => forall x :: x in rows ==> x.id != op.newId)
  }

  ghost predicate OrderlyRun(rows: seq<Notification>, ops: seq<Operation>)
    decreases |ops|
  {
    ops != [] ==> Orderly(rows, ops[0]) && OrderlyRun(Apply(rows, ops[0]), ops[1..])
  }

  function ServerRun(rows: seq<Notification>, ops: seq<Operation>): seq<Notification>
    decreases |ops|
  {
    if ops == [] then rows else ServerRun(Apply(rows, ops[0]), ops[1..])
  }

  function Receive(s: Listing, e: Option<Event>): Listing {
    match e
    case None => s
    case Some(event) => ApplyEvent(s, event)
  }

  /** The browser hears each committed change's event, in order. */
  function BrowserRun(s: Listing, rows: seq<Notification>, ops: seq<Operation>): Listing
    decreases |ops|
  {
    if ops == [] then s else BrowserRun(Receive(s, Emitted(rows, ops[0])), Apply(rows, ops[0]), ops[1..])
  }

  lemma PutInPlace(rows: seq<Notification>, i: nat, n: Notification)
    requires UniqueIds(rows) && i < |rows| && rows[i].id == n.id
    ensures Put(rows, n) == rows[i := n]
  {
    assert HasId(n.id)(rows[i]) && rows[i] in rows;
    DistinctIndices(IdOf, rows, FindIndex(HasId(n.id), rows).value, i);
  }

  lemma UpsertIsPut(rows: seq<Notification>, key: int, payload: string, newId: int, now: int)
    requires UniqueIds(rows) && Orderly(rows, UpsertOp(key, payload, newId, now))
    ensures Upsert(rows, key, payload, newId, now) == Put(rows, Upserted(rows, key, payload, newId, now))
    ensures StaysListed(rows, Upserted(rows, key, payload, newId, now))
  {
    var n := Upserted(rows, key, payload, newId, now);
    match FindIndex(HasKey(key), rows) {
      case Some(i) =>
        PutInPlace(rows, i, n);
        forall x | x in rows && x.id == n.id ensures x.activityAt <= n.activityAt {
          DistinctMembers(IdOf, rows, x, rows[i]);
        }
      case None =>
        assert forall x :: x in rows ==> !HasId(newId)(x);
    }
    ForwardActivityStaysListed(rows, n);
  }

  lemma MarkReadStaysListed(rows: seq<Notification>, id: int, readAt: int, expected: Option<int>, now: int)
    requires UniqueIds(rows) && MarkOutcomeOf(rows, id, readAt, expected, now).Marked?
    ensures StaysListed(rows, MarkOutcomeOf(rows, id, readAt, expected, now).record)
  {
    var i := FindIndex(HasId(id), rows).value;
    var n := MarkOutcomeOf(rows, id, readAt, expected, now).record;
    forall x | x in rows && x.id == n.id ensures x.activityAt <= n.activityAt {
      DistinctMembers(IdOf, rows, x, rows[i]);
    }
    ForwardActivityStaysListed(rows, n);
  }

  lemma MapKeepsIds(f: Notification -> Notification, s: seq<Notification>)
    requires UniqueIds(s) && forall n :: f(n).id == n.id
    ensures UniqueIds(Map(f, s))
  {
    var r := Map(f, s);
    forall i, j | 0 <= i < j < |r| ensures Differ(IdOf)(r[i], r[j]) {
      assert Differ(IdOf)(s[i], s[j]);
      assert IdOf(s[i]) != IdOf(s[j]);
      assert IdOf(r[i]) != IdOf(r[j]);
    }
  }

  lemma UpsertMirrors(s: Listing, rows: seq<Notification>, op: Operation)
    requires op.UpsertOp? && UniqueIds(rows) && Mirrors(s, rows) && Orderly(rows, op)
    ensures UniqueIds(Apply(rows, op))
    ensures Mirrors(Receive(s, Emitted(rows, op)), Apply(rows, op))
  {
    var n := Upserted(rows, op.key, op.payload, op.newId, op.now);
    UpsertIsPut(rows, op.key, op.payload, op.newId, op.now);
    PutUnique(rows, n);
    UpdateMirrorsIff(s, rows, n);
  }

  lemma MarkReadMirrors(s: Listing, rows: seq<Notification>, op: Operation)
    requires op.MarkReadOp? && UniqueIds(rows) && Mirrors(s, rows)
    ensures UniqueIds(Apply(rows, op))
    ensures Mirrors(Receive(s, Emitted(rows, op)), Apply(rows, op))
  {
    var outcome := MarkOutcomeOf(rows, op.id, op.readAt, op.expected, op.now);
    if outcome.Marked? {
      MarkReadStaysListed(rows, op.id, op.readAt, op.expected, op.now);
      PutUnique(rows, outcome.record);
      UpdateMirrorsIff(s, rows, outcome.record);
    }
  }

  lemma StepMirrors(s: Listing, rows: seq<Notification>, op: Operation)
    requires UniqueIds(rows) && Mirrors(s, rows) && Orderly(rows, op)
    ensures UniqueIds(Apply(rows, op))
    ensures Mirrors(Receive(s, Emitted(rows, op)), Apply(rows, op))
  {
    match op
    case UpsertOp(_, _, _, _) => UpsertMirrors(s, rows, op);
    case MarkReadOp(_, _, _, _) => MarkReadMirrors(s, rows, op);
    case MarkAllReadOp(readAt, cutoff, now) =>
      MapKeepsIds(ReadBy(readAt, cutoff, now), rows);
      ReadAllMirrors(s, rows, readAt, cutoff, now);
  }

  /**
   * From a fresh listing on, the browser's list equals what the server would list after any run of
   * upserts, read marks and read-alls delivered in order.
   */
  lemma {:induction false} BrowserMirrorsServer(s: Listing, rows: seq<Notification>, ops: seq<Operation>)
    requires UniqueIds(rows) && Mirrors(s, rows) && OrderlyRun(rows, ops)
    ensures Mirrors(BrowserRun(s, rows, ops), ServerRun(rows, ops))
    decreases |ops|
  {
    if ops != [] {
      StepMirrors(s, rows, ops[0]);
      BrowserMirrorsServer(Receive(s, Emitted(rows, ops[0])), Apply(rows, ops[0]), ops[1..]);
    }
  }

  lemma FreshListingMirrors(rows: seq<Notification>)
    ensures Mirrors(FirstPage(rows, LIST_LIMIT), rows)
  {
  }

  // ---- at-least-once delivery ----

  lemma PutTwice(s: seq<Notification>, n: Notification)
    requires UniqueIds(s)
    ensures Top(Put(Top(Put(s, n)), n)) == Top(Put(s, n))
  {
    var once := Put(s, n);
    PutUnique(s, n);
    match FindIndex(HasId(n.id), s) {
      case Some(k) => assert once[k] == n;
      case None => assert once[|s|] == n;
    }
    var i :| 0 <= i < |once| && once[i] == n;
    PutInPlace(once, i, n);
    assert Put(once, n) == once;
    forall x | x in once && x.id == n.id ensures x.activityAt <= n.activityAt {
      DistinctMembers(IdOf, once, x, n);
    }
    ForwardActivityStaysListed(once, n);
    TopPutIff(once, n);
  }

  /** Redelivering the latest event changes nothing. */
  lemma RedeliveryIsInvisible(s: Listing, e: Event)
    requires UniqueIds(s.items)
    ensures ApplyEvent(ApplyEvent(s, e), e) == ApplyEvent(s, e)
  {
    match e
    case Updated(n, unread) => PutTwice(s.items, n);
    case ReadAll(readAt, cutoff, unread) =>
      var once := Map(ReadLocally(readAt, cutoff), s.items);
      assert Map(ReadLocally(readAt, cutoff), once) == once;
  }

  // ---- counts of overlapping transactions ----

  /**
   * An event's unread count replaces the browser's, so a count that was wrong, as overlapping transactions
   * can leave it, is right again after the next change whose count is.
   */
  lemma NextEventRestoresCount(s: Listing, rows: seq<Notification>, op: Operation)
    requires UniqueIds(rows) && Agree(s.items, FirstPage(rows, LIST_LIMIT).items)
    requires Orderly(rows, op) && Emitted(rows, op).Some?
    ensures Mirrors(Receive(s, Emitted(rows, op)), Apply(rows, op))
  {
    var counted := s.(unreadCount := FirstPage(rows, LIST_LIMIT).unreadCount);
    StepMirrors(counted, rows, op);
    assert Receive(counted, Emitted(rows, op)) == Receive(s, Emitted(rows, op));
  }
}
