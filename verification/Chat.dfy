/** Cursor paging of an order's chat history. */
module Chat {
  import opened Outcomes
  import opened Sequences

  datatype Message = Message(id: int, createdAt: int, senderId: int, content: string)

  datatype Page = Page(items: seq<Message>, nextCursor: Option<int>)

  function IdOf(m: Message): int {
    m.id
  }

  function HasId(id: int): Message -> bool {
    (m: Message) => m.id == id
  }

  /** Strictly newer by creation instant, then by id. */
  predicate Newer(a: Message, b: Message) {
    a.createdAt > b.createdAt || (a.createdAt == b.createdAt && a.id > b.id)
  }

  predicate NewestFirst(a: Message, b: Message) {
    a.createdAt > b.createdAt || (a.createdAt == b.createdAt && a.id >= b.id)
  }

  function OlderThan(c: Message): Message -> bool {
    (m: Message) => Newer(c, m)
  }

  function Newest(rows: seq<Message>): seq<Message> {
    Sort(NewestFirst, rows)
  }

  /** The ordered messages from the cursor's successor on, or all of them. */
  function Below(rows: seq<Message>, cursor: Option<int>): seq<Message> {
    var ordered := Newest(rows);
    match cursor
    case None => ordered
    case Some(id) => (match FindIndex(HasId(id), ordered) case Some(i) => ordered[i + 1..] case None => [])
  }

  /** The first `limit` of the given messages, oldest first, and a cursor when there are more. */
  function PageFrom(below: seq<Message>, limit: nat): Page {
    var fetched := Take(limit + 1, below);
    var page := Take(limit, fetched);
    Page(Reverse(page), if |fetched| > limit && page != [] then Some(page[|page| - 1].id) else None)
  }

  function ListMessages(rows: seq<Message>, cursor: Option<int>, limit: nat): Result<Page> {
    if cursor.Some? && FindIndex(HasId(cursor.value), rows).None? then Err(ChatMessageNotFound)
    else Ok(PageFrom(Below(rows, cursor), limit))
  }

  // ---- a chat that keeps growing while it is read ----

  /** The rows at the k-th call: the first call's rows and everything that arrived since. */
  function RowsAt(rows: seq<Message>, arrivals: nat -> seq<Message>, k: nat): seq<Message> {
    if k == 0 then rows else RowsAt(rows, arrivals, k - 1) + arrivals(k - 1)
  }

  ghost predicate UniqueIdsAt(rows: seq<Message>, arrivals: nat -> seq<Message>, k: nat) {
    DistinctBy(IdOf, RowsAt(rows, arrivals, k))
  }

  ghost predicate AllNewer(added: seq<Message>, rows: seq<Message>) {
    forall m, r :: m in added && r in rows ==> Newer(m, r)
  }

  /** Ids are unique, and what arrives is newer than what the first call could see. */
  ghost predicate LiveChat(rows: seq<Message>, arrivals: nat -> seq<Message>) {
    && (forall k: nat :: UniqueIdsAt(rows, arrivals, k))
    && (forall k: nat :: AllNewer(arrivals(k), rows))
  }

  lemma FirstCallUnique(rows: seq<Message>, arrivals: nat -> seq<Message>)
    requires LiveChat(rows, arrivals)
    ensures DistinctBy(IdOf, rows)
  {
    assert UniqueIdsAt(rows, arrivals, 0);
  }

  lemma OrderIsTotal()
    ensures TotalPreorder(NewestFirst)
  {
  }

  /** The messages still to be read: all of them, or those below the cursor. */
  function Remaining(rows: seq<Message>, cursor: Option<Message>): seq<Message> {
    match cursor
    case None => Newest(rows)
    case Some(c) => Newest(Filter(OlderThan(c), rows))
  }

  lemma NewestFacts(rows: seq<Message>)
    requires DistinctBy(IdOf, rows)
    ensures var s := Newest(rows);
            && |s| == |rows| && DistinctBy(IdOf, s) && Sorted(NewestFirst, s) && Antisymmetric(NewestFirst, s)
            && (forall m :: m in s <==> m in rows)
            && (forall i, j :: 0 <= i < j < |s| ==> Newer(s[i], s[j]))
  {
    OrderIsTotal();
    SortSorts(NewestFirst, rows);
    SameMembers(rows, Newest(rows));
    DistinctPermutation(IdOf, rows, Newest(rows));
    var s := Newest(rows);
    forall x, y | x in s && y in s && NewestFirst(x, y) && NewestFirst(y, x) ensures x == y {
      DistinctMembers(IdOf, s, x, y);
    }
    forall i, j | 0 <= i < j < |s| ensures Newer(s[i], s[j]) {
      assert NewestFirst(s[i], s[j]);
      assert Differ(IdOf)(s[i], s[j]);
      assert IdOf(s[i]) != IdOf(s[j]);
    }
  }

  ghost predicate StrictlyDescending(s: seq<Message>) {
    forall j, k :: 0 <= j < k < |s| ==> Newer(s[j], s[k])
  }

  lemma AboveAreNotOlder(s: seq<Message>, i: nat, m: Message)
    requires i < |s| && StrictlyDescending(s) && m in s[..i + 1]
    ensures !Newer(s[i], m)
  {
    var k :| 0 <= k < |s[..i + 1]| && s[..i + 1][k] == m;
    assert k < i ==> Newer(s[k], s[i]);
  }

  lemma BelowAreOlder(s: seq<Message>, i: nat, m: Message)
    requires i < |s| && StrictlyDescending(s) && m in s[i + 1..]
    ensures Newer(s[i], m)
  {
    var k :| 0 <= k < |s[i + 1..]| && s[i + 1..][k] == m;
    assert Newer(s[i], s[i + 1 + k]);
  }

  lemma SplitAt(s: seq<Message>, i: nat)
    requires i < |s| && StrictlyDescending(s)
    ensures Filter(OlderThan(s[i]), s) == s[i + 1..]
  {
    var older, above, below := OlderThan(s[i]), s[..i + 1], s[i + 1..];
    assert s == above + below;
    forall m | m in above ensures !older(m) {
      AboveAreNotOlder(s, i, m);
    }
    forall m | m in below ensures older(m) {
      BelowAreOlder(s, i, m);
    }
    FilterParts(older, above, below);
  }

  lemma FilterParts(p: Message -> bool, a: seq<Message>, b: seq<Message>)
    requires (forall m :: m in a ==> !p(m)) && (forall m :: m in b ==> p(m))
    ensures Filter(p, a + b) == b
  {
    FilterConcat(p, a, b);
    FilterNone(p, a);
    FilterAll(p, b);
  }

  /** What follows the cursor message in the ordered list is what is older than it. */
  lemma BelowCursor(rows: seq<Message>, c: Message)
    requires DistinctBy(IdOf, rows) && c in rows
    ensures FindIndex(HasId(c.id), rows).Some?
    ensures var found := FindIndex(HasId(c.id), Newest(rows)); found.Some? && Newest(rows)[found.value] == c
    ensures Below(rows, Some(c.id)) == Remaining(rows, Some(c))
  {
    var s := Newest(rows);
    NewestFacts(rows);
    assert HasId(c.id)(c) && c in s;
    var i := FindIndex(HasId(c.id), s).value;
    assert s[i] in s;
    DistinctMembers(IdOf, s, s[i], c);
    SplitAt(s, i);
    FilterIsNewest(rows, OlderThan(c));
  }

  /** Filtering and ordering commute. */
  lemma FilterIsNewest(rows: seq<Message>, p: Message -> bool)
    requires DistinctBy(IdOf, rows)
    ensures Filter(p, Newest(rows)) == Newest(Filter(p, rows))
  {
    NewestFacts(rows);
    FilterSorted(p, NewestFirst, Newest(rows));
    FilterPermutation(p, Newest(rows), rows);
    OrderIsTotal();
    SortSorts(NewestFirst, Filter(p, rows));
    SortedUnique(NewestFirst, Filter(p, Newest(rows)), Newest(Filter(p, rows)));
  }

  /** Arrivals never show up below a cursor into the chat as it was at the first call. */
  lemma {:induction false} ArrivalsStayAbove(rows: seq<Message>, arrivals: nat -> seq<Message>, k: nat, c: Message)
    requires LiveChat(rows, arrivals) && c in rows
    ensures c in RowsAt(rows, arrivals, k)
    ensures Filter(OlderThan(c), RowsAt(rows, arrivals, k)) == Filter(OlderThan(c), rows)
  {
    if k > 0 {
      ArrivalsStayAbove(rows, arrivals, k - 1, c);
      var before, added := RowsAt(rows, arrivals, k - 1), arrivals(k - 1);
      assert AllNewer(added, rows);
      FilterConcat(OlderThan(c), before, added);
      forall m | m in added ensures !OlderThan(c)(m) {
        assert Newer(m, c);
      }
      FilterNone(OlderThan(c), added);
    }
  }

  lemma PageFromIs(below: seq<Message>, limit: nat)
    requires limit >= 1
    ensures PageFrom(below, limit)
            == Page(Reverse(Take(limit, below)), if |below| > limit then Some(below[limit - 1].id) else None)
  {
    assert Take(limit, Take(limit + 1, below)) == Take(limit, below);
  }

  /** The cursors a reader can hold: none yet, or the id of a message that was there at the first call. */
  predicate Known(rows: seq<Message>, cursor: Option<int>) {
    cursor.Some? ==> FindIndex(HasId(cursor.value), rows).Some?
  }

  /** What lies below a known cursor does not change while the chat grows. */
  lemma BelowStays(rows: seq<Message>, arrivals: nat -> seq<Message>, k: nat, cursor: Option<int>)
    requires LiveChat(rows, arrivals) && Known(rows, cursor) && (cursor.None? ==> k == 0)
    ensures Known(RowsAt(rows, arrivals, k), cursor)
    ensures Below(RowsAt(rows, arrivals, k), cursor) == Below(rows, cursor)
  {
    if cursor.Some? {
      var c := rows[FindIndex(HasId(cursor.value), rows).value];
      ArrivalsStayAbove(rows, arrivals, k, c);
      FirstCallUnique(rows, arrivals);
      BelowCursor(rows, c);
      assert UniqueIdsAt(rows, arrivals, k);
      BelowCursor(RowsAt(rows, arrivals, k), c);
    }
  }

  /** A call answers with the next `limit` messages below its cursor, whatever has arrived meanwhile. */
  lemma PageIs(rows: seq<Message>, arrivals: nat -> seq<Message>, k: nat, cursor: Option<int>, limit: nat)
    requires LiveChat(rows, arrivals) && Known(rows, cursor) && (cursor.None? ==> k == 0) && limit >= 1
    ensures var below := Below(rows, cursor);
            ListMessages(RowsAt(rows, arrivals, k), cursor, limit)
            == Ok(Page(Reverse(Take(limit, below)), if |below| > limit then Some(below[limit - 1].id) else None))
  {
    BelowStays(rows, arrivals, k, cursor);
    PageFromIs(Below(rows, cursor), limit);
  }

  /** Where the messages below a cursor start in the ordered list. */
  function Start(rows: seq<Message>, cursor: Option<int>): nat {
    match cursor
    case None => 0
    case Some(id) => (match FindIndex(HasId(id), Newest(rows)) case Some(i) => i + 1 case None => |Newest(rows)|)
  }

  /** Below the last message of a full page lies exactly the rest of the list. */
  lemma NextBelow(rows: seq<Message>, cursor: Option<int>, limit: nat)
    requires DistinctBy(IdOf, rows) && 1 <= limit < |Below(rows, cursor)|
    ensures var below := Below(rows, cursor);
            && Known(rows, Some(below[limit - 1].id))
            && Below(rows, Some(below[limit - 1].id)) == below[limit..]
  {
    var s := Newest(rows);
    var start := Start(rows, cursor);
    BelowIsSuffix(rows, cursor);
    NewestDistinct(rows);
    SuffixAfter(s, start, limit);
    var last := s[start + limit - 1];
    BelowIsSuffix(rows, Some(last.id));
    KnownMember(rows, last);
    assert Below(rows, cursor)[limit - 1] == last;
  }

  lemma BelowIsSuffix(rows: seq<Message>, cursor: Option<int>)
    ensures Start(rows, cursor) <= |Newest(rows)| && Below(rows, cursor) == Newest(rows)[Start(rows, cursor)..]
  {
  }

  lemma KnownMember(rows: seq<Message>, m: Message)
    requires m in rows
    ensures Known(rows, Some(m.id))
  {
    assert HasId(m.id)(m);
  }

  lemma NewestDistinct(rows: seq<Message>)
    requires DistinctBy(IdOf, rows)
    ensures DistinctBy(IdOf, Newest(rows)) && forall m :: m in Newest(rows) <==> m in rows
  {
    NewestFacts(rows);
  }

  lemma SuffixAfter(s: seq<Message>, start: nat, limit: nat)
    requires DistinctBy(IdOf, s) && start < start + limit <= |s|
    ensures FindIndex(HasId(s[start + limit - 1].id), s) == Some(start + limit - 1)
    ensures s[start..][limit - 1] == s[start + limit - 1] && s[start..][limit..] == s[start + limit..]
  {
    FoundAt(s, start + limit - 1);
  }

  lemma FoundAt(s: seq<Message>, at: nat)
    requires DistinctBy(IdOf, s) && at < |s|
    ensures FindIndex(HasId(s[at].id), s) == Some(at)
  {
    assert HasId(s[at].id)(s[at]);
    DistinctIndices(IdOf, s, FindIndex(HasId(s[at].id), s).value, at);
  }

  lemma {:induction false} ReverseSplit(s: seq<Message>, n: nat)
    requires n <= |s|
    ensures Reverse(s) == Reverse(s[n..]) + Reverse(s[..n])
  {
    assert s == s[..n] + s[n..];
    ReverseConcat(s[..n], s[n..]);
  }

  /**
   * A reader following `nextCursor` from call `k` to the end, its pages put together oldest first.
   * Every such reader gets what is below its cursor, each message once, in order.
   */
  ghost function Follow(
      rows: seq<Message>, arrivals: nat -> seq<Message>, k: nat, cursor: Option<int>, limit: nat): (read: seq<Message>)
    requires LiveChat(rows, arrivals) && Known(rows, cursor) && (cursor.None? ==> k == 0) && limit >= 1
    ensures read == Reverse(Below(rows, cursor))
    decreases |Below(rows, cursor)|
  {
    PageIs(rows, arrivals, k, cursor, limit);
    var page := ListMessages(RowsAt(rows, arrivals, k), cursor, limit).value;
    match page.nextCursor
    case None => page.items
    case Some(id) =>
      FirstCallUnique(rows, arrivals);
      NextBelow(rows, cursor, limit);
      ReverseSplit(Below(rows, cursor), limit);
      Follow(rows, arrivals, k + 1, Some(id), limit) + page.items
  }

  /**
   * Reading pages until the cursor runs out reassembles the whole chat as of the first call, oldest
   * message first, for every page size and whatever arrives between the calls.
   */
  lemma PagesReassembleChat(rows: seq<Message>, arrivals: nat -> seq<Message>, limit: nat)
    requires LiveChat(rows, arrivals) && limit >= 1
    ensures var read := Follow(rows, arrivals, 0, None, limit);
            && read == Reverse(Newest(rows))
            && multiset(read) == multiset(rows)
            && forall i, j :: 0 <= i < j < |read| ==>
                 || read[i].createdAt < read[j].createdAt
                 || (read[i].createdAt == read[j].createdAt && read[i].id < read[j].id)
  {
    FirstCallUnique(rows, arrivals);
    NewestFacts(rows);
    ReverseMembers(Newest(rows));
    var read := Reverse(Newest(rows));
    forall i, j | 0 <= i < j < |read| ensures Newer(read[j], read[i]) {
    }
  }

  /** A cursor that is no message of the order is refused, and no other call is. */
  lemma UnknownCursorRefused(rows: seq<Message>, cursor: Option<int>, limit: nat)
    ensures ListMessages(rows, cursor, limit).Err? <==> cursor.Some? && forall m :: m in rows ==> m.id != cursor.value
    ensures ListMessages(rows, cursor, limit).Err? ==> ListMessages(rows, cursor, limit).error == ChatMessageNotFound
  {
  }

  /** A page size of zero, which the source does not refuse, reads nothing and ends at once. */
  lemma EmptyPages(rows: seq<Message>)
    ensures ListMessages(rows, None, 0) == Ok(Page([], None))
  {
  }
}
