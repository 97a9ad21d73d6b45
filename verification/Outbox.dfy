/** Outbox rows, their status-guarded updates, and the dispatcher that drains them in batches. */
module Outbox {
  import opened Outcomes
  import opened Sequences

  const BATCH_SIZE: nat := 50
  const MAX_ATTEMPTS: nat := 10
  const RETRY_BACKOFF_MS: nat := 5000

  datatype Status = Pending | Published | Failed

  datatype OutboxEvent = OutboxEvent(
    id: int, eventType: string, payload: string, status: Status, attempts: nat, availableAt: int,
    publishedAt: Option<int>, lastError: Option<string>)

  function IdOf(e: OutboxEvent): int {
    e.id
  }

  function Due(now: int): OutboxEvent -> bool {
    (e: OutboxEvent) => e.status == Pending && e.availableAt <= now
  }

  /** `rows` is the table in creation order. */
  function FetchPending(rows: seq<OutboxEvent>, now: int, limit: nat): seq<OutboxEvent> {
    Take(limit, Filter(Due(now), rows))
  }

  /** The rows that are pending and available at an instant, in creation order. */
  function DueRows(rows: seq<OutboxEvent>, now: int): seq<OutboxEvent> {
    if rows == [] then []
    else (if rows[0].status == Pending && rows[0].availableAt <= now then [rows[0]] else []) + DueRows(rows[1..], now)
  }

  lemma {:induction false} DueIs(rows: seq<OutboxEvent>, now: int)
    ensures Filter(Due(now), rows) == DueRows(rows, now)
  {
    if rows != [] { DueIs(rows[1..], now); }
  }

  /** Up to 50 due rows are all fetched, whatever their attempts; of more, the 50 created first. */
  lemma FetchPendingIs(rows: seq<OutboxEvent>, now: int)
    ensures var due := DueRows(rows, now);
            FetchPending(rows, now, BATCH_SIZE) == if |due| <= 50 then due else due[..50]
    ensures forall e :: e in DueRows(rows, now) <==> e in rows && e.status == Pending && e.availableAt <= now
    ensures |DueRows(rows, now)| <= 50 ==>
              forall e :: e in FetchPending(rows, now, BATCH_SIZE) <==>
                          e in rows && e.status == Pending && e.availableAt <= now
  {
    DueIs(rows, now);
    forall e ensures e in DueRows(rows, now) <==> e in rows && e.status == Pending && e.availableAt <= now {
      assert Due(now)(e) <==> e.status == Pending && e.availableAt <= now;
    }
  }

  /** A write to one row, guarded by its still being PENDING. */
  datatype Mark =
    | MarkPublished(at: int)
    | MarkRetry(attempts: nat, availableAt: int, lastError: string)
    | MarkFailed(attempts: nat, lastError: string)

  function Marked(e: OutboxEvent, m: Mark): OutboxEvent {
    match m
    case MarkPublished(at) => e.(status := Published, publishedAt := Some(at))
    case MarkRetry(attempts, availableAt, lastError) =>
      e.(attempts := attempts, availableAt := availableAt, lastError := Some(lastError))
    case MarkFailed(attempts, lastError) => e.(status := Failed, attempts := attempts, lastError := Some(lastError))
  }

  function MarkRow(id: int, m: Mark): OutboxEvent -> OutboxEvent {
    (e: OutboxEvent) => if e.id == id && e.status == Pending then Marked(e, m) else e
  }

  /** `updateMany where { id, status: PENDING }`. */
  function Update(rows: seq<OutboxEvent>, id: int, m: Mark): seq<OutboxEvent> {
    Map(MarkRow(id, m), rows)
  }

  /** What happens to one event: its handler, and the store calls that record the result. */
  datatype Attempt =
    | NoHandler(recordFails: bool)
    | Handled
    | HandlerThrows(message: string, recordFails: bool)
    | PublishMarkThrows(message: string, recordFails: bool)

  /** A failure that could not be recorded leaves the batch by exception. */
  predicate Aborts(a: Attempt) {
    !a.Handled? && a.recordFails
  }

  /** The failure of one of these events cannot be recorded. */
  ghost predicate SomeAbort(events: seq<OutboxEvent>, env: OutboxEvent -> Attempt) {
    exists k :: 0 <= k < |events| && Aborts(env(events[k]))
  }

  function NoHandlerMessage(e: OutboxEvent): string {
    "No handler registered for event type \"" + e.eventType + "\"."
  }

  /** The mark a failed attempt records. */
  function FailureMark(e: OutboxEvent, now: int, message: string): Mark {
    var attempts := e.attempts + 1;
    if attempts >= MAX_ATTEMPTS then MarkFailed(attempts, message)
    else MarkRetry(attempts, now + RETRY_BACKOFF_MS * attempts, message)
  }

  function MarkFor(e: OutboxEvent, now: int, a: Attempt): Mark {
    match a
    case NoHandler(_) => MarkFailed(e.attempts + 1, NoHandlerMessage(e))
    case Handled => MarkPublished(now)
    case HandlerThrows(message, _) => FailureMark(e, now, message)
    case PublishMarkThrows(message, _) => FailureMark(e, now, message)
  }

  function Dispatch(rows: seq<OutboxEvent>, e: OutboxEvent, now: int, a: Attempt): seq<OutboxEvent> {
    if Aborts(a) then rows else Update(rows, e.id, MarkFor(e, now, a))
  }

  function RunBatch(
      rows: seq<OutboxEvent>, events: seq<OutboxEvent>, now: int, env: OutboxEvent -> Attempt): seq<OutboxEvent>
    decreases |events|
  {
    if events == [] || Aborts(env(events[0])) then rows
    else RunBatch(Dispatch(rows, events[0], now, env(events[0])), events[1..], now, env)
  }

  function Pass(rows: seq<OutboxEvent>, now: int, env: OutboxEvent -> Attempt): seq<OutboxEvent> {
    RunBatch(rows, FetchPending(rows, now, BATCH_SIZE), now, env)
  }

  lemma UpdateIs(before: seq<OutboxEvent>, after: seq<OutboxEvent>, id: int, m: Mark)
    requires |after| == |before|
    requires forall i :: 0 <= i < |before| ==> after[i] == MarkRow(id, m)(before[i])
    ensures after == Update(before, id, m)
  {
  }

  /** Marks race safely: once a row is published or failed, no later mark of any kind changes it. */
  lemma FirstSettlingMarkWins(rows: seq<OutboxEvent>, id: int, m: Mark, later: Mark)
    requires !m.MarkRetry?
    ensures Update(Update(rows, id, m), id, later) == Update(rows, id, m)
  {
    var once := Update(rows, id, m);
    forall i | 0 <= i < |rows| ensures Update(once, id, later)[i] == once[i] {
      assert once[i] == MarkRow(id, m)(rows[i]);
    }
  }

  class OutboxStore {
    var rows: seq<OutboxEvent>

    constructor (rows: seq<OutboxEvent>)
      ensures this.rows == rows
    {
      this.rows := rows;
    }

    /** Only the named row, and only while it is pending, becomes published. */
    method MarkPublished(id: int, publishedAt: int)
      modifies this
      ensures |rows| == |old(rows)|
      ensures forall i :: 0 <= i < |rows| ==>
                if old(rows)[i].id == id && old(rows)[i].status == Pending then
                  rows[i] == old(rows)[i].(status := Published, publishedAt := Some(publishedAt))
                else rows[i] == old(rows)[i]
    {
      rows := Update(rows, id, Mark.MarkPublished(publishedAt));
    }

    /** Only the named row, and only while it is pending, is put off; it stays pending. */
    method MarkRetry(id: int, attempts: nat, availableAt: int, lastError: string)
      modifies this
      ensures |rows| == |old(rows)|
      ensures forall i :: 0 <= i < |rows| ==>
                if old(rows)[i].id == id && old(rows)[i].status == Pending then
                  rows[i] == old(rows)[i].(
                    attempts := attempts, availableAt := availableAt, lastError := Some(lastError))
                else rows[i] == old(rows)[i]
    {
      rows := Update(rows, id, Mark.MarkRetry(attempts, availableAt, lastError));
    }

    /** Only the named row, and only while it is pending, becomes failed. */
    method MarkFailed(id: int, attempts: nat, lastError: string)
      modifies this
      ensures |rows| == |old(rows)|
      ensures forall i :: 0 <= i < |rows| ==>
                if old(rows)[i].id == id && old(rows)[i].status == Pending then
                  rows[i] == old(rows)[i].(status := Failed, attempts := attempts, lastError := Some(lastError))
                else rows[i] == old(rows)[i]
    {
      rows := Update(rows, id, Mark.MarkFailed(attempts, lastError));
    }
  }

  class OutboxDispatcher {
    const store: OutboxStore
    var running: bool

    constructor (store: OutboxStore)
      ensures this.store == store && !running
    {
      this.store := store;
      running := false;
    }

    /**
     * One pass; a call that finds another pass running does nothing. The flag is always put back, also when
     * the fetch or the recording of a failure throws.
     */
    method ProcessPendingBatch(now: int, fetchFails: bool, env: OutboxEvent -> Attempt) returns (threw: bool)
      requires store as object != this
      modifies this, store
      ensures running == old(running)
      ensures store.rows == if old(running) || fetchFails then old(store.rows) else Pass(old(store.rows), now, env)
      ensures threw <==>
                && !old(running)
                && (fetchFails || SomeAbort(Take(50, DueRows(old(store.rows), now)), env))
    {
      if running {
        return false;
      }
      running := true;
      if fetchFails {
        running := false;
        return true;
      }
      var events := FetchPending(store.rows, now, BATCH_SIZE);
      assert events == Take(50, DueRows(store.rows, now)) by { FetchPendingIs(store.rows, now); }
      var i := 0;
      threw := false;
      while i < |events| && !threw
        invariant 0 <= i <= |events| && running
        invariant threw ==> store.rows == Pass(old(store.rows), now, env)
        invariant !threw ==> RunBatch(store.rows, events[i..], now, env) == Pass(old(store.rows), now, env)
        invariant forall k :: 0 <= k < i ==> !Aborts(env(events[k]))
        invariant threw ==> i < |events| && Aborts(env(events[i]))
        decreases |events| - i, !threw
      {
        assert events[i..][0] == events[i] && events[i..][1..] == events[i + 1..];
        threw := DispatchEvent(events[i], now, env(events[i]));
        if !threw {
          i := i + 1;
        }
      }
      running := false;
    }

    method DispatchEvent(e: OutboxEvent, now: int, a: Attempt) returns (threw: bool)
      modifies store
      ensures store.rows == Dispatch(old(store.rows), e, now, a)
      ensures threw == Aborts(a)
    {
      match a {
        case NoHandler(recordFails) =>
          if recordFails {
            return true;
          }
          store.MarkFailed(e.id, e.attempts + 1, NoHandlerMessage(e));
          UpdateIs(old(store.rows), store.rows, e.id, MarkFor(e, now, a));
          return false;
        case Handled =>
          store.MarkPublished(e.id, now);
          UpdateIs(old(store.rows), store.rows, e.id, MarkFor(e, now, a));
          return false;
        case HandlerThrows(message, recordFails) =>
          threw := HandleFailure(e, now, message, recordFails);
        case PublishMarkThrows(message, recordFails) =>
          threw := HandleFailure(e, now, message, recordFails);
      }
    }

    method HandleFailure(e: OutboxEvent, now: int, message: string, recordFails: bool) returns (threw: bool)
      modifies store
      ensures threw == recordFails
      ensures store.rows ==
                if threw then old(store.rows) else Update(old(store.rows), e.id, FailureMark(e, now, message))
    {
      if recordFails {
        return true;
      }
      var attempts := e.attempts + 1;
      if attempts >= MAX_ATTEMPTS {
        store.MarkFailed(e.id, attempts, message);
      } else {
        store.MarkRetry(e.id, attempts, now + RETRY_BACKOFF_MS * attempts, message);
      }
      UpdateIs(old(store.rows), store.rows, e.id, FailureMark(e, now, message));
      return false;
    }
  }

  // ---- draining at a fixed instant ----

  ghost predicate UniqueIds(rows: seq<OutboxEvent>) {
    DistinctBy(IdOf, rows)
  }

  function NotId(id: int): OutboxEvent -> bool {
    (e: OutboxEvent) => e.id != id
  }

  /** After its dispatch an event has left PENDING or waits until after `now`. */
  lemma DispatchedIsNotDue(e: OutboxEvent, now: int, a: Attempt)
    requires !Aborts(a)
    ensures !Due(now)(Marked(e, MarkFor(e, now, a)))
  {
  }

  /** What one recorded dispatch makes of a pending event, whatever went wrong. */
  lemma RecordedOutcome(e: OutboxEvent, now: int, a: Attempt)
    requires e.status == Pending && e.attempts < 10 && !Aborts(a)
    ensures var after := Marked(e, MarkFor(e, now, a));
            && after == Recorded(e, now, a)
            && (after.status == Published <==> a.Handled?)
            && (after.status == Failed <==> a.NoHandler? || (!a.Handled? && e.attempts == 9))
            && after.attempts == e.attempts + (if a.Handled? then 0 else 1) <= 10
            && (after.status == Pending ==> after.availableAt == now + 5000 * after.attempts)
  {
  }

  /** The row after an attempt whose result could be recorded. */
  function Recorded(e: OutboxEvent, now: int, a: Attempt): OutboxEvent {
    if a.Handled? then e.(status := Published, publishedAt := Some(now))
    else if a.NoHandler? then
      e.(status := Failed, attempts := e.attempts + 1,
         lastError := Some("No handler registered for event type \"" + e.eventType + "\"."))
    else if e.attempts + 1 >= 10 then
      e.(status := Failed, attempts := e.attempts + 1, lastError := Some(a.message))
    else
      e.(attempts := e.attempts + 1, availableAt := now + 5000 * (e.attempts + 1), lastError := Some(a.message))
  }

  lemma {:induction false} DispatchLeavesOthersDue(rows: seq<OutboxEvent>, e: OutboxEvent, now: int, a: Attempt)
    requires !Aborts(a) && forall x :: x in rows && x.id == e.id ==> x == e
    ensures Filter(Due(now), Dispatch(rows, e, now, a)) == Filter(NotId(e.id), Filter(Due(now), rows))
  {
    if rows != [] {
      assert Dispatch(rows, e, now, a)[1..] == Dispatch(rows[1..], e, now, a);
      DispatchLeavesOthersDue(rows[1..], e, now, a);
      DispatchedIsNotDue(e, now, a);
      assert rows[0] in rows;
      assert Dispatch(rows, e, now, a)[0] == MarkRow(e.id, MarkFor(e, now, a))(rows[0]);
    }
  }

  lemma DispatchKeepsIds(rows: seq<OutboxEvent>, e: OutboxEvent, now: int, a: Attempt)
    requires UniqueIds(rows)
    ensures UniqueIds(Dispatch(rows, e, now, a))
  {
    SameIds(rows, Dispatch(rows, e, now, a));
  }

  lemma SameIds(rows: seq<OutboxEvent>, after: seq<OutboxEvent>)
    requires UniqueIds(rows) && |after| == |rows|
    requires forall i :: 0 <= i < |rows| ==> after[i].id == rows[i].id
    ensures UniqueIds(after)
  {
    forall i, j | 0 <= i < j < |after| ensures Differ(IdOf)(after[i], after[j]) {
      assert Differ(IdOf)(rows[i], rows[j]);
      assert IdOf(rows[i]) != IdOf(rows[j]);
      assert IdOf(after[i]) != IdOf(after[j]);
    }
  }

  /** Dispatching the oldest due event takes exactly it off the due list. */
  lemma DispatchTakesHead(rows: seq<OutboxEvent>, now: int, a: Attempt)
    requires UniqueIds(rows) && !Aborts(a) && Filter(Due(now), rows) != []
    ensures var due := Filter(Due(now), rows);
            Filter(Due(now), Dispatch(rows, due[0], now, a)) == due[1..]
  {
    var due := Filter(Due(now), rows);
    var e := due[0];
    assert e in due;
    forall x | x in rows && x.id == e.id ensures x == e {
      DistinctMembers(IdOf, rows, x, e);
    }
    DispatchLeavesOthersDue(rows, e, now, a);
    FilterSorted(Due(now), Differ(IdOf), rows);
    WithoutHead(due);
  }

  lemma WithoutHead(s: seq<OutboxEvent>)
    requires UniqueIds(s) && s != []
    ensures Filter(NotId(s[0].id), s) == s[1..]
  {
    forall x | x in s[1..] ensures NotId(s[0].id)(x) {
      var k :| 0 <= k < |s[1..]| && s[1..][k] == x;
      assert Differ(IdOf)(s[0], s[k + 1]);
      assert IdOf(s[0]) != IdOf(s[k + 1]);
    }
    FilterAll(NotId(s[0].id), s[1..]);
  }

  ghost predicate NeverAborts(env: OutboxEvent -> Attempt) {
    forall e :: !Aborts(env(e))
  }

  lemma {:induction false} BatchTakesPrefix(rows: seq<OutboxEvent>, n: nat, now: int, env: OutboxEvent -> Attempt)
    requires UniqueIds(rows) && NeverAborts(env) && n <= |Filter(Due(now), rows)|
    ensures var due := Filter(Due(now), rows);
            var after := RunBatch(rows, due[..n], now, env);
            UniqueIds(after) && Filter(Due(now), after) == due[n..]
    decreases n
  {
    if n > 0 {
      var due := Filter(Due(now), rows);
      var next := Dispatch(rows, due[0], now, env(due[0]));
      DispatchKeepsIds(rows, due[0], now, env(due[0]));
      DispatchTakesHead(rows, now, env(due[0]));
      BatchTakesPrefix(next, n - 1, now, env);
      assert due[..n][1..] == due[1..][..n - 1];
    }
  }

  lemma RecordedIsMark(e: OutboxEvent, now: int, a: Attempt)
    requires e.status == Pending && !Aborts(a)
    ensures MarkRow(e.id, MarkFor(e, now, a))(e) == Recorded(e, now, a)
  {
  }

  /** A batch that goes through records every event of it in its own row and leaves the other rows alone. */
  lemma {:induction false} BatchWrites(
      rows: seq<OutboxEvent>, events: seq<OutboxEvent>, now: int, env: OutboxEvent -> Attempt)
    requires UniqueIds(rows) && UniqueIds(events)
    requires forall e :: e in events ==> e in rows && e.status == Pending && !Aborts(env(e))
    ensures var after := RunBatch(rows, events, now, env);
            && |after| == |rows|
            && forall i :: 0 <= i < |rows| ==>
                 after[i] == if rows[i] in events then Recorded(rows[i], now, env(rows[i])) else rows[i]
    decreases |events|
  {
    if events != [] {
      var e, rest := events[0], events[1..];
      assert e in events;
      var next := Dispatch(rows, e, now, env(e));
      RecordedIsMark(e, now, env(e));
      DispatchKeepsIds(rows, e, now, env(e));
      forall x | x in rest ensures x in next && x.id != e.id {
        var k :| 0 <= k < |rest| && rest[k] == x;
        assert Differ(IdOf)(events[0], events[k + 1]);
        assert IdOf(e) != IdOf(x) && events[k + 1] in events;
        var i :| 0 <= i < |rows| && rows[i] == x;
        assert next[i] == x;
      }
      assert UniqueIds(rest) by {
        forall i, j | 0 <= i < j < |rest| ensures Differ(IdOf)(rest[i], rest[j]) {
          assert Differ(IdOf)(events[i + 1], events[j + 1]);
        }
      }
      BatchWrites(next, rest, now, env);
      forall i | 0 <= i < |rows|
        ensures RunBatch(rows, events, now, env)[i]
             == if rows[i] in events then Recorded(rows[i], now, env(rows[i])) else rows[i]
      {
        if rows[i].id == e.id {
          DistinctMembers(IdOf, rows, rows[i], e);
          assert next[i] == Recorded(e, now, env(e)) && next[i].id == e.id;
        } else {
          assert next[i] == rows[i];
        }
      }
    }
  }

  /** The first 50 due events are recorded, the other rows are as they were. */
  ghost predicate BatchRecorded(
      before: seq<OutboxEvent>, after: seq<OutboxEvent>, now: int, env: OutboxEvent -> Attempt) {
    && |after| == |before|
    && forall i :: 0 <= i < |before| ==>
         after[i] == if before[i] in Take(50, DueRows(before, now)) then Recorded(before[i], now, env(before[i]))
                     else before[i]
  }

  /** One pass records the first 50 due events, each in its own row, and leaves every other row alone. */
  lemma PassWrites(rows: seq<OutboxEvent>, now: int, env: OutboxEvent -> Attempt)
    requires UniqueIds(rows)
    requires var batch := Take(50, DueRows(rows, now)); forall k :: 0 <= k < |batch| ==> !Aborts(env(batch[k]))
    ensures BatchRecorded(rows, Pass(rows, now, env), now, env)
  {
    var batch := Take(50, DueRows(rows, now));
    assert FetchPending(rows, now, BATCH_SIZE) == batch by { FetchPendingIs(rows, now); }
    assert batch == DueRows(rows, now)[..|batch|];
    DuePrefix(rows, now, |batch|);
    forall e | e in batch ensures !Aborts(env(e)) {
      var k :| 0 <= k < |batch| && batch[k] == e;
    }
    BatchWrites(rows, batch, now, env);
  }

  lemma DuePrefix(rows: seq<OutboxEvent>, now: int, n: nat)
    requires UniqueIds(rows) && n <= |DueRows(rows, now)|
    ensures var first := DueRows(rows, now)[..n];
            UniqueIds(first) && forall e :: e in first ==> e in rows && e.status == Pending
  {
    var due, first := DueRows(rows, now), DueRows(rows, now)[..n];
    FetchPendingIs(rows, now);
    DueIs(rows, now);
    FilterSorted(Due(now), Differ(IdOf), rows);
    forall i, j | 0 <= i < j < |first| ensures Differ(IdOf)(first[i], first[j]) {
      assert Differ(IdOf)(due[i], due[j]);
    }
    forall e | e in first ensures e in rows && e.status == Pending {
      assert e in due;
    }
  }

  lemma {:induction false} BatchStops(
      rows: seq<OutboxEvent>, events: seq<OutboxEvent>, k: nat, now: int, env: OutboxEvent -> Attempt)
    requires k < |events| && Aborts(env(events[k])) && forall j :: 0 <= j < k ==> !Aborts(env(events[j]))
    ensures RunBatch(rows, events, now, env) == RunBatch(rows, events[..k], now, env)
    decreases k
  {
    if k > 0 {
      var next := Dispatch(rows, events[0], now, env(events[0]));
      assert events[..k][1..] == events[1..][..k - 1];
      forall j | 0 <= j < k - 1 ensures !Aborts(env(events[1..][j])) {
        assert events[1..][j] == events[j + 1];
      }
      BatchStops(next, events[1..], k - 1, now, env);
    }
  }

  /** A failure that cannot be recorded ends the pass: what came before it is recorded, the rest left for later. */
  lemma PassStopsAtAbort(rows: seq<OutboxEvent>, k: nat, now: int, env: OutboxEvent -> Attempt)
    requires UniqueIds(rows) && k < |Take(50, DueRows(rows, now))| && Aborts(env(DueRows(rows, now)[k]))
    requires forall j :: 0 <= j < k ==> !Aborts(env(DueRows(rows, now)[j]))
    ensures var after := Pass(rows, now, env);
            && |after| == |rows|
            && forall i :: 0 <= i < |rows| ==>
                 after[i] == if rows[i] in DueRows(rows, now)[..k] then Recorded(rows[i], now, env(rows[i]))
                             else rows[i]
  {
    var batch := Take(50, DueRows(rows, now));
    assert FetchPending(rows, now, BATCH_SIZE) == batch by { FetchPendingIs(rows, now); }
    assert batch[..k] == DueRows(rows, now)[..k];
    BatchStops(rows, batch, k, now, env);
    DuePrefix(rows, now, k);
    BatchWrites(rows, DueRows(rows, now)[..k], now, env);
  }

  function Least(a: nat, b: nat): nat {
    if a <= b then a else b
  }

  lemma PassTakesBatch(rows: seq<OutboxEvent>, now: int, env: OutboxEvent -> Attempt)
    requires UniqueIds(rows) && NeverAborts(env)
    ensures var due := DueRows(rows, now);
            var first := Least(50, |due|);
            && FetchPending(rows, now, BATCH_SIZE) == due[..first]
            && UniqueIds(Pass(rows, now, env))
            && DueRows(Pass(rows, now, env), now) == due[first..]
  {
    DueIs(rows, now);
    DueIs(Pass(rows, now, env), now);
    var due := DueRows(rows, now);
    var first := Least(BATCH_SIZE, |due|);
    assert FetchPending(rows, now, BATCH_SIZE) == due[..first];
    BatchTakesPrefix(rows, first, now, env);
  }

  /** Dispatching a first batch and then up to `limit` of the rest dispatches a prefix. */
  lemma BatchThenRest<T>(due: seq<T>, first: nat, limit: nat)
    requires first == Least(50, |due|)
    ensures var rest := due[first..];
            var n := Least(50 + limit, |due|);
            && due[..first] + rest[..Least(limit, |rest|)] == due[..n]
            && rest[Least(limit, |rest|)..] == due[n..]
  {
  }

  /** `k` passes at the same instant leave the due events after the first 50 * k of them. */
  function Passes(rows: seq<OutboxEvent>, now: int, env: OutboxEvent -> Attempt, k: nat): (after: seq<OutboxEvent>)
    requires UniqueIds(rows) && NeverAborts(env)
    ensures var due := DueRows(rows, now);
            DueRows(after, now) == due[Least(50 * k, |due|)..]
    decreases k
  {
    if k == 0 then rows
    else
      PassTakesBatch(rows, now, env);
      BatchThenRest(DueRows(rows, now), Least(50, |DueRows(rows, now)|), 50 * (k - 1));
      Passes(Pass(rows, now, env), now, env, k - 1)
  }

  /** The events `k` passes dispatch: the first 50 * k due ones, in order, each exactly once. */
  function Dispatched(rows: seq<OutboxEvent>, now: int, env: OutboxEvent -> Attempt, k: nat): (done: seq<OutboxEvent>)
    requires UniqueIds(rows) && NeverAborts(env)
    ensures var due := DueRows(rows, now);
            done == due[..Least(50 * k, |due|)]
    decreases k
  {
    if k == 0 then []
    else
      PassTakesBatch(rows, now, env);
      BatchThenRest(DueRows(rows, now), Least(50, |DueRows(rows, now)|), 50 * (k - 1));
      FetchPending(rows, now, BATCH_SIZE) + Dispatched(Pass(rows, now, env), now, env, k - 1)
  }

  /** n due events are drained by ceil(n/50) passes, and by no fewer. */
  lemma DrainedIff(rows: seq<OutboxEvent>, now: int, env: OutboxEvent -> Attempt, k: nat)
    requires UniqueIds(rows) && NeverAborts(env)
    ensures var n := |DueRows(rows, now)|;
            && (DueRows(Passes(rows, now, env, k), now) == [] <==> k >= (n + 49) / 50)
            && (k >= (n + 49) / 50 ==> Dispatched(rows, now, env, k) == DueRows(rows, now))
  {
    var due := DueRows(rows, now);
    assert DueRows(Passes(rows, now, env, k), now) == due[Least(50 * k, |due|)..];
    assert Dispatched(rows, now, env, k) == due[..Least(50 * k, |due|)];
  }

  /** Every pending event that has become available is dispatched, whatever it failed before. */
  lemma AvailableIsDispatched(
      rows: seq<OutboxEvent>, now: int, env: OutboxEvent -> Attempt, k: nat, e: OutboxEvent)
    requires UniqueIds(rows) && NeverAborts(env) && k >= (|DueRows(rows, now)| + 49) / 50
    requires e in rows && e.status == Pending && e.availableAt <= now
    ensures e in Dispatched(rows, now, env, k)
  {
    DrainedIff(rows, now, env, k);
    FetchPendingIs(rows, now);
  }
}
