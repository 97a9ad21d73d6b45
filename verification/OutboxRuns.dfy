/** Every run of one dispatcher, with timer ticks, crashes and events written at any moment. */
module OutboxRuns {
  import opened Outcomes
  import opened Sequences
  import opened Outbox

  /** A batch being worked through: the fetched copies still to dispatch and the pass's instant. */
  datatype Batch = Batch(remaining: seq<OutboxEvent>, now: int)

  // `history` and `handled` record what happened to each event; the program keeps neither.
  datatype State = State(
    rows: seq<OutboxEvent>, inFlight: Option<Batch>, history: map<int, seq<int>>, handled: set<int>)

  datatype Step =
    | Tick(now: int)
    | DispatchNext(attempt: Attempt)
    | CrashAfterHandling
    | Crash
    | Written(event: OutboxEvent)

  const INITIAL := State([], None, map[], {})

  function HistoryOf(h: map<int, seq<int>>, id: int): seq<int> {
    if id in h then h[id] else []
  }

  predicate HandlerSucceeded(a: Attempt) {
    a.Handled? || a.PublishMarkThrows?
  }

  predicate RecordsFailure(a: Attempt) {
    !a.Handled? && !Aborts(a)
  }

  function AfterHead(b: Batch): Option<Batch> {
    if |b.remaining| <= 1 then None else Some(b.(remaining := b.remaining[1..]))
  }

  function DispatchHead(s: State, b: Batch, a: Attempt): State
    requires b.remaining != []
  {
    var e := b.remaining[0];
    State(
      Dispatch(s.rows, e, b.now, a),
      if Aborts(a) then None else AfterHead(b),
      if RecordsFailure(a) then s.history[e.id := HistoryOf(s.history, e.id) + [b.now]] else s.history,
      if HandlerSucceeded(a) then s.handled + {e.id} else s.handled)
  }

  predicate Fresh(rows: seq<OutboxEvent>, e: OutboxEvent) {
    e.status == Pending && e.attempts == 0 && forall x :: x in rows ==> x.id != e.id
  }

  /** A tick that finds a batch in flight does nothing; a crash forgets the batch, not the rows. */
  function Next(s: State, step: Step): State {
    match step
    case Tick(now) =>
      if s.inFlight.Some? then s
      else
        var events := FetchPending(s.rows, now, BATCH_SIZE);
        if events == [] then s else s.(inFlight := Some(Batch(events, now)))
    case DispatchNext(a) =>
      if s.inFlight.None? || s.inFlight.value.remaining == [] then s else DispatchHead(s, s.inFlight.value, a)
    case CrashAfterHandling =>
      if s.inFlight.None? || s.inFlight.value.remaining == [] then s
      else s.(inFlight := None, handled := s.handled + {s.inFlight.value.remaining[0].id})
    case Crash => s.(inFlight := None)
    case Written(e) => if Fresh(s.rows, e) then s.(rows := s.rows + [e]) else s
  }

  function Run(s: State, steps: seq<Step>): State
    decreases |steps|
  {
    if steps == [] then s else Run(Next(s, steps[0]), steps[1..])
  }

  /** Each recorded failure waits out the backoff that the one before it set. */
  ghost predicate Spaced(h: seq<int>) {
    forall j :: 0 <= j < |h| - 1 ==> h[j + 1] >= h[j] + RETRY_BACKOFF_MS * (j + 1)
  }

  ghost predicate RowHolds(e: OutboxEvent, h: seq<int>, handled: set<int>) {
    && e.attempts == |h| <= MAX_ATTEMPTS
    && Spaced(h)
    && (e.status == Pending ==> |h| < MAX_ATTEMPTS)
    && (e.status == Pending && h != [] ==> e.availableAt == h[|h| - 1] + RETRY_BACKOFF_MS * |h|)
    && (e.status == Published ==> e.id in handled)
  }

  ghost predicate RowsHold(s: State) {
    forall e :: e in s.rows ==> RowHolds(e, HistoryOf(s.history, e.id), s.handled)
  }

  /** Fetched copies are still what the table holds: no one else writes the rows of a batch. */
  ghost predicate BatchCurrent(rows: seq<OutboxEvent>, b: Batch) {
    && DistinctBy(IdOf, b.remaining)
    && forall e :: e in b.remaining ==> e in rows && Due(b.now)(e)
  }

  ghost predicate HistoryKnown(s: State) {
    forall k :: k in s.history ==> exists e :: e in s.rows && e.id == k
  }

  ghost predicate Valid(s: State) {
    && UniqueIds(s.rows)
    && RowsHold(s)
    && HistoryKnown(s)
    && (s.inFlight.Some? ==> BatchCurrent(s.rows, s.inFlight.value))
  }

  /** The k-th failure comes at least 2500 * k * (k - 1) ms after the first (`k` counted from 0 here). */
  lemma {:induction false} BackoffAddsUp(h: seq<int>, k: nat)
    requires Spaced(h) && k < |h|
    ensures h[k] >= h[0] + 2500 * (k + 1) * k
  {
    if k > 0 {
      BackoffAddsUp(h, k - 1);
      assert h[k - 1 + 1] >= h[k - 1] + RETRY_BACKOFF_MS * k;
    }
  }

  // ---- one dispatch ----

  lemma RowAfterDispatch(e: OutboxEvent, b: Batch, a: Attempt, h: seq<int>, handled: set<int>)
    requires RowHolds(e, h, handled) && Due(b.now)(e) && !Aborts(a)
    ensures RowHolds(
              Marked(e, MarkFor(e, b.now, a)),
              if RecordsFailure(a) then h + [b.now] else h,
              if HandlerSucceeded(a) then handled + {e.id} else handled)
  {
    var g := h + [b.now];
    forall j | 0 <= j < |g| - 1 ensures g[j + 1] >= g[j] + RETRY_BACKOFF_MS * (j + 1) {
      if j < |h| - 1 {
        assert h[j + 1] >= h[j] + RETRY_BACKOFF_MS * (j + 1);
      }
    }
  }

  /** A dispatch rewrites exactly the dispatched row. */
  lemma DispatchedRow(rows: seq<OutboxEvent>, e: OutboxEvent, now: int, a: Attempt, x: OutboxEvent)
    requires UniqueIds(rows) && e in rows && e.status == Pending && !Aborts(a)
    ensures x in Dispatch(rows, e, now, a) <==> (x in rows && x.id != e.id) || x == Marked(e, MarkFor(e, now, a))
  {
    var after := Dispatch(rows, e, now, a);
    var f := MarkRow(e.id, MarkFor(e, now, a));
    if x in after {
      var i :| 0 <= i < |after| && after[i] == x;
      assert after[i] == f(rows[i]) && rows[i] in rows;
      if rows[i].id == e.id {
        DistinctMembers(IdOf, rows, rows[i], e);
      }
    }
    if x in rows && x.id != e.id {
      var i :| 0 <= i < |rows| && rows[i] == x;
      assert after[i] == f(rows[i]);
    }
    var i :| 0 <= i < |rows| && rows[i] == e;
    assert after[i] == f(rows[i]);
  }

  lemma DispatchedRowHolds(s: State, b: Batch, a: Attempt, x: OutboxEvent)
    requires b.remaining != [] && !Aborts(a)
    requires UniqueIds(s.rows) && b.remaining[0] in s.rows && Due(b.now)(b.remaining[0])
    requires RowHolds(b.remaining[0], HistoryOf(s.history, b.remaining[0].id), s.handled)
    requires x in s.rows ==> RowHolds(x, HistoryOf(s.history, x.id), s.handled)
    requires x in DispatchHead(s, b, a).rows
    ensures RowHolds(x, HistoryOf(DispatchHead(s, b, a).history, x.id), DispatchHead(s, b, a).handled)
  {
    var e := b.remaining[0];
    DispatchedRow(s.rows, e, b.now, a, x);
    if x.id == e.id {
      RowAfterDispatch(e, b, a, HistoryOf(s.history, e.id), s.handled);
    } else {
      assert HistoryOf(DispatchHead(s, b, a).history, x.id) == HistoryOf(s.history, x.id);
      MoreHandled(x, HistoryOf(s.history, x.id), s.handled, DispatchHead(s, b, a).handled);
    }
  }

  lemma MoreHandled(e: OutboxEvent, h: seq<int>, handled: set<int>, more: set<int>)
    requires RowHolds(e, h, handled) && handled <= more
    ensures RowHolds(e, h, more)
  {
  }

  lemma DispatchKeepsRows(s: State, b: Batch, a: Attempt)
    requires Valid(s) && s.inFlight == Some(b) && b.remaining != [] && !Aborts(a)
    ensures RowsHold(DispatchHead(s, b, a))
  {
    assert b.remaining[0] in b.remaining;
    forall x | x in DispatchHead(s, b, a).rows
      ensures RowHolds(x, HistoryOf(DispatchHead(s, b, a).history, x.id), DispatchHead(s, b, a).handled)
    {
      DispatchedRowHolds(s, b, a, x);
    }
  }

  lemma DispatchKeepsBatch(s: State, b: Batch, a: Attempt)
    requires Valid(s) && s.inFlight == Some(b) && |b.remaining| > 1 && !Aborts(a)
    ensures BatchCurrent(DispatchHead(s, b, a).rows, AfterHead(b).value)
  {
    var e := b.remaining[0];
    assert e in b.remaining;
    var rest := b.remaining[1..];
    forall i, j | 0 <= i < j < |rest| ensures Differ(IdOf)(rest[i], rest[j]) {
      assert Differ(IdOf)(b.remaining[i + 1], b.remaining[j + 1]);
    }
    forall i | 0 <= i < |rest| ensures rest[i] in DispatchHead(s, b, a).rows && Due(b.now)(rest[i]) {
      assert Differ(IdOf)(b.remaining[0], b.remaining[i + 1]);
      assert IdOf(e) != IdOf(rest[i]);
      assert b.remaining[i + 1] in b.remaining;
      DispatchedRow(s.rows, e, b.now, a, rest[i]);
    }
  }

  lemma DispatchKeepsHistoryKnown(s: State, b: Batch, a: Attempt)
    requires Valid(s) && s.inFlight == Some(b) && b.remaining != [] && !Aborts(a)
    ensures HistoryKnown(DispatchHead(s, b, a))
  {
    var e := b.remaining[0];
    assert e in b.remaining;
    var t := DispatchHead(s, b, a);
    forall k | k in t.history ensures exists x :: x in t.rows && x.id == k {
      var marked := Marked(e, MarkFor(e, b.now, a));
      if k == e.id {
        DispatchedRow(s.rows, e, b.now, a, marked);
        assert marked in t.rows && marked.id == k;
      } else {
        var x :| x in s.rows && x.id == k;
        DispatchedRow(s.rows, e, b.now, a, x);
      }
    }
  }

  lemma DispatchKeepsValid(s: State, b: Batch, a: Attempt)
    requires Valid(s) && s.inFlight == Some(b) && b.remaining != []
    ensures Valid(DispatchHead(s, b, a))
  {
    assert b.remaining[0] in b.remaining;
    if Aborts(a) {
      var t := DispatchHead(s, b, a);
      assert t.rows == s.rows && t.history == s.history && s.handled <= t.handled;
      forall x | x in t.rows ensures RowHolds(x, HistoryOf(t.history, x.id), t.handled) {
        assert RowHolds(x, HistoryOf(s.history, x.id), s.handled);
      }
    } else {
      DispatchKeepsIds(s.rows, b.remaining[0], b.now, a);
      DispatchKeepsRows(s, b, a);
      DispatchKeepsHistoryKnown(s, b, a);
      if |b.remaining| > 1 {
        DispatchKeepsBatch(s, b, a);
      }
    }
  }

  // ---- the other steps ----

  lemma TickKeepsValid(s: State, now: int)
    requires Valid(s) && s.inFlight.None?
    ensures Valid(Next(s, Tick(now)))
  {
    var due := Filter(Due(now), s.rows);
    FilterSorted(Due(now), Differ(IdOf), s.rows);
    var events := FetchPending(s.rows, now, BATCH_SIZE);
    forall i, j | 0 <= i < j < |events| ensures Differ(IdOf)(events[i], events[j]) {
      assert Differ(IdOf)(due[i], due[j]);
    }
    forall e | e in events ensures e in s.rows && Due(now)(e) {
      assert e in due;
    }
  }

  lemma WrittenKeepsValid(s: State, e: OutboxEvent)
    requires Valid(s) && Fresh(s.rows, e)
    ensures Valid(Next(s, Written(e)))
  {
    var t := Next(s, Written(e));
    forall i, j | 0 <= i < j < |t.rows| ensures Differ(IdOf)(t.rows[i], t.rows[j]) {
      if j < |s.rows| {
        assert Differ(IdOf)(s.rows[i], s.rows[j]);
      } else {
        assert s.rows[i] in s.rows;
        assert IdOf(t.rows[i]) != IdOf(t.rows[j]);
      }
    }
    assert e.id !in s.history;
    forall k | k in t.history ensures exists x :: x in t.rows && x.id == k {
      var x :| x in s.rows && x.id == k;
      assert x in t.rows;
    }
  }

  lemma HandledOnlyGrows(s: State, t: State)
    requires Valid(s) && t.rows == s.rows && t.history == s.history && s.handled <= t.handled && t.inFlight.None?
    ensures Valid(t)
  {
    forall x | x in t.rows ensures RowHolds(x, HistoryOf(t.history, x.id), t.handled) {
      assert RowHolds(x, HistoryOf(s.history, x.id), s.handled);
    }
    forall k | k in t.history ensures exists x :: x in t.rows && x.id == k {
      assert k in s.history;
    }
  }

  lemma NextKeepsValid(s: State, step: Step)
    requires Valid(s)
    ensures Valid(Next(s, step))
  {
    match step
    case Tick(now) => if s.inFlight.None? { TickKeepsValid(s, now); }
    case DispatchNext(a) =>
      if s.inFlight.Some? && s.inFlight.value.remaining != [] { DispatchKeepsValid(s, s.inFlight.value, a); }
    case CrashAfterHandling =>
      if s.inFlight.Some? && s.inFlight.value.remaining != [] { HandledOnlyGrows(s, Next(s, step)); }
    case Crash => HandledOnlyGrows(s, Next(s, step));
    case Written(e) => if Fresh(s.rows, e) { WrittenKeepsValid(s, e); }
  }

  /** Finished events keep their row, and nothing recorded is forgotten. */
  ghost predicate Absorbs(s: State, t: State) {
    && (forall e :: e in s.rows && e.status != Pending ==> e in t.rows)
    && s.handled <= t.handled
  }

  lemma NextAbsorbs(s: State, step: Step)
    requires Valid(s)
    ensures Absorbs(s, Next(s, step))
  {
    if step.DispatchNext? && s.inFlight.Some? && s.inFlight.value.remaining != [] && !Aborts(step.attempt) {
      var b := s.inFlight.value;
      var head := b.remaining[0];
      assert head in b.remaining;
      forall e | e in s.rows && e.status != Pending ensures e in Next(s, step).rows {
        if e.id == head.id {
          DistinctMembers(IdOf, s.rows, e, head);
        }
        DispatchedRow(s.rows, head, b.now, step.attempt, e);
      }
    }
  }

  /**
   * Over every run: attempts count the recorded failures and never pass ten, failures keep their
   * backoff distance, a published event was handled, and published and failed events stay as they are.
   */
  lemma {:induction false} RunKeepsValid(s: State, steps: seq<Step>)
    requires Valid(s)
    ensures Valid(Run(s, steps)) && Absorbs(s, Run(s, steps))
    decreases |steps|
  {
    if steps != [] {
      NextKeepsValid(s, steps[0]);
      NextAbsorbs(s, steps[0]);
      RunKeepsValid(Next(s, steps[0]), steps[1..]);
    }
  }

  lemma DeliveryGuarantees(steps: seq<Step>, e: OutboxEvent)
    requires e in Run(INITIAL, steps).rows
    ensures var s := Run(INITIAL, steps);
            var h := HistoryOf(s.history, e.id);
            && e.attempts == |h| <= MAX_ATTEMPTS
            && (forall k :: 0 <= k < |h| ==> h[k] >= h[0] + 2500 * (k + 1) * k)
            && (e.status == Published ==> e.id in s.handled)
            && (e.status == Pending ==> |h| < MAX_ATTEMPTS)
  {
    RunKeepsValid(INITIAL, steps);
    var s := Run(INITIAL, steps);
    assert RowHolds(e, HistoryOf(s.history, e.id), s.handled);
    var h := HistoryOf(s.history, e.id);
    forall k | 0 <= k < |h| ensures h[k] >= h[0] + 2500 * (k + 1) * k {
      BackoffAddsUp(h, k);
    }
  }
}
