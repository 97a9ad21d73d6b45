/** That due events are fetched and dispatched, again and again, until they are published or have failed. */
module OutboxDelivery {
  import opened Sequences
  import opened Outcomes
  import opened Outbox
  import opened OutboxRuns

  // ---- over runs with crashes ----

  /** A tick with no batch in flight fetches the due rows, at most the first 50 of them. */
  lemma TickFetchesDue(s: State, now: int)
    requires s.inFlight == None
    ensures Next(s, Tick(now))
         == if DueRows(s.rows, now) == [] then s
            else s.(inFlight := Some(Batch(Take(50, DueRows(s.rows, now)), now)))
  {
    FetchPendingIs(s.rows, now);
  }

  function Dispatches(attempts: seq<Attempt>): seq<Step> {
    if attempts == [] then [] else [DispatchNext(attempts[0])] + Dispatches(attempts[1..])
  }

  ghost predicate Elsewhere(x: OutboxEvent, events: seq<OutboxEvent>) {
    forall k :: 0 <= k < |events| ==> events[k].id != x.id
  }

  lemma HeadRecorded(s: State, b: Batch, a: Attempt)
    requires Valid(s) && s.inFlight == Some(b) && b.remaining != [] && !Aborts(a)
    ensures var s1 := Next(s, DispatchNext(a));
            && Valid(s1) && s1.inFlight == AfterHead(b) && Recorded(b.remaining[0], b.now, a) in s1.rows
            && (forall x :: x in s.rows && x.id != b.remaining[0].id ==> x in s1.rows)
    ensures Elsewhere(b.remaining[0], b.remaining[1..])
  {
    var e := b.remaining[0];
    assert e in b.remaining;
    var s1 := DispatchHead(s, b, a);
    RecordedIsMark(e, b.now, a);
    DispatchedRow(s.rows, e, b.now, a, Recorded(e, b.now, a));
    forall x | x in s.rows && x.id != e.id ensures x in s1.rows {
      DispatchedRow(s.rows, e, b.now, a, x);
    }
    NextKeepsValid(s, DispatchNext(a));
    forall k | 0 <= k < |b.remaining[1..]| ensures b.remaining[1..][k].id != e.id {
      assert Differ(IdOf)(b.remaining[0], b.remaining[k + 1]);
      assert IdOf(e) != IdOf(b.remaining[k + 1]);
    }
  }

  /** Every event of a batch has the result of its attempt in a row; rows of other events are still there. */
  ghost predicate AllRecorded(
      events: seq<OutboxEvent>, now: int, attempts: seq<Attempt>, before: seq<OutboxEvent>, after: seq<OutboxEvent>)
    requires |attempts| == |events|
  {
    && (forall k :: 0 <= k < |attempts| ==> Recorded(events[k], now, attempts[k]) in after)
    && (forall x :: x in before && Elsewhere(x, events) ==> x in after)
  }

  lemma HeadThenRest(
      events: seq<OutboxEvent>, now: int, attempts: seq<Attempt>,
      before: seq<OutboxEvent>, between: seq<OutboxEvent>, after: seq<OutboxEvent>)
    requires |attempts| == |events| > 0 && Elsewhere(events[0], events[1..])
    requires Recorded(events[0], now, attempts[0]) in between
    requires forall x :: x in before && x.id != events[0].id ==> x in between
    requires AllRecorded(events[1..], now, attempts[1..], between, after)
    ensures AllRecorded(events, now, attempts, before, after)
  {
    assert Elsewhere(Recorded(events[0], now, attempts[0]), events[1..]);
    forall k | 0 < k < |attempts| ensures Recorded(events[k], now, attempts[k]) in after {
      assert events[1..][k - 1] == events[k] && attempts[1..][k - 1] == attempts[k];
    }
    forall x | x in before && Elsewhere(x, events) ensures x in after {
      assert x in between && Elsewhere(x, events[1..]);
    }
  }

  lemma RunDispatches(s: State, attempts: seq<Attempt>)
    requires attempts != []
    ensures Run(s, Dispatches(attempts)) == Run(Next(s, DispatchNext(attempts[0])), Dispatches(attempts[1..]))
  {
    assert Dispatches(attempts)[1..] == Dispatches(attempts[1..]);
  }

  /** Attempts whose results can all be recorded finish the batch. */
  lemma {:induction false} BatchRunsOut(s: State, b: Batch, attempts: seq<Attempt>)
    requires Valid(s) && s.inFlight == Some(b) && |attempts| == |b.remaining| > 0
    requires forall k :: 0 <= k < |attempts| ==> !Aborts(attempts[k])
    ensures Run(s, Dispatches(attempts)).inFlight == None
    ensures AllRecorded(b.remaining, b.now, attempts, s.rows, Run(s, Dispatches(attempts)).rows)
    decreases |attempts|
  {
    var s1 := Next(s, DispatchNext(attempts[0]));
    HeadRecorded(s, b, attempts[0]);
    RunDispatches(s, attempts);
    if |attempts| > 1 {
      BatchRunsOut(s1, AfterHead(b).value, attempts[1..]);
    }
    HeadThenRest(b.remaining, b.now, attempts, s.rows, s1.rows, Run(s, Dispatches(attempts)).rows);
  }

  /**
   * In every run: a pending event has failed fewer than ten times, and once it is available and among the first
   * 50 due, the next pass that gets through records an attempt at it.
   */
  lemma DueIsAttempted(steps: seq<Step>, now: int, attempts: seq<Attempt>, e: OutboxEvent)
    requires Run(INITIAL, steps).inFlight == None && e in Run(INITIAL, steps).rows
    requires e.status == Pending && e.availableAt <= now && e in Take(50, DueRows(Run(INITIAL, steps).rows, now))
    requires |attempts| == |Take(50, DueRows(Run(INITIAL, steps).rows, now))|
    requires forall k :: 0 <= k < |attempts| ==> !Aborts(attempts[k])
    ensures e.attempts < 10
    ensures exists k :: 0 <= k < |attempts| &&
              Recorded(e, now, attempts[k]) in Run(Run(INITIAL, steps), [Tick(now)] + Dispatches(attempts)).rows
  {
    var s := Run(INITIAL, steps);
    RunKeepsValid(INITIAL, steps);
    assert RowHolds(e, HistoryOf(s.history, e.id), s.handled);
    TickFetchesDue(s, now);
    NextKeepsValid(s, Tick(now));
    var b := Batch(Take(50, DueRows(s.rows, now)), now);
    var k :| 0 <= k < |b.remaining| && b.remaining[k] == e;
    assert Next(s, Tick(now)).inFlight == Some(b);
    BatchRunsOut(Next(s, Tick(now)), b, attempts);
    assert ([Tick(now)] + Dispatches(attempts))[1..] == Dispatches(attempts);
    assert Recorded(e, now, attempts[k]) in Run(s, [Tick(now)] + Dispatches(attempts)).rows;
  }

  /** A crash or an abort loses the batch but no event of it: each is still due and will be fetched again. */
  lemma InterruptedIsStillDue(s: State, b: Batch, step: Step, e: OutboxEvent, now: int)
    requires Valid(s) && s.inFlight == Some(b) && e in b.remaining && b.now <= now
    requires step in {Crash, CrashAfterHandling} || (step.DispatchNext? && Aborts(step.attempt))
    ensures var s1 := Next(s, step);
            && s1.inFlight == None && s1.rows == s.rows && e in DueRows(s1.rows, now)
            && Next(s1, Tick(now)).inFlight == Some(Batch(Take(50, DueRows(s.rows, now)), now))
  {
    assert Due(b.now)(e) && e in s.rows;
    FetchPendingIs(s.rows, now);
    TickFetchesDue(Next(s, step), now);
  }

  // ---- passes over time ----

  function PassesAt(rows: seq<OutboxEvent>, nows: seq<int>, env: OutboxEvent -> Attempt): seq<OutboxEvent>
    decreases |nows|
  {
    if nows == [] then rows else PassesAt(Pass(rows, nows[0], env), nows[1..], env)
  }

  function CountPending(rows: seq<OutboxEvent>): nat {
    if rows == [] then 0 else (if rows[0].status == Pending then 1 else 0) + CountPending(rows[1..])
  }

  lemma {:induction false} DueArePending(rows: seq<OutboxEvent>, now: int)
    ensures |DueRows(rows, now)| <= CountPending(rows)
  {
    if rows != [] { DueArePending(rows[1..], now); }
  }

  lemma {:induction false} NoMorePending(before: seq<OutboxEvent>, after: seq<OutboxEvent>)
    requires |after| == |before|
    requires forall i :: 0 <= i < |before| && after[i].status == Pending ==> before[i].status == Pending
    ensures CountPending(after) <= CountPending(before)
  {
    if before != [] { NoMorePending(before[1..], after[1..]); }
  }

  /** With no more than 50 events pending, a pass records an attempt at every one that is available. */
  lemma PassAttempts(rows: seq<OutboxEvent>, now: int, env: OutboxEvent -> Attempt, i: nat)
    requires UniqueIds(rows) && NeverAborts(env) && CountPending(rows) <= 50 && i < |rows|
    ensures var after := Pass(rows, now, env);
            && UniqueIds(after) && |after| == |rows| && CountPending(after) <= 50
            && after[i] == if rows[i].status == Pending && rows[i].availableAt <= now then
                             Recorded(rows[i], now, env(rows[i]))
                           else rows[i]
  {
    DueArePending(rows, now);
    FetchPendingIs(rows, now);
    PassWrites(rows, now, env);
    PassTakesBatch(rows, now, env);
    var after := Pass(rows, now, env);
    forall j | 0 <= j < |rows| && after[j].status == Pending ensures rows[j].status == Pending {
      assert rows[j] in DueRows(rows, now) ==> rows[j].status == Pending;
    }
    NoMorePending(rows, after);
    assert rows[i] in rows;
  }

  /** Instants at which an event, put off after each failure, is available again. */
  ghost predicate Patient(nows: seq<int>, availableAt: int, attempts: nat)
    decreases |nows|
  {
    nows != [] ==>
      availableAt <= nows[0] && Patient(nows[1..], nows[0] + 5000 * (attempts + 1), attempts + 1)
  }

  /** An event whose handler keeps throwing is tried at every such pass, and the tenth failure is its last. */
  lemma {:induction false} RetriedUntilTenth(
      rows: seq<OutboxEvent>, i: nat, nows: seq<int>, env: OutboxEvent -> Attempt)
    requires UniqueIds(rows) && NeverAborts(env) && CountPending(rows) <= 50 && i < |rows|
    requires rows[i].status == Pending && rows[i].attempts + |nows| <= 10 && rows[i].attempts < 10
    requires forall x: OutboxEvent :: x.id == rows[i].id ==> env(x).HandlerThrows?
    requires Patient(nows, rows[i].availableAt, rows[i].attempts)
    ensures var after := PassesAt(rows, nows, env);
            && |after| == |rows| && after[i].attempts == rows[i].attempts + |nows|
            && after[i].status == (if rows[i].attempts + |nows| == 10 then Failed else Pending)
    decreases |nows|
  {
    if nows != [] {
      var next := Pass(rows, nows[0], env);
      PassAttempts(rows, nows[0], env, i);
      assert next[i] == Recorded(rows[i], nows[0], env(rows[i]));
      if rows[i].attempts + 1 < 10 {
        RetriedUntilTenth(next, i, nows[1..], env);
      }
    }
  }

  /** One that gets through after some failures is published, with the failures still counted. */
  lemma {:induction false} PublishedAfterFailures(
      rows: seq<OutboxEvent>, i: nat, nows: seq<int>, last: int, env: OutboxEvent -> Attempt)
    requires UniqueIds(rows) && NeverAborts(env) && CountPending(rows) <= 50 && i < |rows|
    requires rows[i].status == Pending && rows[i].attempts + |nows| < 10
    requires forall x: OutboxEvent :: x.id == rows[i].id ==>
               if x.attempts < rows[i].attempts + |nows| then env(x).HandlerThrows? else env(x).Handled?
    requires Patient(nows + [last], rows[i].availableAt, rows[i].attempts)
    ensures var after := PassesAt(rows, nows + [last], env);
            && |after| == |rows| && after[i].status == Published && after[i].publishedAt == Some(last)
            && after[i].attempts == rows[i].attempts + |nows|
    decreases |nows|
  {
    var all := nows + [last];
    var next := Pass(rows, all[0], env);
    PassAttempts(rows, all[0], env, i);
    assert next[i] == Recorded(rows[i], all[0], env(rows[i]));
    if nows != [] {
      assert all[1..] == nows[1..] + [last];
      PublishedAfterFailures(next, i, nows[1..], last, env);
    } else {
      assert all[1..] == [];
    }
  }
}
