/** Pruning is invisible, keys are independent, and how many calls a key gets through. */
module ThrottlerProperties {
  import opened Outcomes
  import opened Sequences
  import opened Throttler

  function ForKey(key: string): Call -> bool {
    (c: Call) => c.key == key
  }

  ghost predicate NonDecreasingClock(calls: seq<Call>) {
    forall i, j :: 0 <= i < j < |calls| ==> calls[i].now <= calls[j].now
  }

  /** The storage after a whole call sequence. */
  function StateAfter(calls: seq<Call>): map<string, Window> {
    if calls == [] then map[]
    else Step(StateAfter(calls[..|calls| - 1]), calls[|calls| - 1])
  }

  /** A never-pruned window fed one key's calls and nothing else. */
  function Replay(calls: seq<Call>): Option<Window> {
    if calls == [] then None
    else Some(KeyStep(Replay(calls[..|calls| - 1]), calls[|calls| - 1]))
  }

  /** The record the storage returns for call `i`. */
  function RecordAt(calls: seq<Call>, i: nat): ThrottleRecord
    requires i < |calls|
  {
    RecordOf(KeyStep(Lookup(StateAfter(calls[..i]), calls[i].key), calls[i]), calls[i].now)
  }

  /** The record a private, never-pruned window returns for call `i`. */
  function PrivateRecordAt(calls: seq<Call>, i: nat): ThrottleRecord
    requires i < |calls|
  {
    RecordOf(KeyStep(Replay(Filter(ForKey(calls[i].key), calls[..i])), calls[i]), calls[i].now)
  }

  /** The storage may have dropped a window, but only a dead one. */
  predicate Agree(stored: Option<Window>, replayed: Option<Window>, now: int) {
    stored == replayed || (stored.None? && replayed.Some? && !Live(replayed.value, now))
  }

  lemma {:induction false} FilterLast(key: string, calls: seq<Call>)
    requires calls != []
    ensures var init, last := calls[..|calls| - 1], calls[|calls| - 1];
            Filter(ForKey(key), calls)
            == Filter(ForKey(key), init) + (if last.key == key then [last] else [])
  {
    var init, last := calls[..|calls| - 1], calls[|calls| - 1];
    assert calls == init + [last];
    FilterConcat(ForKey(key), init, [last]);
    assert Filter(ForKey(key), [last]) == if last.key == key then [last] else [];
  }

  lemma ReplayLast(calls: seq<Call>, c: Call)
    ensures Replay(calls + [c]) == Some(KeyStep(Replay(calls), c))
  {
    assert (calls + [c])[..|calls|] == calls;
  }

  /** Up to dead windows, the storage holds for each key exactly what replaying that key alone gives. */
  lemma {:induction false} StateAgreesWithReplay(calls: seq<Call>, key: string, now: int)
    requires NonDecreasingClock(calls)
    requires calls != [] ==> calls[|calls| - 1].now <= now
    ensures Agree(Lookup(StateAfter(calls), key), Replay(Filter(ForKey(key), calls)), now)
    decreases |calls|
  {
    if calls != [] {
      var init, last := calls[..|calls| - 1], calls[|calls| - 1];
      StateAgreesWithReplay(init, key, last.now);
      FilterLast(key, calls);
      ReplayLast(Filter(ForKey(key), init), last);
      if last.key != key {
        assert Filter(ForKey(key), calls) == Filter(ForKey(key), init);
      }
    }
  }

  /**
   * Every record equals the one from a storage that never prunes and sees only that key's calls: the
   * sweep is invisible and no key affects another.
   */
  lemma PruningIsInvisible(calls: seq<Call>, i: nat)
    requires NonDecreasingClock(calls) && i < |calls|
    ensures RecordAt(calls, i) == PrivateRecordAt(calls, i)
  {
    StateAgreesWithReplay(calls[..i], calls[i].key, calls[i].now);
  }

  // ---- one key under the guard's settings: fixed limit, block as long as the window ----

  ghost predicate GuardCalls(calls: seq<Call>, ttl: int, limit: int) {
    && ttl > 0 && limit >= 0
    && NonDecreasingClock(calls)
    && forall i :: 0 <= i < |calls| ==>
         calls[i].now >= 0 && calls[i].ttl == ttl && calls[i].blockDuration == ttl && calls[i].limit == limit
  }

  /** Whether the last call of a key's history is let through. */
  predicate LetThrough(calls: seq<Call>)
    requires calls != []
  {
    Replay(calls).value.blockExpiresAt <= calls[|calls| - 1].now
  }

  /** Calls let through at an instant in `from <= now < to`. */
  function PassedWithin(calls: seq<Call>, from: int, to: int): nat {
    if calls == [] then 0
    else
      PassedWithin(calls[..|calls| - 1], from, to)
      + (if LetThrough(calls) && from <= calls[|calls| - 1].now < to then 1 else 0)
  }

  /** Calls let through at or after an instant. */
  function PassedSince(calls: seq<Call>, from: int): nat {
    if calls == [] then 0
    else
      PassedSince(calls[..|calls| - 1], from)
      + (if LetThrough(calls) && from <= calls[|calls| - 1].now then 1 else 0)
  }

  function MinInt(a: int, b: int): int {
    if a <= b then a else b
  }

  lemma {:induction false} PassedWithinSince(calls: seq<Call>, from: int, to: int)
    ensures PassedWithin(calls, from, to) <= PassedSince(calls, from)
  {
    if calls != [] {
      PassedWithinSince(calls[..|calls| - 1], from, to);
    }
  }

  lemma GuardInit(calls: seq<Call>, ttl: int, limit: int)
    requires GuardCalls(calls, ttl, limit) && calls != []
    ensures GuardCalls(calls[..|calls| - 1], ttl, limit)
    ensures |calls| > 1 ==> calls[..|calls| - 1][|calls| - 2].now <= calls[|calls| - 1].now
  {
  }

  /** How a guarded key's window stands: when it opened, and when it blocks. */
  lemma {:induction false} WindowShape(calls: seq<Call>, ttl: int, limit: int)
    requires GuardCalls(calls, ttl, limit) && calls != []
    ensures var w := Replay(calls).value;
            && w.totalHits >= 1
            && w.expiresAt - ttl <= calls[|calls| - 1].now
            && (w.totalHits <= limit ==> w.blockExpiresAt == 0)
            && (w.totalHits > limit ==> w.blockExpiresAt >= w.expiresAt && w.totalHits == limit + 1)
            && (LetThrough(calls) ==> w.totalHits <= limit && calls[|calls| - 1].now < w.expiresAt)
  {
    if |calls| > 1 {
      GuardInit(calls, ttl, limit);
      WindowShape(calls[..|calls| - 1], ttl, limit);
    }
  }

  /** Calls let through since `from`, in terms of the window they ended in. */
  lemma {:induction false} PassedSinceBound(calls: seq<Call>, ttl: int, limit: int, from: int)
    requires GuardCalls(calls, ttl, limit) && calls != []
    ensures var w := Replay(calls).value;
            var passed := PassedSince(calls, from);
            var inWindow := MinInt(w.totalHits, limit);
            && (from >= w.expiresAt ==> passed == 0)
            && (limit == 0 ==> passed == 0)
            && (limit >= 1 && from > w.expiresAt - ttl ==> passed <= inWindow - 1)
            && (limit >= 1 && from == w.expiresAt - ttl ==> passed <= inWindow)
            && (limit >= 1 && from > w.expiresAt - 2 * ttl ==> passed <= limit - 1 + inWindow)
    decreases |calls|
  {
    var init := calls[..|calls| - 1];
    WindowShape(calls, ttl, limit);
    if init != [] {
      GuardInit(calls, ttl, limit);
      WindowShape(init, ttl, limit);
      PassedSinceBound(init, ttl, limit, from);
    }
  }

  /** The most calls of a key that any interval of one window length lets through. */
  function MostPerInterval(limit: int): int {
    if limit == 0 then 0 else 2 * limit - 1
  }

  /** Any half-open interval of one window length lets at most 2 * limit - 1 calls of a key through. */
  lemma {:induction false} AtMostTwiceTheLimit(calls: seq<Call>, ttl: int, limit: int, from: int)
    requires GuardCalls(calls, ttl, limit)
    ensures PassedWithin(calls, from, from + ttl) <= MostPerInterval(limit)
    decreases |calls|
  {
    if calls != [] {
      GuardInit(calls, ttl, limit);
      AtMostTwiceTheLimit(calls[..|calls| - 1], ttl, limit, from);
      var now := calls[|calls| - 1].now;
      if LetThrough(calls) && from <= now < from + ttl {
        WindowShape(calls, ttl, limit);
        PassedSinceBound(calls, ttl, limit, from);
        PassedWithinSince(calls, from, from + ttl);
      }
    }
  }

  function GuardCall(key: string, now: int, ttl: int, limit: int): Call {
    Call(key, now, ttl, limit, ttl)
  }

  /** A history followed by `n` guarded calls at one instant. */
  function Burst(calls: seq<Call>, c: Call, n: nat): seq<Call> {
    if n == 0 then calls else Burst(calls, c, n - 1) + [c]
  }

  /** A call below the limit is let through and adds one hit to a window that stays open. */
  lemma HitBelowLimit(before: seq<Call>, after: seq<Call>, c: Call, w: Window, from: int, to: int)
    requires after == before + [c] && from <= c.now < to && c.now >= 0 && c.ttl > 0
    requires Resolve(Replay(before), c) == w && w.totalHits + 1 <= c.limit && w.blockExpiresAt == 0
    ensures Replay(after) == Some(w.(totalHits := w.totalHits + 1))
    ensures Resolve(Replay(after), c) == w.(totalHits := w.totalHits + 1)
    ensures PassedWithin(after, from, to) == PassedWithin(before, from, to) + 1
  {
    ReplayLast(before, c);
    assert after[..|after| - 1] == before;
  }

  /** A burst that fits in the window it lands in is let through whole. */
  lemma {:induction false} BurstPasses(calls: seq<Call>, c: Call, n: nat, from: int, to: int, w: Window)
    requires from <= c.now < to && c.now >= 0 && c.ttl > 0
    requires Resolve(Replay(calls), c) == w && w.totalHits + n <= c.limit && w.blockExpiresAt == 0
    ensures Resolve(Replay(Burst(calls, c, n)), c) == w.(totalHits := w.totalHits + n)
    ensures n > 0 ==> Replay(Burst(calls, c, n)) == Some(w.(totalHits := w.totalHits + n))
    ensures PassedWithin(Burst(calls, c, n), from, to) == PassedWithin(calls, from, to) + n
  {
    if n > 0 {
      var before, after := Burst(calls, c, n - 1), Burst(calls, c, n);
      BurstPasses(calls, c, n - 1, from, to, w);
      HitBelowLimit(before, after, c, w.(totalHits := w.totalHits + n - 1), from, to);
    }
  }

  lemma FirstCall(first: Call, ttl: int, limit: int)
    requires ttl >= 2 && limit >= 1 && first == GuardCall(first.key, 0, ttl, limit)
    ensures Replay([first]) == Some(Window(1, ttl, 0))
    ensures PassedWithin([first], ttl - 1, ttl - 1 + ttl) == 0
  {
    assert [first][..0] == [];
  }

  lemma FilledWindow(first: Call, late: Call, ttl: int, limit: int)
    requires ttl >= 2 && limit >= 1
    requires first == GuardCall(first.key, 0, ttl, limit) && late == GuardCall(first.key, ttl - 1, ttl, limit)
    ensures var calls := Burst([first], late, limit - 1);
            && Replay(calls) == Some(Window(limit, ttl, 0))
            && PassedWithin(calls, ttl - 1, ttl - 1 + ttl) == limit - 1
  {
    FirstCall(first, ttl, limit);
    BurstPasses([first], late, limit - 1, ttl - 1, ttl - 1 + ttl, Window(1, ttl, 0));
    if limit == 1 {
      assert Burst([first], late, 0) == [first];
    }
  }

  /** The bound is reached for every limit: one call, then bursts just before and at the window's end. */
  lemma BoundIsReached(key: string, ttl: int, limit: int)
    requires ttl >= 2 && limit >= 1
    ensures var first := GuardCall(key, 0, ttl, limit);
            var late := GuardCall(key, ttl - 1, ttl, limit);
            var next := GuardCall(key, ttl, ttl, limit);
            var calls := Burst(Burst([first], late, limit - 1), next, limit);
            PassedWithin(calls, ttl - 1, ttl - 1 + ttl) == MostPerInterval(limit)
  {
    var first := GuardCall(key, 0, ttl, limit);
    var late := GuardCall(key, ttl - 1, ttl, limit);
    FilledWindow(first, late, ttl, limit);
    var next := GuardCall(key, ttl, ttl, limit);
    BurstPasses(Burst([first], late, limit - 1), next, limit, ttl - 1, ttl - 1 + ttl, Window(0, 2 * ttl, 0));
  }

  /** Call `i` starts a block: it is refused and the call before it, if any, was not. */
  predicate StartsBlock(calls: seq<Call>, i: nat)
    requires i < |calls|
  {
    !LetThrough(calls[..i + 1]) && (i == 0 || LetThrough(calls[..i]))
  }

  lemma BlockBegins(calls: seq<Call>, ttl: int, limit: int, i: nat)
    requires GuardCalls(calls, ttl, limit) && i < |calls| && StartsBlock(calls, i)
    ensures Replay(calls[..i + 1]).value.blockExpiresAt == calls[i].now + ttl
  {
    assert calls[..i + 1][..i] == calls[..i];
  }

  /** A block that starts at t lets nothing through before t + ttl. */
  lemma {:induction false} BlockHolds(calls: seq<Call>, ttl: int, limit: int, i: nat, j: nat)
    requires GuardCalls(calls, ttl, limit) && i <= j < |calls| && StartsBlock(calls, i)
    requires calls[j].now < calls[i].now + ttl
    ensures !LetThrough(calls[..j + 1])
    ensures Replay(calls[..j + 1]) == Replay(calls[..i + 1])
    decreases j
  {
    BlockBegins(calls, ttl, limit, i);
    if i < j {
      BlockHolds(calls, ttl, limit, i, j - 1);
      assert calls[..j + 1][..j] == calls[..j];
    }
  }

  /** All calls, let through or not, at or after an instant. */
  function CallsSince(calls: seq<Call>, from: int): nat {
    if calls == [] then 0
    else CallsSince(calls[..|calls| - 1], from) + (if from <= calls[|calls| - 1].now then 1 else 0)
  }

  /** At every call, at most `limit` calls fall in the window length that ends with it. */
  ghost predicate Polite(calls: seq<Call>, ttl: int, limit: int) {
    forall n :: 0 <= n < |calls| ==> CallsSince(calls[..n + 1], calls[n].now - ttl + 1) <= limit
  }

  lemma {:induction false} LaterIsFewer(calls: seq<Call>, from: int, later: int)
    requires from <= later
    ensures CallsSince(calls, later) <= CallsSince(calls, from)
  {
    if calls != [] { LaterIsFewer(calls[..|calls| - 1], from, later); }
  }

  lemma PoliteInit(calls: seq<Call>, ttl: int, limit: int)
    requires Polite(calls, ttl, limit) && calls != []
    ensures Polite(calls[..|calls| - 1], ttl, limit)
  {
    var init := calls[..|calls| - 1];
    forall n | 0 <= n < |init| ensures CallsSince(init[..n + 1], init[n].now - ttl + 1) <= limit {
      assert init[..n + 1] == calls[..n + 1];
    }
  }

  /** A guarded key that never calls more than `limit` times within a window length is never blocked. */
  lemma {:induction false} PoliteKeysPass(calls: seq<Call>, ttl: int, limit: int)
    requires GuardCalls(calls, ttl, limit) && Polite(calls, ttl, limit) && calls != []
    ensures LetThrough(calls) && OpenWindow(calls, Replay(calls).value, ttl)
    decreases |calls|
  {
    var init, c := calls[..|calls| - 1], calls[|calls| - 1];
    if init != [] {
      PoliteInit(calls, ttl, limit);
      GuardInit(calls, ttl, limit);
      PoliteKeysPass(init, ttl, limit);
    }
    LastPoliteCall(calls, ttl, limit);
    PoliteHit(calls, Resolve(Replay(init), c), ttl, limit);
  }

  /** A window without block whose hits are calls made since it opened. */
  predicate OpenWindow(calls: seq<Call>, w: Window, ttl: int)
    requires calls != []
  {
    && w.blockExpiresAt == 0 && w.totalHits <= CallsSince(calls, w.expiresAt - ttl)
    && w.expiresAt - ttl <= calls[|calls| - 1].now
  }

  lemma LastPoliteCall(calls: seq<Call>, ttl: int, limit: int)
    requires Polite(calls, ttl, limit) && calls != []
    ensures CallsSince(calls, calls[|calls| - 1].now - ttl + 1) <= limit
  {
    assert calls[..|calls| - 1 + 1] == calls;
  }

  /** The window a polite call lands in has room for it. */
  lemma PoliteHit(calls: seq<Call>, w: Window, ttl: int, limit: int)
    requires calls != []
    requires var c := calls[|calls| - 1];
             && c.now >= 0 && ttl > 0 && c.limit == limit && CallsSince(calls, c.now - ttl + 1) <= limit
             && w.blockExpiresAt == 0 && c.now - ttl < w.expiresAt - ttl <= c.now
             && w.totalHits <= CallsSince(calls[..|calls| - 1], w.expiresAt - ttl)
    ensures var c := calls[|calls| - 1];
            Hit(w, c).blockExpiresAt <= c.now && OpenWindow(calls, Hit(w, c), ttl)
  {
    LaterIsFewer(calls, calls[|calls| - 1].now - ttl + 1, w.expiresAt - ttl);
  }

  /** What a record tells the caller, in whole seconds rounded up. */
  lemma RecordMeans(w: Window, now: int)
    ensures var r := RecordOf(w, now);
            && r.totalHits == w.totalHits
            && 1000 * (r.timeToExpire - 1) < w.expiresAt - now <= 1000 * r.timeToExpire
            && (r.isBlocked <==> r.timeToBlockExpire > 0)
            && (r.isBlocked ==>
                  1000 * (r.timeToBlockExpire - 1) < w.blockExpiresAt - now <= 1000 * r.timeToBlockExpire)
            && (!r.isBlocked ==> r.timeToBlockExpire == 0)
  {
  }

  // ---- the same limits for the shared, pruned storage ----

  /** Calls of one key let through by the storage at an instant in `from <= now < to`. */
  function StoragePassedWithin(calls: seq<Call>, key: string, from: int, to: int): nat {
    if calls == [] then 0
    else
      var n := |calls| - 1;
      StoragePassedWithin(calls[..n], key, from, to)
      + (if calls[n].key == key && !RecordAt(calls, n).isBlocked && from <= calls[n].now < to then 1 else 0)
  }

  lemma {:induction false} StorageMatchesPrivate(calls: seq<Call>, key: string, from: int, to: int)
    requires NonDecreasingClock(calls)
    ensures StoragePassedWithin(calls, key, from, to) == PassedWithin(Filter(ForKey(key), calls), from, to)
  {
    if calls != [] {
      var n := |calls| - 1;
      StorageMatchesPrivate(calls[..n], key, from, to);
      FilterLast(key, calls);
      PruningIsInvisible(calls, n);
      var earlier := Filter(ForKey(key), calls[..n]);
      if calls[n].key == key {
        assert (earlier + [calls[n]])[..|earlier|] == earlier;
      } else {
        assert Filter(ForKey(key), calls) == earlier;
      }
    }
  }

  predicate ClockOrder(a: Call, b: Call) {
    a.now <= b.now
  }

  /** Whatever the other keys do, a guarded key gets at most 2 * limit - 1 calls through per window length. */
  lemma StorageLimitsEveryKey(calls: seq<Call>, key: string, ttl: int, limit: int, from: int)
    requires NonDecreasingClock(calls) && ttl > 0 && limit >= 0
    requires forall c :: c in calls && c.key == key ==>
               c.now >= 0 && c.ttl == ttl && c.blockDuration == ttl && c.limit == limit
    ensures StoragePassedWithin(calls, key, from, from + ttl) <= MostPerInterval(limit)
  {
    StorageMatchesPrivate(calls, key, from, from + ttl);
    OwnCallsGuarded(calls, key, ttl, limit);
    AtMostTwiceTheLimit(Filter(ForKey(key), calls), ttl, limit, from);
  }

  lemma OwnCallsGuarded(calls: seq<Call>, key: string, ttl: int, limit: int)
    requires NonDecreasingClock(calls) && ttl > 0 && limit >= 0
    requires forall c :: c in calls && c.key == key ==>
               c.now >= 0 && c.ttl == ttl && c.blockDuration == ttl && c.limit == limit
    ensures GuardCalls(Filter(ForKey(key), calls), ttl, limit)
  {
    FilterSorted(ForKey(key), ClockOrder, calls);
    var mine := Filter(ForKey(key), calls);
    forall i, j | 0 <= i < j < |mine| ensures mine[i].now <= mine[j].now {
      assert ClockOrder(mine[i], mine[j]);
    }
    forall i | 0 <= i < |mine| ensures mine[i] in calls && mine[i].key == key {
      assert mine[i] in mine;
    }
  }
}
