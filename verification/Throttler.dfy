/** In-memory request throttling: one window per key, pruned lazily. */
module Throttler {
  import opened Outcomes

  const PRUNE_THRESHOLD: nat := 10000

  datatype Window = Window(totalHits: int, expiresAt: int, blockExpiresAt: int)

  datatype Call = Call(key: string, now: int, ttl: int, limit: int, blockDuration: int)

  datatype ThrottleRecord = ThrottleRecord(totalHits: int, timeToExpire: int, isBlocked: bool, timeToBlockExpire: int)

  /** Milliseconds to whole seconds, rounded up. */
  function CeilSeconds(ms: int): int {
    -((-ms) / 1000)
  }

  predicate Live(w: Window, now: int) {
    w.expiresAt > now || w.blockExpiresAt > now
  }

  function Lookup(m: map<string, Window>, key: string): Option<Window> {
    if key in m then Some(m[key]) else None
  }

  /** The window a call lands in: the live one it finds, or a fresh one. */
  function Resolve(found: Option<Window>, c: Call): Window {
    if found.Some? && Live(found.value, c.now) then found.value else Window(0, c.now + c.ttl, 0)
  }

  function Hit(w: Window, c: Call): Window {
    if w.blockExpiresAt > c.now then w
    else if w.totalHits + 1 > c.limit then Window(w.totalHits + 1, w.expiresAt, c.now + c.blockDuration)
    else w.(totalHits := w.totalHits + 1)
  }

  /** One key's window after a call, given its window before. */
  function KeyStep(found: Option<Window>, c: Call): Window {
    Hit(Resolve(found, c), c)
  }

  function RecordOf(w: Window, now: int): ThrottleRecord {
    ThrottleRecord(
      w.totalHits,
      CeilSeconds(w.expiresAt - now),
      w.blockExpiresAt > now,
      CeilSeconds(if w.blockExpiresAt - now > 0 then w.blockExpiresAt - now else 0))
  }

  function Pruned(m: map<string, Window>, now: int): map<string, Window> {
    map k | k in m && Live(m[k], now) :: m[k]
  }

  /** The windows kept for a call: only a call that opens a fresh window can prune. */
  function Kept(m: map<string, Window>, c: Call): map<string, Window> {
    if c.key in m && Live(m[c.key], c.now) then m
    else if |m| >= PRUNE_THRESHOLD then Pruned(m, c.now)
    else m
  }

  /** The whole storage after a call. */
  function Step(m: map<string, Window>, c: Call): map<string, Window> {
    Kept(m, c)[c.key := KeyStep(Lookup(m, c.key), c)]
  }

  /** What a call makes of its key's window, column by column. */
  lemma CallOutcome(found: Option<Window>, c: Call)
    ensures c.now >= 0 && (found == None || (found.value.expiresAt <= c.now && found.value.blockExpiresAt <= c.now)) ==>
              KeyStep(found, c) == Window(1, c.now + c.ttl, if c.limit < 1 then c.now + c.blockDuration else 0)
    ensures found.Some? && found.value.blockExpiresAt > c.now ==> KeyStep(found, c) == found.value
    ensures found.Some? && found.value.expiresAt > c.now && found.value.blockExpiresAt <= c.now ==>
              KeyStep(found, c) ==
                if found.value.totalHits < c.limit then found.value.(totalHits := found.value.totalHits + 1)
                else Window(found.value.totalHits + 1, found.value.expiresAt, c.now + c.blockDuration)
  {
  }

  /**
   * Another key's window is kept as it is, but for one case: the call opens a fresh window, there are ten
   * thousand keys or more, and the other's window has expired and blocks no longer.
   */
  lemma OthersKept(m: map<string, Window>, c: Call, k: string)
    requires k != c.key
    ensures var opens := c.key !in m || (m[c.key].expiresAt <= c.now && m[c.key].blockExpiresAt <= c.now);
            var kept := k in m && !(&& opens && |m| >= 10000
                                    && m[k].expiresAt <= c.now && m[k].blockExpiresAt <= c.now);
            (k in Step(m, c) <==> kept) && (kept ==> Step(m, c)[k] == m[k])
  {
  }

  /** A call resolves its window, then counts its hit there. */
  lemma StepInTwo(m: map<string, Window>, c: Call, resolved: map<string, Window>)
    requires resolved == Kept(m, c)[c.key := Resolve(Lookup(m, c.key), c)]
    ensures Step(m, c) == resolved[c.key := Hit(resolved[c.key], c)]
  {
  }

  class ThrottleWindow {
    var totalHits: int
    var expiresAt: int
    var blockExpiresAt: int

    constructor (expiresAt: int)
      ensures View() == Window(0, expiresAt, 0)
    {
      totalHits, this.expiresAt, blockExpiresAt := 0, expiresAt, 0;
    }

    function View(): Window
      reads this
    {
      Window(totalHits, expiresAt, blockExpiresAt)
    }

    method CountHit(c: Call)
      modifies this
      ensures View() == Hit(old(View()), c)
    {
      if blockExpiresAt <= c.now {
        totalHits := totalHits + 1;
        if totalHits > c.limit {
          blockExpiresAt := c.now + c.blockDuration;
        }
      }
    }
  }

  class WindowThrottlerStorage {
    var windows: map<string, ThrottleWindow>

    constructor ()
      ensures Valid() && State() == map[] && fresh(windows.Values)
    {
      windows := map[];
    }

    /** No two keys share a window object. */
    ghost predicate Valid()
      reads this
    {
      forall j, k :: j in windows && k in windows && j != k ==> windows[j] != windows[k]
    }

    ghost function State(): map<string, Window>
      reads this, windows.Values
    {
      map k | k in windows :: windows[k].View()
    }

    method Increment(c: Call) returns (record: ThrottleRecord)
      requires Valid()
      modifies this, windows.Values
      ensures Valid() && fresh(windows.Values - old(windows.Values))
      ensures State() == Step(old(State()), c)
      ensures record == RecordOf(KeyStep(Lookup(old(State()), c.key), c), c.now)
    {
      var window := ResolveWindow(c);
      ghost var resolved := State();
      StepInTwo(old(State()), c, resolved);
      window.CountHit(c);
      HitChangesOneKey(resolved, c);
      record := RecordOf(window.View(), c.now);
    }

    /** With one window per key, counting a hit changes the state at its key only. */
    lemma HitChangesOneKey(resolved: map<string, Window>, c: Call)
      requires windows.Keys == resolved.Keys && c.key in windows
      requires windows[c.key].View() == Hit(resolved[c.key], c)
      requires forall k :: k in windows && k != c.key ==> windows[k].View() == resolved[k]
      ensures State() == resolved[c.key := Hit(resolved[c.key], c)]
    {
    }

    /** Finds the key's live window, or registers a fresh one after a possible prune. */
    method ResolveWindow(c: Call) returns (window: ThrottleWindow)
      requires Valid()
      modifies this
      ensures Valid() && windows.Values <= old(windows.Values) + {window}
      ensures window in old(windows.Values) || fresh(window)
      ensures c.key in windows && windows[c.key] == window
      ensures window.View() == Resolve(Lookup(old(State()), c.key), c)
      ensures State() == Kept(old(State()), c)[c.key := window.View()]
    {
      if c.key in windows {
        window := windows[c.key];
        // The source repeats the expiry test here, where it can no longer hold.
        if window.expiresAt > c.now || window.blockExpiresAt > c.now {
          assert State()[c.key := window.View()] == State();
          return;
        }
      }
      assert windows.Keys == State().Keys;
      assert |windows| == |windows.Keys| == |State().Keys| == |State()|;
      if |windows| >= PRUNE_THRESHOLD {
        Prune(c.now);
      }
      window := Register(c.key, c.now + c.ttl);
    }

    method Register(key: string, expiresAt: int) returns (window: ThrottleWindow)
      requires Valid()
      modifies this
      ensures Valid() && fresh(window) && windows == old(windows)[key := window]
      ensures window.View() == Window(0, expiresAt, 0)
      ensures State() == old(State())[key := window.View()]
    {
      window := new ThrottleWindow(expiresAt);
      windows := windows[key := window];
    }

    /** Sweeps the map once, dropping every dead window. */
    method Prune(now: int)
      requires Valid()
      modifies this
      ensures Valid() && windows.Values <= old(windows.Values)
      ensures State() == Pruned(old(State()), now)
    {
      var before := windows;
      var pending := windows.Keys;
      while pending != {}
        invariant pending <= before.Keys
        invariant windows == map k | k in before && (k in pending || Live(before[k].View(), now)) :: before[k]
        decreases pending
      {
        var key :| key in pending;
        var window := windows[key];
        if window.expiresAt <= now && window.blockExpiresAt <= now {
          windows := windows - {key};
        }
        pending := pending - {key};
      }
    }
  }
}
