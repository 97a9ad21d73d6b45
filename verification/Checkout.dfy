/**
 * Quote checkout as concurrent transactions over committed rows. Each transition is one statement at
 * read-committed isolation: reads see committed rows, row locks last until the transaction ends, and a
 * conditional write that had to wait looks at its row again. A step that is not enabled, or that would
 * wait for a lock, leaves the state as it is.
 */
module Checkout {
  import opened OrderStatuses
  import opened Outcomes

  datatype Coupon = Coupon(firstOrderOnly: bool)

  datatype Quote = Quote(
    clientId: int, couponId: Option<int>, expiresAt: int, consumedAt: Option<int>, orderId: Option<int>)

  // `fromQuote` remembers which quote a checkout turned into this order; the program has no such column.
  datatype OrderRow = OrderRow(clientId: int, couponId: Option<int>, status: OrderStatus, fromQuote: Option<int>)

  datatype Stage = AtQuote | AtCoupon | AtUserLock | AtOrders | AtInsert | AtConsume | AtCommit

  datatype Tx =
    | CheckoutTx(orderId: int, clientId: int, quoteId: int, now: int, stage: Stage, couponId: Option<int>, first: bool)
    | ConsumeTx(orderId: int, clientId: int, quoteId: int, now: int, hasRead: bool)
    | CleanupTx(expiresBefore: int, limit: nat, targets: set<int>, deleted: set<int>)

  /** How often the row of a quote was, in committed writes, consumed and restored. */
  datatype Tally = Tally(consumed: nat, restored: nat)

  /** The share of a user row that an inserted order holds through its foreign key. */
  datatype Share = Share(clientId: int, tx: int)

  // Locks map a row to the transaction that holds it alone. `tallies` has every quote ever created.
  datatype State = State(
    quotes: map<int, Quote>, orders: map<int, OrderRow>, coupons: map<int, Coupon>,
    userLocks: map<int, int>, userShares: set<Share>, quoteLocks: map<int, int>, orderLocks: map<int, int>,
    txs: map<int, Tx>, clock: int, tallies: map<int, Tally>)

  datatype Step =
    | AdvanceClock(now: int)
    | CreateCoupon(couponId: int, firstOrderOnly: bool)
    | CreateQuote(quoteId: int, clientId: int, coupon: Option<int>, expiresAt: int)
    | CreateOrder(orderId: int, clientId: int, coupon: Option<int>)
    | SaveStatus(orderId: int, status: OrderStatus)
    | Begin(tx: int, start: Tx)
    | Advance(tx: int)
    | DeleteTarget(tx: int, quoteId: int)
    | Rollback(tx: int)
    | Restore(quoteId: int, clientId: int, orderId: int)

  const EMPTY := State(map[], map[], map[], map[], {}, map[], map[], map[], 0, map[])

  predicate Live(o: OrderRow) {
    o.status in {AwaitingPayment, PendingBooster, InProgress, Completed}
  }

  predicate FirstOrderCoupon(coupons: map<int, Coupon>, c: Option<int>) {
    c.Some? && c.value in coupons && coupons[c.value].firstOrderOnly
  }

  predicate HeldByOther(locks: map<int, int>, key: int, tx: int) {
    key in locks && locks[key] != tx
  }

  function Released(locks: map<int, int>, tx: int): map<int, int> {
    map k | k in locks && locks[k] != tx :: locks[k]
  }

  predicate SharedByOther(shares: set<Share>, clientId: int, tx: int) {
    exists h :: h in shares && h.clientId == clientId && h.tx != tx
  }

  predicate SameRows(s: State, s': State) {
    s'.quotes == s.quotes && s'.orders == s.orders && s'.coupons == s.coupons && s'.tallies == s.tallies
  }

  /** The end of a transaction, committed or not: its locks go with it. */
  function End(s: State, tx: int): State {
    s.(txs := s.txs - {tx}, userLocks := Released(s.userLocks, tx),
       userShares := (set h | h in s.userShares && h.tx != tx),
       quoteLocks := Released(s.quoteLocks, tx), orderLocks := Released(s.orderLocks, tx))
  }

  function Goto(s: State, tx: int, next: Tx): State {
    s.(txs := s.txs[tx := next])
  }

  /** The guard of the conditional consumption. */
  predicate Consumable(q: Quote, clientId: int, now: int) {
    q.clientId == clientId && q.consumedAt.None? && q.expiresAt > now
  }

  /** The guard shared by both phases of the cleanup, less the instant the first one adds. */
  predicate Unused(q: Quote) {
    q.consumedAt.None? && q.orderId.None?
  }

  function Counted(tallies: map<int, Tally>, quoteId: int, consumed: nat, restored: nat): map<int, Tally> {
    var before := if quoteId in tallies then tallies[quoteId] else Tally(0, 0);
    tallies[quoteId := Tally(before.consumed + consumed, before.restored + restored)]
  }

  function Spent(q: Quote, now: int, orderId: int): Quote {
    q.(consumedAt := Some(now), orderId := Some(orderId))
  }

  function Consume(s: State, quoteId: int, now: int, orderId: int): State
    requires quoteId in s.quotes
  {
    s.(quotes := s.quotes[quoteId := Spent(s.quotes[quoteId], now, orderId)],
       tallies := Counted(s.tallies, quoteId, 1, 0))
  }

  predicate HasLiveOrder(orders: map<int, OrderRow>, clientId: int) {
    exists o :: o in orders && orders[o].clientId == clientId && Live(orders[o])
  }

  // ---- checkout, statement by statement; no row changes for others before the commit ----

  function ReadQuote(s: State, tx: int, t: Tx): (s': State)
    requires t.CheckoutTx?
    ensures SameRows(s, s')
  {
    if t.quoteId !in s.quotes || s.quotes[t.quoteId].clientId != t.clientId then End(s, tx)
    else
      var q := s.quotes[t.quoteId];
      if q.consumedAt.Some? || q.expiresAt <= t.now then End(s, tx)
      else Goto(s, tx, t.(stage := if q.couponId.None? then AtInsert else AtCoupon, couponId := q.couponId))
  }

  function ReadCoupon(s: State, tx: int, t: Tx): (s': State)
    requires t.CheckoutTx?
    ensures SameRows(s, s')
  {
    var first := FirstOrderCoupon(s.coupons, t.couponId);
    Goto(s, tx, t.(stage := if first then AtUserLock else AtInsert, first := first))
  }

  /** `SELECT … FOR UPDATE` waits for another's lock, and for the shares of orders not yet committed. */
  function LockUser(s: State, tx: int, t: Tx): (s': State)
    requires t.CheckoutTx?
    ensures SameRows(s, s')
  {
    if HeldByOther(s.userLocks, t.clientId, tx) || SharedByOther(s.userShares, t.clientId, tx) then s
    else Goto(s.(userLocks := s.userLocks[t.clientId := tx]), tx, t.(stage := AtOrders))
  }

  function CheckOrders(s: State, tx: int, t: Tx): (s': State)
    requires t.CheckoutTx?
    ensures SameRows(s, s')
  {
    if HasLiveOrder(s.orders, t.clientId) then End(s, tx) else Goto(s, tx, t.(stage := AtInsert))
  }

  /** The insertion shares the client's user row until the end, so it waits while another has it locked. */
  function InsertOrder(s: State, tx: int, t: Tx): (s': State)
    requires t.CheckoutTx?
    ensures SameRows(s, s')
  {
    if HeldByOther(s.orderLocks, t.orderId, tx) || HeldByOther(s.userLocks, t.clientId, tx) then s
    else if t.orderId in s.orders then End(s, tx)
    else Goto(Inserting(s, tx, t), tx, t.(stage := AtConsume))
  }

  function Inserting(s: State, tx: int, t: Tx): State
    requires t.CheckoutTx?
  {
    s.(orderLocks := s.orderLocks[t.orderId := tx], userShares := s.userShares + {Share(t.clientId, tx)})
  }

  function ConsumeQuote(s: State, tx: int, t: Tx): (s': State)
    requires t.CheckoutTx?
    ensures SameRows(s, s')
  {
    if HeldByOther(s.quoteLocks, t.quoteId, tx) then s
    else if t.quoteId in s.quotes && Consumable(s.quotes[t.quoteId], t.clientId, t.now) then
      Goto(s.(quoteLocks := s.quoteLocks[t.quoteId := tx]), tx, t.(stage := AtCommit))
    else End(s, tx)
  }

  /** The inserted order and the consumed quote become visible together. */
  function CommitCheckout(s: State, tx: int, t: Tx): State
    requires t.CheckoutTx?
  {
    if t.quoteId !in s.quotes then End(s, tx)
    else
      var o := OrderRow(t.clientId, t.couponId, AwaitingPayment, Some(t.quoteId));
      End(Consume(s, t.quoteId, t.now, t.orderId).(orders := s.orders[t.orderId := o]), tx)
  }

  function AdvanceCheckout(s: State, tx: int, t: Tx): (s': State)
    requires t.CheckoutTx?
    ensures t.stage != AtCommit ==> SameRows(s, s')
    ensures s.quotes.Keys <= s'.quotes.Keys
  {
    match t.stage
    case AtQuote => ReadQuote(s, tx, t)
    case AtCoupon => ReadCoupon(s, tx, t)
    case AtUserLock => LockUser(s, tx, t)
    case AtOrders => CheckOrders(s, tx, t)
    case AtInsert => InsertOrder(s, tx, t)
    case AtConsume => ConsumeQuote(s, tx, t)
    case AtCommit => CommitCheckout(s, tx, t)
  }

  // ---- the competing repository calls ----

  predicate OrderHasQuote(quotes: map<int, Quote>, orderId: int) {
    exists k :: k in quotes && quotes[k].orderId == Some(orderId)
  }

  /** Read, then a conditional update on its own: the order must exist and carry no other quote. */
  function AdvanceConsume(s: State, tx: int, t: Tx): (s': State)
    requires t.ConsumeTx?
    ensures s.quotes.Keys <= s'.quotes.Keys && s'.orders == s.orders
  {
    if t.hasRead && HeldByOther(s.quoteLocks, t.quoteId, tx) then s
    else if t.quoteId !in s.quotes || !Consumable(s.quotes[t.quoteId], t.clientId, t.now) then End(s, tx)
    else if !t.hasRead then Goto(s, tx, t.(hasRead := true))
    else if t.orderId !in s.orders || OrderHasQuote(s.quotes, t.orderId) then End(s, tx)
    else End(Consume(s, t.quoteId, t.now, t.orderId), tx)
  }

  /** The second phase of the cleanup looks again at each row the first one selected. */
  function DeleteOne(s: State, tx: int, t: Tx, quoteId: int): State
    requires t.CleanupTx?
  {
    var rest := t.(targets := t.targets - {quoteId});
    if quoteId !in t.targets || HeldByOther(s.quoteLocks, quoteId, tx) then s
    else if quoteId in s.quotes && Unused(s.quotes[quoteId]) then
      Goto(s.(quoteLocks := s.quoteLocks[quoteId := tx]), tx, rest.(deleted := t.deleted + {quoteId}))
    else Goto(s, tx, rest)
  }

  function CommitCleanup(s: State, tx: int, t: Tx): State
    requires t.CleanupTx?
  {
    if t.targets != {} then s
    else End(s.(quotes := s.quotes - t.deleted), tx)
  }

  function RestoreQuote(s: State, quoteId: int, clientId: int, orderId: int): State {
    if quoteId in s.quoteLocks || quoteId !in s.quotes
       || s.quotes[quoteId].clientId != clientId || s.quotes[quoteId].orderId != Some(orderId) then s
    else
      s.(quotes := s.quotes[quoteId := s.quotes[quoteId].(consumedAt := None, orderId := None)],
         tallies := Counted(s.tallies, quoteId, 0, 1))
  }

  function Expired(quotes: map<int, Quote>, expiresBefore: int): set<int> {
    set q | q in quotes && Unused(quotes[q]) && quotes[q].expiresAt < expiresBefore
  }

  /** The first phase of the cleanup: up to `limit` expired rows, soonest expired first. */
  predicate Selection(quotes: map<int, Quote>, expiresBefore: int, limit: nat, ids: set<int>) {
    var expired := Expired(quotes, expiresBefore);
    && ids <= expired && |ids| == (if limit <= |expired| then limit else |expired|)
    && forall q, r :: q in ids && r in expired - ids ==> quotes[q].expiresAt <= quotes[r].expiresAt
  }

  /** Calls start with an instant that is not after the clock; the cleanup has selected rows by then. */
  predicate MayBegin(s: State, t: Tx) {
    match t
    case CheckoutTx(_, _, _, now, stage, couponId, first) =>
      now <= s.clock && stage == AtQuote && couponId == None && !first
    case ConsumeTx(_, _, _, now, hasRead) => now <= s.clock && !hasRead
    case CleanupTx(expiresBefore, limit, targets, deleted) =>
      expiresBefore <= s.clock && deleted == {} && Selection(s.quotes, expiresBefore, limit, targets)
  }

  predicate CouponExists(s: State, c: Option<int>) {
    c.Some? ==> c.value in s.coupons
  }

  /**
   * `SaveStatus` is a full save of an order read at any time before: it writes a status without looking at
   * the stored one, and as it changes no key it does not wait for the user row.
   */
  function Next(s: State, step: Step): State {
    match step
    case AdvanceClock(now) => if now <= s.clock then s else s.(clock := now)
    case CreateCoupon(c, first) => if c in s.coupons then s else s.(coupons := s.coupons[c := Coupon(first)])
    case CreateQuote(q, client, c, expiresAt) =>
      if q in s.tallies || client in s.userLocks || !CouponExists(s, c) then s
      else
        s.(quotes := s.quotes[q := Quote(client, c, expiresAt, None, None)], tallies := s.tallies[q := Tally(0, 0)])
    case CreateOrder(o, client, c) =>
      if o in s.orders || o in s.orderLocks || client in s.userLocks
         || !CouponExists(s, c) || FirstOrderCoupon(s.coupons, c) then s
      else s.(orders := s.orders[o := OrderRow(client, c, AwaitingPayment, None)])
    case SaveStatus(o, status) =>
      if o !in s.orders then s else s.(orders := s.orders[o := s.orders[o].(status := status)])
    case Begin(tx, start) => if tx in s.txs || !MayBegin(s, start) then s else Goto(s, tx, start)
    case Advance(tx) =>
      if tx !in s.txs then s
      else
        (match s.txs[tx]
         case CheckoutTx(_, _, _, _, _, _, _) => AdvanceCheckout(s, tx, s.txs[tx])
         case ConsumeTx(_, _, _, _, _) => AdvanceConsume(s, tx, s.txs[tx])
         case CleanupTx(_, _, _, _) => CommitCleanup(s, tx, s.txs[tx]))
    case DeleteTarget(tx, q) =>
      if tx !in s.txs || !s.txs[tx].CleanupTx? then s else DeleteOne(s, tx, s.txs[tx], q)
    case Rollback(tx) => if tx in s.txs then End(s, tx) else s
    case Restore(q, client, o) => RestoreQuote(s, q, client, o)
  }

  function Run(s: State, steps: seq<Step>): State
    decreases |steps|
  {
    if steps == [] then s else Run(Next(s, steps[0]), steps[1..])
  }
}
