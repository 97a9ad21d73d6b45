/** Every step of the checkout protocol keeps the invariant, so every run from an empty database does. */
module CheckoutRuns {
  import opened Checkout
  import opened CheckoutInvariants
  import opened OrderStatuses
  import opened Outcomes

  // ---- the statements of a checkout ----

  ghost predicate At(s: State, tx: int, t: Tx, stage: Stage) {
    Inv(s) && tx in s.txs && s.txs[tx] == t && t.CheckoutTx? && t.stage == stage
  }

  lemma ReadQuoteKeeps(s: State, tx: int, t: Tx)
    requires At(s, tx, t, AtQuote)
    ensures Inv(ReadQuote(s, tx, t))
  {
    Aborts(s, tx);
    if ReadQuote(s, tx, t) != End(s, tx) {
      var q := s.quotes[t.quoteId];
      GotoValid(s, s, tx, t.(stage := if q.couponId.None? then AtInsert else AtCoupon, couponId := q.couponId));
    }
  }

  lemma ReadCouponKeeps(s: State, tx: int, t: Tx)
    requires At(s, tx, t, AtCoupon)
    ensures Inv(ReadCoupon(s, tx, t))
  {
    assert TxValid(s, tx, t);
    var first := FirstOrderCoupon(s.coupons, t.couponId);
    GotoValid(s, s, tx, t.(stage := if first then AtUserLock else AtInsert, first := first));
  }

  lemma LockUserKeeps(s: State, tx: int, t: Tx)
    requires At(s, tx, t, AtUserLock)
    ensures Inv(LockUser(s, tx, t))
  {
    assert TxValid(s, tx, t);
    if LockUser(s, tx, t) != s {
      LockFits(s, t.clientId, tx);
      GotoValid(s, s.(userLocks := s.userLocks[t.clientId := tx]), tx, t.(stage := AtOrders));
    }
  }

  lemma LockFits(s: State, clientId: int, tx: int)
    requires LocksFit(s) && !SharedByOther(s.userShares, clientId, tx)
    ensures LocksFit(s.(userLocks := s.userLocks[clientId := tx]))
  {
    forall h | h in s.userShares && h.clientId == clientId ensures h.tx == tx {
    }
  }

  lemma CheckOrdersKeeps(s: State, tx: int, t: Tx)
    requires At(s, tx, t, AtOrders)
    ensures Inv(CheckOrders(s, tx, t))
  {
    assert TxValid(s, tx, t);
    Aborts(s, tx);
    if !HasLiveOrder(s.orders, t.clientId) {
      GotoValid(s, s, tx, t.(stage := AtInsert));
    }
  }

  lemma InsertOrderKeeps(s: State, tx: int, t: Tx)
    requires At(s, tx, t, AtInsert)
    ensures Inv(InsertOrder(s, tx, t))
  {
    assert TxValid(s, tx, t);
    Aborts(s, tx);
    if !HeldByOther(s.orderLocks, t.orderId, tx) && !HeldByOther(s.userLocks, t.clientId, tx)
       && t.orderId !in s.orders
    {
      assert LocksFit(Inserting(s, tx, t));
      GotoValid(s, Inserting(s, tx, t), tx, t.(stage := AtConsume));
    }
  }

  lemma ConsumeQuoteKeeps(s: State, tx: int, t: Tx)
    requires At(s, tx, t, AtConsume)
    ensures Inv(ConsumeQuote(s, tx, t))
  {
    assert TxValid(s, tx, t);
    Aborts(s, tx);
    if !HeldByOther(s.quoteLocks, t.quoteId, tx) && t.quoteId in s.quotes
       && Consumable(s.quotes[t.quoteId], t.clientId, t.now)
    {
      GotoValid(s, s.(quoteLocks := s.quoteLocks[t.quoteId := tx]), tx, t.(stage := AtCommit));
    }
  }

  // ---- consumption, by a checkout or on its own ----

  /** The consumption of a quote for an order that exists in the rows written with it. */
  function Consuming(s: State, q: int, now: int, o: int, orders: map<int, OrderRow>): State
    requires q in s.quotes
  {
    Consume(s, q, now, o).(orders := orders)
  }

  ghost predicate Extends(before: map<int, OrderRow>, after: map<int, OrderRow>) {
    forall o :: o in before ==> o in after && after[o] == before[o]
  }

  lemma ConsumingQuotes(s: State, q: int, now: int, o: int, orders: map<int, OrderRow>)
    requires QuotesValid(s) && OrderIdsDistinct(s) && q in s.quotes
    requires Extends(s.orders, orders) && o in orders && !OrderHasQuote(s.quotes, o) && now < s.quotes[q].expiresAt
    ensures QuotesValid(Consuming(s, q, now, o, orders)) && OrderIdsDistinct(Consuming(s, q, now, o, orders))
  {
    var s1 := Consuming(s, q, now, o, orders);
    forall k | k in s1.quotes
      ensures k in s1.tallies && CouponExists(s1, s1.quotes[k].couponId)
      ensures s1.quotes[k].consumedAt.Some? <==> s1.quotes[k].orderId.Some?
      ensures s1.quotes[k].consumedAt.Some? ==> s1.quotes[k].consumedAt.value < s1.quotes[k].expiresAt
      ensures s1.quotes[k].orderId.Some? ==> s1.quotes[k].orderId.value in s1.orders
    {
      assert k in s.quotes && CouponExists(s, s.quotes[k].couponId);
      if k != q && s.quotes[k].orderId.Some? {
        var id: int := s.quotes[k].orderId.value;
        assert id in s.orders;
      }
    }
    forall k, r | k in s1.quotes && r in s1.quotes && ShareOrder(s1.quotes[k], s1.quotes[r]) ensures k == r {
      if k != q && r != q { assert ShareOrder(s.quotes[k], s.quotes[r]); }
    }
  }

  lemma ConsumingTallies(s: State, q: int, now: int, o: int, orders: map<int, OrderRow>)
    requires QuotesValid(s) && TalliesValid(s) && q in s.quotes && s.quotes[q].consumedAt.None?
    requires forall r :: |OrdersFrom(orders, r)| <= |OrdersFrom(s.orders, r)| + if r == q then 1 else 0
    ensures TalliesValid(Consuming(s, q, now, o, orders))
  {
    var s1 := Consuming(s, q, now, o, orders);
    forall r | r in s1.tallies ensures TallyValid(s1, r) {
      assert TallyValid(s, r);
    }
  }

  lemma InsertedFrom(orders: map<int, OrderRow>, o: int, row: OrderRow, r: int)
    requires o !in orders
    ensures OrdersFrom(orders[o := row], r) == OrdersFrom(orders, r) + if row.fromQuote == Some(r) then {o} else {}
    ensures |OrdersFrom(orders[o := row], r)| <= |OrdersFrom(orders, r)| + if row.fromQuote == Some(r) then 1 else 0
  {
  }

  lemma InsertedOrders(s: State, s1: State, o: int, row: OrderRow)
    requires OrdersValid(s) && o !in s.orders
    requires s1.orders == s.orders[o := row] && s1.coupons == s.coupons && s.tallies.Keys <= s1.tallies.Keys
    requires CouponExists(s, row.couponId) && (row.fromQuote.Some? ==> row.fromQuote.value in s1.tallies)
    ensures OrdersValid(s1)
  {
    forall k | k in s1.orders
      ensures CouponExists(s1, s1.orders[k].couponId)
      ensures s1.orders[k].fromQuote.Some? ==> s1.orders[k].fromQuote.value in s1.tallies
    {
      if k != o { assert k in s.orders; }
    }
  }

  lemma CommitCheckoutKeeps(s: State, tx: int, t: Tx)
    requires At(s, tx, t, AtCommit)
    ensures Inv(CommitCheckout(s, tx, t))
  {
    assert TxValid(s, tx, t);
    var row := OrderRow(t.clientId, t.couponId, AwaitingPayment, Some(t.quoteId));
    var orders := s.orders[t.orderId := row];
    var s1 := Consuming(s, t.quoteId, t.now, t.orderId, orders);
    ConsumingQuotes(s, t.quoteId, t.now, t.orderId, orders);
    forall r ensures |OrdersFrom(orders, r)| <= |OrdersFrom(s.orders, r)| + if r == t.quoteId then 1 else 0 {
      InsertedFrom(s.orders, t.orderId, row, r);
    }
    ConsumingTallies(s, t.quoteId, t.now, t.orderId, orders);
    InsertedOrders(s, s1, t.orderId, row);
    CommitUndisturbing(s, s1, tx, t, row);
    MatchesStay(s, s1);
    EndValid(s, s1, tx);
  }

  lemma CommitUndisturbing(s: State, s1: State, tx: int, t: Tx, row: OrderRow)
    requires t.CheckoutTx? && t.stage == AtCommit && CheckoutValid(s, tx, t)
    requires row == OrderRow(t.clientId, t.couponId, AwaitingPayment, Some(t.quoteId))
    requires s1 == Consuming(s, t.quoteId, t.now, t.orderId, s.orders[t.orderId := row])
    ensures Undisturbed(s, s1, tx)
  {
  }

  lemma AdvanceCheckoutKeeps(s: State, tx: int, t: Tx)
    requires t.CheckoutTx? && At(s, tx, t, t.stage)
    ensures Inv(AdvanceCheckout(s, tx, t))
  {
    match t.stage
    case AtQuote => ReadQuoteKeeps(s, tx, t);
    case AtCoupon => ReadCouponKeeps(s, tx, t);
    case AtUserLock => LockUserKeeps(s, tx, t);
    case AtOrders => CheckOrdersKeeps(s, tx, t);
    case AtInsert => InsertOrderKeeps(s, tx, t);
    case AtConsume => ConsumeQuoteKeeps(s, tx, t);
    case AtCommit => CommitCheckoutKeeps(s, tx, t);
  }

  lemma SameOrdersValid(s: State, s1: State)
    requires OrdersValid(s)
    requires s1.orders == s.orders && s1.coupons == s.coupons && s.tallies.Keys <= s1.tallies.Keys
    ensures OrdersValid(s1)
  {
  }

  lemma AdvanceConsumeKeeps(s: State, tx: int, t: Tx)
    requires Inv(s) && tx in s.txs && s.txs[tx] == t && t.ConsumeTx?
    ensures Inv(AdvanceConsume(s, tx, t))
  {
    Aborts(s, tx);
    GotoValid(s, s, tx, t.(hasRead := true));
    if t.hasRead && !HeldByOther(s.quoteLocks, t.quoteId, tx) && t.quoteId in s.quotes
       && Consumable(s.quotes[t.quoteId], t.clientId, t.now)
       && t.orderId in s.orders && !OrderHasQuote(s.quotes, t.orderId)
    {
      var s1 := Consume(s, t.quoteId, t.now, t.orderId);
      assert s1 == Consuming(s, t.quoteId, t.now, t.orderId, s.orders);
      ConsumingQuotes(s, t.quoteId, t.now, t.orderId, s.orders);
      ConsumingTallies(s, t.quoteId, t.now, t.orderId, s.orders);
      SameOrdersValid(s, s1);
      ConsumeUndisturbing(s, tx, t);
      MatchesStay(s, s1);
      EndValid(s, s1, tx);
    }
  }

  lemma ConsumeUndisturbing(s: State, tx: int, t: Tx)
    requires t.ConsumeTx? && t.quoteId in s.quotes && !HeldByOther(s.quoteLocks, t.quoteId, tx)
    ensures Undisturbed(s, Consume(s, t.quoteId, t.now, t.orderId), tx)
  {
  }

  // ---- cleanup and restoration ----

  lemma DeleteOneKeeps(s: State, tx: int, t: Tx, q: int)
    requires Inv(s) && tx in s.txs && s.txs[tx] == t && t.CleanupTx?
    ensures Inv(DeleteOne(s, tx, t, q))
  {
    assert TxValid(s, tx, t);
    if q in t.targets && !HeldByOther(s.quoteLocks, q, tx) {
      assert SelectedForDeletion(s, t.expiresBefore, q);
      var rest := t.(targets := t.targets - {q});
      if q in s.quotes && Unused(s.quotes[q]) {
        var s1 := s.(quoteLocks := s.quoteLocks[q := tx]);
        MarkedStay(s, Goto(s1, tx, rest.(deleted := t.deleted + {q})), tx, t, q);
        GotoValid(s, s1, tx, rest.(deleted := t.deleted + {q}));
      } else {
        forall k | k in rest.targets ensures SelectedForDeletion(Goto(s, tx, rest), t.expiresBefore, k) {
          assert SelectedForDeletion(s, t.expiresBefore, k);
        }
        forall k | k in rest.deleted ensures MarkedForDeletion(Goto(s, tx, rest), tx, t.expiresBefore, k) {
          assert MarkedForDeletion(s, tx, t.expiresBefore, k);
        }
        GotoValid(s, s, tx, rest);
      }
    }
  }

  lemma MarkedStay(s: State, s': State, tx: int, t: Tx, q: int)
    requires t.CleanupTx? && CleanupValid(s, tx, t) && q in t.targets && q in s.quotes && Unused(s.quotes[q])
    requires SameRows(s, s') && s'.clock == s.clock && s'.quoteLocks == s.quoteLocks[q := tx]
    ensures CleanupValid(s', tx, t.(targets := t.targets - {q}, deleted := t.deleted + {q}))
  {
    forall k | k in t.targets ensures SelectedForDeletion(s', t.expiresBefore, k) {
      assert SelectedForDeletion(s, t.expiresBefore, k);
    }
    forall k | k in t.deleted + {q} ensures MarkedForDeletion(s', tx, t.expiresBefore, k) {
      if k != q { assert MarkedForDeletion(s, tx, t.expiresBefore, k); }
    }
  }

  lemma CommitCleanupKeeps(s: State, tx: int, t: Tx)
    requires Inv(s) && tx in s.txs && s.txs[tx] == t && t.CleanupTx?
    ensures Inv(CommitCleanup(s, tx, t))
  {
    assert TxValid(s, tx, t);
    if t.targets == {} {
      var s1 := s.(quotes := s.quotes - t.deleted);
      assert forall q :: q in t.deleted ==> MarkedForDeletion(s, tx, t.expiresBefore, q);
      DeletedRows(s, s1, t.deleted);
      EndValid(s, s1, tx);
    }
  }

  lemma DeletedRows(s: State, s1: State, deleted: set<int>)
    requires Rows(s)
    requires forall q :: q in deleted ==> q in s.quotes && Unused(s.quotes[q])
    requires s1 == s.(quotes := s.quotes - deleted)
    ensures Rows(s1)
  {
    SameOrdersValid(s, s1);
    MatchesStay(s, s1);
    assert OrderIdsDistinct(s1) by {
      forall k, r | k in s1.quotes && r in s1.quotes && ShareOrder(s1.quotes[k], s1.quotes[r]) ensures k == r {
        assert ShareOrder(s.quotes[k], s.quotes[r]);
      }
    }
    forall q | q in s1.tallies ensures TallyValid(s1, q) {
      assert TallyValid(s, q);
    }
  }

  /** A step outside any transaction changes only rows that nobody holds. */
  ghost predicate TouchesNothingHeld(s: State, s': State) {
    && Grows(s, s') && s'.txs == s.txs
    && s'.userLocks == s.userLocks && s'.userShares == s.userShares
    && s'.quoteLocks == s.quoteLocks && s'.orderLocks == s.orderLocks
    && (forall q :: q in s.quoteLocks && q in s.quotes ==> q in s'.quotes && s'.quotes[q] == s.quotes[q])
    && (forall o :: o in s.orderLocks && o !in s.orders ==> o !in s'.orders)
  }

  lemma OutsideStep(s: State, s': State)
    requires TxsValid(s) && LocksFit(s) && Rows(s') && TouchesNothingHeld(s, s')
    ensures Inv(s')
  {
    forall tx | tx in s'.txs ensures TxValid(s', tx, s'.txs[tx]) {
      assert Undisturbed(s, s', tx + 1);
      OthersStayValid(s, s', tx + 1, tx, s.txs[tx]);
    }
  }

  lemma RestoreKeeps(s: State, q: int, client: int, o: int)
    requires Inv(s)
    ensures Inv(RestoreQuote(s, q, client, o))
    ensures var s1 := RestoreQuote(s, q, client, o);
            if q in s.quotes && q !in s.quoteLocks
               && s.quotes[q].clientId == client && s.quotes[q].orderId == Some(o) then
              && s1.quotes == s.quotes[q := s.quotes[q].(consumedAt := None, orderId := None)]
              && s1.orders == s.orders && s1.tallies[q] == Tally(s.tallies[q].consumed, s.tallies[q].restored + 1)
            else s1 == s
  {
    var s1 := RestoreQuote(s, q, client, o);
    if s1 != s {
      RestoredRows(s, s1, q, o);
      OutsideStep(s, s1);
    }
  }

  lemma RestoredRows(s: State, s1: State, q: int, o: int)
    requires Rows(s) && q in s.quotes && s.quotes[q].orderId == Some(o)
    requires s1 == s.(quotes := s.quotes[q := s.quotes[q].(consumedAt := None, orderId := None)],
                      tallies := Counted(s.tallies, q, 0, 1))
    ensures Rows(s1)
  {
  }

  // ---- steps outside the protocol ----

  lemma AdvanceClockKeeps(s: State, now: int)
    requires Inv(s)
    ensures Inv(Next(s, AdvanceClock(now)))
  {
    if s.clock < now {
      SameRowsValid(s, s.(clock := now));
      ClockTouchesNothing(s, now);
      OutsideStep(s, s.(clock := now));
    }
  }

  lemma ClockTouchesNothing(s: State, now: int)
    requires s.clock < now
    ensures TouchesNothingHeld(s, s.(clock := now))
  {
  }

  lemma CreateCouponKeeps(s: State, c: int, first: bool)
    requires Inv(s)
    ensures Inv(Next(s, CreateCoupon(c, first)))
  {
    if c !in s.coupons {
      var s' := s.(coupons := s.coupons[c := Coupon(first)]);
      CouponRows(s, s');
      CouponTouchesNothing(s, s');
      OutsideStep(s, s');
    }
  }

  lemma CouponTouchesNothing(s: State, s': State)
    requires Grows(s, s') && s' == s.(coupons := s'.coupons)
    ensures TouchesNothingHeld(s, s')
  {
  }

  lemma CouponRows(s: State, s': State)
    requires Rows(s) && Grows(s, s') && s' == s.(coupons := s'.coupons)
    ensures Rows(s')
  {
    forall o | o in s.orders ensures CouponExists(s', s.orders[o].couponId) {
      SameCoupon(s, s', s.orders[o].couponId);
    }
    forall q | q in s'.quotes ensures CouponExists(s', s'.quotes[q].couponId) {
      SameCoupon(s, s', s.quotes[q].couponId);
    }
    assert TalliesValid(s') by {
      forall q | q in s'.tallies ensures TallyValid(s', q) {
        assert TallyValid(s, q);
      }
    }
  }

  lemma CreateQuoteKeeps(s: State, q: int, client: int, c: Option<int>, expiresAt: int)
    requires Inv(s)
    ensures Inv(Next(s, CreateQuote(q, client, c, expiresAt)))
  {
    var s' := Next(s, CreateQuote(q, client, c, expiresAt));
    if s' != s {
      QuoteRows(s, s', q, Quote(client, c, expiresAt, None, None));
      QuoteTouchesNothing(s, s', q, Quote(client, c, expiresAt, None, None));
      OutsideStep(s, s');
    }
  }

  lemma QuoteRows(s: State, s': State, q: int, quote: Quote)
    requires Rows(s) && q !in s.tallies && CouponExists(s, quote.couponId) && Unused(quote)
    requires s' == s.(quotes := s.quotes[q := quote], tallies := s.tallies[q := Tally(0, 0)])
    ensures Rows(s')
  {
    SameOrdersValid(s, s');
    assert QuotesValid(s') by {
      forall k | k in s'.quotes && k != q ensures CouponExists(s', s'.quotes[k].couponId) {
        assert CouponExists(s, s.quotes[k].couponId);
      }
    }
    assert OrderIdsDistinct(s') by {
      forall k, r | k in s'.quotes && r in s'.quotes && ShareOrder(s'.quotes[k], s'.quotes[r]) ensures k == r {
        assert k in s.quotes && r in s.quotes && ShareOrder(s.quotes[k], s.quotes[r]);
      }
    }
    NoOrdersYet(s, q);
    MatchesStay(s, s');
    forall k | k in s'.tallies ensures TallyValid(s', k) {
      if k != q { assert TallyValid(s, k); }
    }
  }

  lemma NoOrdersYet(s: State, q: int)
    requires OrdersValid(s) && q !in s.tallies
    ensures OrdersFrom(s.orders, q) == {}
  {
    forall o | o in s.orders ensures s.orders[o].fromQuote != Some(q) {
      if s.orders[o].fromQuote.Some? { assert s.orders[o].fromQuote.value in s.tallies; }
    }
  }

  lemma QuoteTouchesNothing(s: State, s': State, q: int, quote: Quote)
    requires QuotesValid(s) && q !in s.tallies
    requires s' == s.(quotes := s.quotes[q := quote], tallies := s.tallies[q := Tally(0, 0)])
    ensures TouchesNothingHeld(s, s')
  {
  }

  lemma CreateOrderKeeps(s: State, o: int, client: int, c: Option<int>)
    requires Inv(s)
    ensures Inv(Next(s, CreateOrder(o, client, c)))
  {
    var s' := Next(s, CreateOrder(o, client, c));
    if s' != s {
      InsertedOrders(s, s', o, OrderRow(client, c, AwaitingPayment, None));
      MatchesStay(s, s');
      forall q | q in s'.tallies ensures TallyValid(s', q) {
        assert TallyValid(s, q);
        InsertedFrom(s.orders, o, OrderRow(client, c, AwaitingPayment, None), q);
      }
      OutsideStep(s, s');
    }
  }

  lemma SaveStatusKeeps(s: State, o: int, status: OrderStatus)
    requires Inv(s)
    ensures Inv(Next(s, SaveStatus(o, status)))
  {
    var s' := Next(s, SaveStatus(o, status));
    if s' != s {
      forall q | q in s'.tallies ensures TallyValid(s', q) {
        assert TallyValid(s, q);
        assert OrdersFrom(s'.orders, q) == OrdersFrom(s.orders, q);
      }
      OutsideStep(s, s');
    }
  }

  lemma BeginKeeps(s: State, tx: int, start: Tx)
    requires Inv(s)
    ensures Inv(Next(s, Begin(tx, start)))
  {
    if Next(s, Begin(tx, start)) != s {
      GotoValid(s, s, tx, start);
    }
  }

  lemma NextKeeps(s: State, step: Step)
    requires Inv(s)
    ensures Inv(Next(s, step))
  {
    match step
    case AdvanceClock(now) => AdvanceClockKeeps(s, now);
    case CreateCoupon(c, first) => CreateCouponKeeps(s, c, first);
    case CreateQuote(q, client, c, expiresAt) => CreateQuoteKeeps(s, q, client, c, expiresAt);
    case CreateOrder(o, client, c) => CreateOrderKeeps(s, o, client, c);
    case SaveStatus(o, status) => SaveStatusKeeps(s, o, status);
    case Begin(tx, start) => BeginKeeps(s, tx, start);
    case Advance(tx) =>
      if tx in s.txs {
        match s.txs[tx]
        case CheckoutTx(_, _, _, _, _, _, _) => AdvanceCheckoutKeeps(s, tx, s.txs[tx]);
        case ConsumeTx(_, _, _, _, _) => AdvanceConsumeKeeps(s, tx, s.txs[tx]);
        case CleanupTx(_, _, _, _) => CommitCleanupKeeps(s, tx, s.txs[tx]);
      }
    case DeleteTarget(tx, q) =>
      if tx in s.txs && s.txs[tx].CleanupTx? { DeleteOneKeeps(s, tx, s.txs[tx], q); }
    case Rollback(tx) => Aborts(s, tx);
    case Restore(q, client, o) => RestoreKeeps(s, q, client, o);
  }

  lemma {:induction false} RunKeeps(s: State, steps: seq<Step>)
    requires Inv(s)
    ensures Inv(Run(s, steps))
    decreases |steps|
  {
    if steps != [] {
      NextKeeps(s, steps[0]);
      RunKeeps(Next(s, steps[0]), steps[1..]);
    }
  }

  // ---- what holds after every run from an empty database ----

  lemma ReachableValid(steps: seq<Step>)
    ensures Inv(Run(EMPTY, steps))
  {
    assert Rows(EMPTY) && LocksFit(EMPTY);
    RunKeeps(EMPTY, steps);
  }

  /** The tallies count what happens to the column: a consumption sets the instant, a restore takes it back. */
  lemma TalliesCountWrites(steps: seq<Step>, step: Step, q: int)
    requires q in Run(EMPTY, steps).quotes && q in Next(Run(EMPTY, steps), step).quotes
    ensures var s, s' := Run(EMPTY, steps), Next(Run(EMPTY, steps), step);
            var before, after := s.quotes[q].consumedAt, s'.quotes[q].consumedAt;
            && q in s.tallies && q in s'.tallies
            && s'.tallies[q].consumed == s.tallies[q].consumed + (if before.None? && after.Some? then 1 else 0)
            && s'.tallies[q].restored == s.tallies[q].restored + (if before.Some? && after.None? then 1 else 0)
  {
    ReachableValid(steps);
    NextCounts(Run(EMPTY, steps), step, q);
  }

  /** What a step does to the consumption instant of a quote and to its tally. */
  ghost predicate Counts(s: State, s': State, q: int)
    requires q in s.quotes && q in s'.quotes
  {
    && q in s.tallies && q in s'.tallies
    && s'.tallies[q].consumed
       == s.tallies[q].consumed + (if s.quotes[q].consumedAt.None? && s'.quotes[q].consumedAt.Some? then 1 else 0)
    && s'.tallies[q].restored
       == s.tallies[q].restored + (if s.quotes[q].consumedAt.Some? && s'.quotes[q].consumedAt.None? then 1 else 0)
  }

  lemma NextCounts(s: State, step: Step, q: int)
    requires Inv(s) && q in s.quotes && q in Next(s, step).quotes
    ensures Counts(s, Next(s, step), q)
  {
    if step.Advance? {
      if step.tx in s.txs { AdvanceCounts(s, step.tx, s.txs[step.tx], q); }
    } else {
      PlainCounts(s, step, q);
    }
  }

  lemma PlainCounts(s: State, step: Step, q: int)
    requires QuotesValid(s) && q in s.quotes && !step.Advance?
    ensures q in Next(s, step).quotes && Counts(s, Next(s, step), q)
  {
    match step
    case Restore(r, client, o) => RestoreCounts(s, r, client, o, q);
    case _ =>
  }

  lemma AdvanceCounts(s: State, tx: int, t: Tx, q: int)
    requires Inv(s) && tx in s.txs && s.txs[tx] == t && q in s.quotes && q in Next(s, Advance(tx)).quotes
    ensures Counts(s, Next(s, Advance(tx)), q)
  {
    match t
    case CheckoutTx(_, _, _, _, _, _, _) => CheckoutCounts(s, tx, t, q);
    case ConsumeTx(_, _, _, _, _) => ConsumeCounts(s, tx, t, q);
    case CleanupTx(_, _, _, _) => CleanupCounts(s, tx, t, q);
  }

  lemma CheckoutCounts(s: State, tx: int, t: Tx, q: int)
    requires t.CheckoutTx? && At(s, tx, t, t.stage) && q in s.quotes
    ensures Counts(s, AdvanceCheckout(s, tx, t), q)
  {
    assert TxValid(s, tx, t);
    if t.stage == AtCommit { CommitCounts(s, tx, t, q); }
  }

  lemma CommitCounts(s: State, tx: int, t: Tx, q: int)
    requires t.CheckoutTx? && q in s.quotes && q in s.tallies
    requires t.quoteId in s.quotes ==> s.quotes[t.quoteId].consumedAt.None?
    ensures Counts(s, CommitCheckout(s, tx, t), q)
  {
  }

  lemma ConsumeCounts(s: State, tx: int, t: Tx, q: int)
    requires t.ConsumeTx? && q in s.quotes && q in s.tallies
    ensures Counts(s, AdvanceConsume(s, tx, t), q)
  {
    if t.quoteId in s.quotes && Consumable(s.quotes[t.quoteId], t.clientId, t.now) { SpendingCounts(s, tx, t, q); }
  }

  lemma SpendingCounts(s: State, tx: int, t: Tx, q: int)
    requires t.ConsumeTx? && q in s.quotes && q in s.tallies
    requires t.quoteId in s.quotes && s.quotes[t.quoteId].consumedAt.None?
    ensures Counts(s, End(Consume(s, t.quoteId, t.now, t.orderId), tx), q)
  {
  }

  lemma CleanupCounts(s: State, tx: int, t: Tx, q: int)
    requires t.CleanupTx? && q in CommitCleanup(s, tx, t).quotes && q in s.tallies
    ensures q in s.quotes && Counts(s, CommitCleanup(s, tx, t), q)
  {
  }

  lemma RestoreCounts(s: State, r: int, client: int, o: int, q: int)
    requires QuotesValid(s) && q in s.quotes
    ensures Counts(s, RestoreQuote(s, r, client, o), q)
  {
  }

  /** No quote is spent twice: every consumption but the outstanding one was undone by a restore. */
  lemma ConsumptionsAccountedFor(steps: seq<Step>, q: int)
    requires q in Run(EMPTY, steps).tallies
    ensures var s := Run(EMPTY, steps);
            && s.tallies[q].consumed
               == s.tallies[q].restored + (if q in s.quotes && s.quotes[q].consumedAt.Some? then 1 else 0)
            && |OrdersFrom(s.orders, q)| <= s.tallies[q].restored + 1
  {
    ReachableValid(steps);
    assert TallyValid(Run(EMPTY, steps), q);
  }

  /** A consumed quote names an order that exists and that no other quote names; an unused one names none. */
  lemma ConsumedQuoteOwnsItsOrder(steps: seq<Step>, q: int)
    requires q in Run(EMPTY, steps).quotes
    ensures var s := Run(EMPTY, steps);
            && (s.quotes[q].consumedAt.Some? <==> s.quotes[q].orderId.Some?)
            && (s.quotes[q].consumedAt.Some? ==> s.quotes[q].consumedAt.value < s.quotes[q].expiresAt)
            && (s.quotes[q].orderId.Some? ==>
                  && s.quotes[q].orderId.value in s.orders
                  && forall r :: r in s.quotes && s.quotes[r].orderId == s.quotes[q].orderId ==> r == q)
  {
    var s := Run(EMPTY, steps);
    ReachableValid(steps);
    forall r | r in s.quotes && s.quotes[q].orderId.Some? && s.quotes[r].orderId == s.quotes[q].orderId
      ensures r == q
    {
      assert ShareOrder(s.quotes[q], s.quotes[r]);
    }
  }

  /** An order made from a quote that still exists belongs to its client and carries its coupon. */
  lemma OrderCarriesItsQuote(steps: seq<Step>, o: int, q: int)
    requires o in Run(EMPTY, steps).orders && q in Run(EMPTY, steps).quotes
    requires Run(EMPTY, steps).orders[o].fromQuote == Some(q)
    ensures var s := Run(EMPTY, steps);
            s.orders[o].clientId == s.quotes[q].clientId && s.orders[o].couponId == s.quotes[q].couponId
  {
    ReachableValid(steps);
    assert MatchesQuote(Run(EMPTY, steps), Run(EMPTY, steps).orders[o]);
  }

  lemma DisappearsAtCommit(s: State, step: Step, q: int)
    requires q in s.quotes && q !in Next(s, step).quotes
    ensures step.Advance? && step.tx in s.txs && s.txs[step.tx].CleanupTx? && q in s.txs[step.tx].deleted
  {
    match step
    case Advance(tx) => assert tx in s.txs && s.txs[tx].CleanupTx?;
    case _ =>
  }

  /** A quote disappears only while unused, and when no call at or after that instant could consume it. */
  lemma OnlyDeadQuotesAreDeleted(steps: seq<Step>, step: Step, q: int)
    requires q in Run(EMPTY, steps).quotes && q !in Next(Run(EMPTY, steps), step).quotes
    ensures var s := Run(EMPTY, steps);
            s.quotes[q].consumedAt.None? && s.quotes[q].orderId.None? && s.quotes[q].expiresAt < s.clock
  {
    var s := Run(EMPTY, steps);
    ReachableValid(steps);
    DisappearsAtCommit(s, step, q);
    DeletedAreDead(s, step.tx, s.txs[step.tx], q);
  }

  lemma DeletedAreDead(s: State, tx: int, t: Tx, q: int)
    requires TxsValid(s) && tx in s.txs && s.txs[tx] == t && t.CleanupTx? && q in t.deleted && q in s.quotes
    ensures Unused(s.quotes[q]) && s.quotes[q].expiresAt < s.clock
  {
    assert TxValid(s, tx, t);
    assert MarkedForDeletion(s, tx, t.expiresBefore, q);
  }
}
