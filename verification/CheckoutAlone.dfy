/** What each call of the checkout protocol does when no other transaction holds a row it needs. */
module CheckoutAlone {
  import opened Checkout
  import opened OrderStatuses
  import opened Outcomes

  function AdvanceTimes(s: State, tx: int, n: nat): State
    decreases n
  {
    if n == 0 then s else AdvanceTimes(Next(s, Advance(tx)), tx, n - 1)
  }

  lemma {:induction false} AdvanceEnded(s: State, tx: int, n: nat)
    requires tx !in s.txs
    ensures AdvanceTimes(s, tx, n) == s
    decreases n
  {
    if n > 0 { AdvanceEnded(s, tx, n - 1); }
  }

  /** No other transaction holds a row that a call for this client, quote and order locks. */
  ghost predicate Clear(s: State, tx: int, clientId: int, quoteId: int, orderId: int) {
    && (clientId in s.userLocks ==> s.userLocks[clientId] == tx)
    && (forall h :: h in s.userShares && h.clientId == clientId ==> h.tx == tx)
    && (quoteId in s.quoteLocks ==> s.quoteLocks[quoteId] == tx)
    && (orderId in s.orderLocks ==> s.orderLocks[orderId] == tx)
  }

  predicate NoLocks(s: State) {
    s.userLocks == map[] && s.userShares == {} && s.quoteLocks == map[] && s.orderLocks == map[]
  }

  ghost predicate SameLocks(s: State, s': State) {
    && s'.userLocks == s.userLocks && s'.userShares == s.userShares
    && s'.quoteLocks == s.quoteLocks && s'.orderLocks == s.orderLocks
  }

  /** Without the transaction's own locks the two states have the same. */
  ghost predicate SameOthersLocks(s: State, s': State, tx: int) {
    SameLocks(End(s, tx), End(s', tx))
  }

  ghost predicate HoldsNothing(s: State, tx: int) {
    && (forall k :: k in s.userLocks ==> s.userLocks[k] != tx)
    && (forall h :: h in s.userShares ==> h.tx != tx)
    && (forall k :: k in s.quoteLocks ==> s.quoteLocks[k] != tx)
    && (forall k :: k in s.orderLocks ==> s.orderLocks[k] != tx)
  }

  lemma HoldingNothing(s: State, tx: int)
    requires HoldsNothing(s, tx)
    ensures SameLocks(s, End(s, tx))
  {
    NoneReleased(s.userLocks, tx);
    NoneReleased(s.quoteLocks, tx);
    NoneReleased(s.orderLocks, tx);
  }

  lemma NoneReleased(locks: map<int, int>, tx: int)
    requires forall k :: k in locks ==> locks[k] != tx
    ensures Released(locks, tx) == locks
  {
    var rest := Released(locks, tx);
    assert forall k :: k in locks <==> k in rest;
    assert rest == locks;
  }

  lemma LockedThenReleased(locks: map<int, int>, k: int, tx: int)
    requires k in locks ==> locks[k] == tx
    ensures Released(locks[k := tx], tx) == Released(locks, tx)
  {
  }

  // ---- checkout ----

  ghost predicate CouponAllows(s: State, couponId: Option<int>, clientId: int) {
    couponId.Some? && couponId.value in s.coupons && s.coupons[couponId.value].firstOrderOnly ==>
      forall o :: o in s.orders && s.orders[o].clientId == clientId ==> s.orders[o].status == Cancelled
  }

  /** When a checkout succeeds, read off the columns of the rows before it. */
  ghost predicate Accepts(s: State, t: Tx)
    requires t.CheckoutTx?
  {
    && t.orderId !in s.orders && t.quoteId in s.quotes
    && var q := s.quotes[t.quoteId];
    && q.clientId == t.clientId && q.consumedAt == None && q.expiresAt > t.now
    && CouponAllows(s, q.couponId, t.clientId)
  }

  /** All of the checkout's effects, or none; its locks are gone and the transaction is over. */
  ghost predicate Outcome(s: State, s': State, tx: int, t: Tx)
    requires t.CheckoutTx?
  {
    && SameLocks(End(s, tx), s') && s'.txs == s.txs - {tx} && s'.coupons == s.coupons && s'.clock == s.clock
    && (if Accepts(s, t) then
          var q := s.quotes[t.quoteId];
          && s'.orders == s.orders[t.orderId := OrderRow(t.clientId, q.couponId, AwaitingPayment, Some(t.quoteId))]
          && s'.quotes == s.quotes[t.quoteId := q.(consumedAt := Some(t.now), orderId := Some(t.orderId))]
        else s'.orders == s.orders && s'.quotes == s.quotes && s'.tallies == s.tallies)
  }

  ghost predicate Running(s: State, tx: int, t: Tx) {
    tx in s.txs && s.txs[tx] == t && (!t.CleanupTx? ==> Clear(s, tx, t.clientId, t.quoteId, t.orderId))
  }

  lemma Fails(s: State, tx: int, t: Tx, n: nat)
    requires Running(s, tx, t) && t.CheckoutTx? && !Accepts(s, t)
    ensures Outcome(s, AdvanceTimes(End(s, tx), tx, n), tx, t)
  {
    AdvanceEnded(End(s, tx), tx, n);
  }

  lemma FromCommit(s: State, tx: int, t: Tx, n: nat)
    requires Running(s, tx, t) && t.CheckoutTx? && t.stage == AtCommit && n >= 1
    requires Accepts(s, t) && t.couponId == s.quotes[t.quoteId].couponId
    ensures Outcome(s, AdvanceTimes(s, tx, n), tx, t)
  {
    AdvanceEnded(CommitCheckout(s, tx, t), tx, n - 1);
  }

  /** The outcome only looks at rows, so a statement that changed none leaves it to the rest. */
  lemma Onwards(s: State, s1: State, s': State, tx: int, t: Tx, t': Tx)
    requires t.CheckoutTx? && t'.CheckoutTx? && SameRows(s, s1) && s1.txs == s.txs[tx := t'] && s1.clock == s.clock
    requires SameOthersLocks(s, s1, tx)
    requires t' == t.(stage := t'.stage, couponId := t'.couponId, first := t'.first)
    requires Outcome(s1, s', tx, t')
    ensures Outcome(s, s', tx, t)
  {
    assert s1.txs - {tx} == s.txs - {tx};
  }

  lemma FromConsume(s: State, tx: int, t: Tx, n: nat)
    requires Running(s, tx, t) && t.CheckoutTx? && t.stage == AtConsume && n >= 2
    requires Accepts(s, t) && t.couponId == s.quotes[t.quoteId].couponId
    ensures Outcome(s, AdvanceTimes(s, tx, n), tx, t)
  {
    var t' := t.(stage := AtCommit);
    var s1 := Goto(s.(quoteLocks := s.quoteLocks[t.quoteId := tx]), tx, t');
    assert Next(s, Advance(tx)) == s1;
    LockedThenReleased(s.quoteLocks, t.quoteId, tx);
    FromCommit(s1, tx, t', n - 1);
    Onwards(s, s1, AdvanceTimes(s1, tx, n - 1), tx, t, t');
  }

  lemma FromFreeId(s: State, tx: int, t: Tx, n: nat)
    requires Running(s, tx, t) && t.CheckoutTx? && t.stage == AtInsert && n >= 3
    requires Accepts(s, t) && t.couponId == s.quotes[t.quoteId].couponId
    ensures Outcome(s, AdvanceTimes(s, tx, n), tx, t)
  {
    var t' := t.(stage := AtConsume);
    var s1 := Goto(Inserting(s, tx, t), tx, t');
    assert Next(s, Advance(tx)) == s1;
    LockedThenReleased(s.orderLocks, t.orderId, tx);
    FromConsume(s1, tx, t', n - 1);
    Onwards(s, s1, AdvanceTimes(s1, tx, n - 1), tx, t, t');
  }

  lemma FromInsert(s: State, tx: int, t: Tx, n: nat)
    requires Running(s, tx, t) && t.CheckoutTx? && t.stage == AtInsert && n >= 3
    requires t.quoteId in s.quotes && Consumable(s.quotes[t.quoteId], t.clientId, t.now)
    requires t.couponId == s.quotes[t.quoteId].couponId && CouponAllows(s, t.couponId, t.clientId)
    ensures Outcome(s, AdvanceTimes(s, tx, n), tx, t)
  {
    if t.orderId in s.orders {
      assert Next(s, Advance(tx)) == End(s, tx);
      Fails(s, tx, t, n - 1);
    } else {
      FromFreeId(s, tx, t, n);
    }
  }

  lemma FromOrders(s: State, tx: int, t: Tx, n: nat)
    requires Running(s, tx, t) && t.CheckoutTx? && t.stage == AtOrders && n >= 4
    requires t.quoteId in s.quotes && Consumable(s.quotes[t.quoteId], t.clientId, t.now)
    requires t.couponId == s.quotes[t.quoteId].couponId && FirstOrderCoupon(s.coupons, t.couponId)
    ensures Outcome(s, AdvanceTimes(s, tx, n), tx, t)
  {
    if HasLiveOrder(s.orders, t.clientId) {
      Fails(s, tx, t, n - 1);
    } else {
      var t' := t.(stage := AtInsert);
      var s1 := Goto(s, tx, t');
      assert Next(s, Advance(tx)) == s1;
      FromInsert(s1, tx, t', n - 1);
      Onwards(s, s1, AdvanceTimes(s1, tx, n - 1), tx, t, t');
    }
  }

  lemma FromUserLock(s: State, tx: int, t: Tx, n: nat)
    requires Running(s, tx, t) && t.CheckoutTx? && t.stage == AtUserLock && n >= 5
    requires t.quoteId in s.quotes && Consumable(s.quotes[t.quoteId], t.clientId, t.now)
    requires t.couponId == s.quotes[t.quoteId].couponId && FirstOrderCoupon(s.coupons, t.couponId)
    ensures Outcome(s, AdvanceTimes(s, tx, n), tx, t)
  {
    var t' := t.(stage := AtOrders);
    var s1 := Goto(s.(userLocks := s.userLocks[t.clientId := tx]), tx, t');
    assert Next(s, Advance(tx)) == s1;
    LockedThenReleased(s.userLocks, t.clientId, tx);
    FromOrders(s1, tx, t', n - 1);
    Onwards(s, s1, AdvanceTimes(s1, tx, n - 1), tx, t, t');
  }

  lemma FromCoupon(s: State, tx: int, t: Tx, n: nat)
    requires Running(s, tx, t) && t.CheckoutTx? && t.stage == AtCoupon && n >= 6
    requires t.quoteId in s.quotes && Consumable(s.quotes[t.quoteId], t.clientId, t.now)
    requires t.couponId == s.quotes[t.quoteId].couponId
    ensures Outcome(s, AdvanceTimes(s, tx, n), tx, t)
  {
    var first := FirstOrderCoupon(s.coupons, t.couponId);
    var t' := t.(stage := if first then AtUserLock else AtInsert, first := first);
    var s1 := Goto(s, tx, t');
    assert Next(s, Advance(tx)) == s1;
    if first {
      FromUserLock(s1, tx, t', n - 1);
    } else {
      FromInsert(s1, tx, t', n - 1);
    }
    Onwards(s, s1, AdvanceTimes(s1, tx, n - 1), tx, t, t');
  }

  lemma ReadWithout(s: State, tx: int, t: Tx, n: nat)
    requires Running(s, tx, t) && t.CheckoutTx? && t.stage == AtQuote && !t.first && n >= 7
    requires t.quoteId in s.quotes && Consumable(s.quotes[t.quoteId], t.clientId, t.now)
    requires s.quotes[t.quoteId].couponId.None?
    ensures Outcome(s, AdvanceTimes(s, tx, n), tx, t)
  {
    var t' := t.(stage := AtInsert, couponId := s.quotes[t.quoteId].couponId);
    var s1 := Goto(s, tx, t');
    assert Next(s, Advance(tx)) == s1;
    FromInsert(s1, tx, t', n - 1);
    Onwards(s, s1, AdvanceTimes(s1, tx, n - 1), tx, t, t');
  }

  lemma ReadWith(s: State, tx: int, t: Tx, n: nat)
    requires Running(s, tx, t) && t.CheckoutTx? && t.stage == AtQuote && !t.first && n >= 7
    requires t.quoteId in s.quotes && Consumable(s.quotes[t.quoteId], t.clientId, t.now)
    requires s.quotes[t.quoteId].couponId.Some?
    ensures Outcome(s, AdvanceTimes(s, tx, n), tx, t)
  {
    var t' := t.(stage := AtCoupon, couponId := s.quotes[t.quoteId].couponId);
    var s1 := Goto(s, tx, t');
    assert Next(s, Advance(tx)) == s1;
    FromCoupon(s1, tx, t', n - 1);
    Onwards(s, s1, AdvanceTimes(s1, tx, n - 1), tx, t, t');
  }

  lemma FromQuote(s: State, tx: int, t: Tx, n: nat)
    requires Running(s, tx, t) && t.CheckoutTx? && t.stage == AtQuote && !t.first && n >= 7
    ensures Outcome(s, AdvanceTimes(s, tx, n), tx, t)
  {
    if t.quoteId in s.quotes && Consumable(s.quotes[t.quoteId], t.clientId, t.now) {
      if s.quotes[t.quoteId].couponId.None? {
        ReadWithout(s, tx, t, n);
      } else {
        ReadWith(s, tx, t, n);
      }
    } else {
      assert Next(s, Advance(tx)) == End(s, tx);
      Fails(s, tx, t, n - 1);
    }
  }

  /** A transaction that has not begun and would find its rows unlocked. */
  ghost predicate Begins(s: State, tx: int, clientId: int, quoteId: int, orderId: int) {
    tx !in s.txs && HoldsNothing(s, tx) && Clear(s, tx, clientId, quoteId, orderId)
  }

  /** The database after a checkout, step by step. */
  function AfterCheckout(s: State, tx: int, orderId: int, clientId: int, quoteId: int, now: int): State {
    AdvanceTimes(Next(s, Begin(tx, CheckoutTx(orderId, clientId, quoteId, now, AtQuote, None, false))), tx, 7)
  }

  /**
   * A checkout whose rows nobody else holds succeeds exactly when the quote is the client's, unused and not
   * expired, its coupon allows the client and the order id is new; then it writes the order and consumes the
   * quote, else nothing. Locks held by others are as before.
   */
  lemma LoneCheckout(s: State, tx: int, orderId: int, clientId: int, quoteId: int, now: int)
    requires Begins(s, tx, clientId, quoteId, orderId) && now <= s.clock
    ensures var t := CheckoutTx(orderId, clientId, quoteId, now, AtQuote, None, false);
            Outcome(s, AdvanceTimes(Next(s, Begin(tx, t)), tx, 7), tx, t)
    ensures SameLocks(s, AfterCheckout(s, tx, orderId, clientId, quoteId, now))
  {
    var t := CheckoutTx(orderId, clientId, quoteId, now, AtQuote, None, false);
    var s0 := Goto(s, tx, t);
    assert Next(s, Begin(tx, t)) == s0;
    FromQuote(s0, tx, t, 7);
    HoldingNothing(s, tx);
    assert s0.txs - {tx} == s.txs - {tx};
  }

  /** A quote without a coupon, or with one for any order, can be checked out whatever orders its client has. */
  lemma OrdinaryCheckoutSucceeds(s: State, tx: int, orderId: int, clientId: int, quoteId: int, now: int)
    requires Begins(s, tx, clientId, quoteId, orderId) && now <= s.clock && orderId !in s.orders && quoteId in s.quotes
    requires s.quotes[quoteId].clientId == clientId && s.quotes[quoteId].expiresAt > now
    requires s.quotes[quoteId].consumedAt == None
    requires var c := s.quotes[quoteId].couponId;
             c.Some? && c.value in s.coupons ==> !s.coupons[c.value].firstOrderOnly
    ensures var s' := AfterCheckout(s, tx, orderId, clientId, quoteId, now);
            var q := s.quotes[quoteId];
            && s'.orders == s.orders[orderId := OrderRow(clientId, q.couponId, AwaitingPayment, Some(quoteId))]
            && s'.quotes == s.quotes[quoteId := q.(consumedAt := Some(now), orderId := Some(orderId))]
  {
    LoneCheckout(s, tx, orderId, clientId, quoteId, now);
  }

  /** With a first-order coupon that works if and only if the client has no order but cancelled ones. */
  lemma FirstOrderCheckoutIff(s: State, tx: int, orderId: int, clientId: int, quoteId: int, now: int, couponId: int)
    requires Begins(s, tx, clientId, quoteId, orderId) && now <= s.clock && orderId !in s.orders && quoteId in s.quotes
    requires s.quotes[quoteId].clientId == clientId && s.quotes[quoteId].expiresAt > now
    requires s.quotes[quoteId].consumedAt == None && s.quotes[quoteId].couponId == Some(couponId)
    requires couponId in s.coupons && s.coupons[couponId].firstOrderOnly
    ensures var s' := AfterCheckout(s, tx, orderId, clientId, quoteId, now);
            if forall o :: o in s.orders && s.orders[o].clientId == clientId ==> s.orders[o].status == Cancelled then
              && s'.orders == s.orders[orderId := OrderRow(clientId, Some(couponId), AwaitingPayment, Some(quoteId))]
              && s'.quotes == s.quotes[quoteId := s.quotes[quoteId].(consumedAt := Some(now), orderId := Some(orderId))]
            else s'.orders == s.orders && s'.quotes == s.quotes
  {
    LoneCheckout(s, tx, orderId, clientId, quoteId, now);
  }

  /** A foreign, consumed, expired or missing quote, or an order id already in use, leaves every row alone. */
  lemma CheckoutRefused(s: State, tx: int, orderId: int, clientId: int, quoteId: int, now: int)
    requires Begins(s, tx, clientId, quoteId, orderId) && now <= s.clock
    requires quoteId in s.quotes && s.quotes[quoteId].clientId == clientId && s.quotes[quoteId].consumedAt == None ==>
               s.quotes[quoteId].expiresAt <= now || orderId in s.orders
    ensures var s' := AfterCheckout(s, tx, orderId, clientId, quoteId, now);
            s'.orders == s.orders && s'.quotes == s.quotes && s'.coupons == s.coupons && s'.tallies == s.tallies
  {
    LoneCheckout(s, tx, orderId, clientId, quoteId, now);
  }

  /** Another transaction holds the row that the checkout's next statement locks. */
  ghost predicate MustWait(s: State, tx: int, t: Tx)
    requires t.CheckoutTx?
  {
    || (t.stage in {AtUserLock, AtInsert} && t.clientId in s.userLocks && s.userLocks[t.clientId] != tx)
    || (t.stage == AtUserLock && exists h :: h in s.userShares && h.clientId == t.clientId && h.tx != tx)
    || (t.stage == AtInsert && t.orderId in s.orderLocks && s.orderLocks[t.orderId] != tx)
    || (t.stage == AtConsume && t.quoteId in s.quoteLocks && s.quoteLocks[t.quoteId] != tx)
  }

  ghost predicate Moves(s': State, tx: int, stage: Stage) {
    tx in s'.txs ==> s'.txs[tx].CheckoutTx? && s'.txs[tx].stage != stage
  }

  lemma ReadQuoteMoves(s: State, tx: int, t: Tx)
    requires t.CheckoutTx? && t.stage == AtQuote
    ensures Moves(ReadQuote(s, tx, t), tx, t.stage)
  {
  }

  lemma ReadsMove(s: State, tx: int, t: Tx)
    requires t.CheckoutTx?
    ensures t.stage == AtCoupon ==> Moves(ReadCoupon(s, tx, t), tx, t.stage)
    ensures t.stage == AtOrders ==> Moves(CheckOrders(s, tx, t), tx, t.stage)
  {
  }

  lemma LocksMove(s: State, tx: int, t: Tx)
    requires t.CheckoutTx? && !MustWait(s, tx, t)
    ensures t.stage == AtUserLock ==> Moves(LockUser(s, tx, t), tx, t.stage)
    ensures t.stage == AtInsert ==> Moves(InsertOrder(s, tx, t), tx, t.stage)
    ensures t.stage == AtConsume ==> Moves(ConsumeQuote(s, tx, t), tx, t.stage)
  {
  }

  lemma StageMoves(s: State, tx: int, t: Tx)
    requires t.CheckoutTx? && !MustWait(s, tx, t)
    ensures Moves(AdvanceCheckout(s, tx, t), tx, t.stage)
  {
    if t.stage == AtCommit {
      assert tx !in CommitCheckout(s, tx, t).txs;
    } else if t.stage == AtQuote {
      ReadQuoteMoves(s, tx, t);
    } else {
      ReadsMove(s, tx, t);
      LocksMove(s, tx, t);
    }
  }

  /** A checkout's statement waits, changing nothing, exactly while another transaction holds its row. */
  lemma CheckoutWaitsIff(s: State, tx: int, t: Tx)
    requires tx in s.txs && s.txs[tx] == t && t.CheckoutTx?
    ensures Next(s, Advance(tx)) == s <==> MustWait(s, tx, t)
  {
    if MustWait(s, tx, t) {
      assert AdvanceCheckout(s, tx, t) == s;
    } else {
      StageMoves(s, tx, t);
    }
  }

  // ---- consumption and cleanup ----

  lemma SecondPhase(s: State, tx: int, t: Tx)
    requires Running(s, tx, t) && t.ConsumeTx? && t.hasRead
    requires t.quoteId in s.quotes && Consumable(s.quotes[t.quoteId], t.clientId, t.now)
    ensures var s' := Next(s, Advance(tx));
            && SameLocks(End(s, tx), s') && s'.txs == s.txs - {tx} && s'.orders == s.orders
            && (if t.orderId in s.orders && !OrderHasQuote(s.quotes, t.orderId) then
                  s'.quotes == s.quotes[t.quoteId := Spent(s.quotes[t.quoteId], t.now, t.orderId)]
                else SameRows(s, s'))
  {
  }

  /** Consuming a quote nobody else holds succeeds exactly for an open one and an order that has none yet. */
  lemma LoneConsumption(s: State, tx: int, orderId: int, clientId: int, quoteId: int, now: int)
    requires Begins(s, tx, clientId, quoteId, orderId) && now <= s.clock
    ensures var s' := AdvanceTimes(Next(s, Begin(tx, ConsumeTx(orderId, clientId, quoteId, now, false))), tx, 2);
            && SameLocks(s, s') && s'.txs == s.txs && s'.orders == s.orders
            && (if && quoteId in s.quotes && s.quotes[quoteId].clientId == clientId
                   && s.quotes[quoteId].consumedAt == None && s.quotes[quoteId].expiresAt > now
                   && orderId in s.orders && (forall q :: q in s.quotes ==> s.quotes[q].orderId != Some(orderId)) then
                  s'.quotes == s.quotes[quoteId := s.quotes[quoteId].(
                    consumedAt := Some(now), orderId := Some(orderId))]
                else s'.quotes == s.quotes && s'.tallies == s.tallies)
  {
    var t := ConsumeTx(orderId, clientId, quoteId, now, false);
    var s0 := Goto(s, tx, t);
    var s1 := Goto(s0, tx, t.(hasRead := true));
    assert Next(s, Begin(tx, t)) == s0;
    assert s0.txs - {tx} == s.txs && s1.txs - {tx} == s.txs;
    HoldingNothing(s, tx);
    if quoteId in s.quotes && Consumable(s.quotes[quoteId], clientId, now) {
      assert Next(s0, Advance(tx)) == s1;
      SecondPhase(s1, tx, t.(hasRead := true));
      TwoAdvances(s0, s1, tx);
    } else {
      assert Next(s0, Advance(tx)) == End(s0, tx);
      TwoAdvances(s0, End(s0, tx), tx);
    }
  }

  lemma TwoAdvances(s: State, s1: State, tx: int)
    requires Next(s, Advance(tx)) == s1
    ensures AdvanceTimes(s, tx, 2) == Next(s1, Advance(tx))
  {
    assert AdvanceTimes(s1, tx, 1) == AdvanceTimes(Next(s1, Advance(tx)), tx, 0);
  }

  function DeleteAll(s: State, tx: int, ids: seq<int>): State
    decreases |ids|
  {
    if ids == [] then s else DeleteAll(Next(s, DeleteTarget(tx, ids[0])), tx, ids[1..])
  }

  function Ids(ids: seq<int>): set<int> {
    set id | id in ids
  }

  lemma {:induction false} DeleteAllMarks(s: State, tx: int, t: Tx, ids: seq<int>)
    requires Running(s, tx, t) && t.CleanupTx?
    requires forall id :: id in ids ==> id in s.quotes && Unused(s.quotes[id])
    requires forall id :: id in ids ==> id in t.targets
    requires forall i, j :: 0 <= i < j < |ids| ==> ids[i] != ids[j]
    requires forall id :: id in ids && id in s.quoteLocks ==> s.quoteLocks[id] == tx
    ensures var s' := DeleteAll(s, tx, ids);
            && SameRows(s, s') && SameOthersLocks(s, s', tx)
            && s'.txs == s.txs[tx := t.(targets := t.targets - Ids(ids), deleted := t.deleted + Ids(ids))]
    decreases |ids|
  {
    if ids == [] {
      assert t == t.(targets := t.targets - Ids(ids), deleted := t.deleted + Ids(ids));
    } else {
      var id, rest := ids[0], ids[1..];
      assert id in ids;
      var t' := t.(targets := t.targets - {id}, deleted := t.deleted + {id});
      var s1 := Goto(s.(quoteLocks := s.quoteLocks[id := tx]), tx, t');
      assert Next(s, DeleteTarget(tx, id)) == s1;
      forall k | k in rest ensures k in ids && k != id {
        var i :| 0 <= i < |rest| && rest[i] == k;
        assert ids[i + 1] == k;
      }
      LockedThenReleased(s.quoteLocks, id, tx);
      DeleteAllMarks(s1, tx, t', rest);
      assert Ids(ids) == {id} + Ids(rest);
      assert t'.targets - Ids(rest) == t.targets - Ids(ids) && t'.deleted + Ids(rest) == t.deleted + Ids(ids);
    }
  }

  lemma CleanupDeletes(s: State, tx: int, t: Tx, ids: seq<int>)
    requires tx !in s.txs && HoldsNothing(s, tx) && MayBegin(s, t) && t.CleanupTx? && t.targets == Ids(ids)
    requires forall id :: id in ids ==> id !in s.quoteLocks
    requires forall i, j :: 0 <= i < j < |ids| ==> ids[i] != ids[j]
    ensures var s' := Next(DeleteAll(Next(s, Begin(tx, t)), tx, ids), Advance(tx));
            SameLocks(s, s') && s'.txs == s.txs && s'.orders == s.orders && s'.quotes == s.quotes - Ids(ids)
  {
    var s0 := Goto(s, tx, t);
    assert Next(s, Begin(tx, t)) == s0;
    forall id | id in ids ensures id in s.quotes && Unused(s.quotes[id]) {
      assert id in Ids(ids);
    }
    DeleteAllMarks(s0, tx, t, ids);
    var done := t.(targets := {}, deleted := Ids(ids));
    assert t.targets - Ids(ids) == {} && t.deleted + Ids(ids) == Ids(ids);
    CleanupCommits(DeleteAll(s0, tx, ids), tx, done);
    HoldingNothing(s, tx);
    assert s0.txs[tx := done] - {tx} == s.txs;
  }

  function ExpiredUnused(quotes: map<int, Quote>, expiresBefore: int): set<int> {
    set q | q in quotes && quotes[q].consumedAt == None && quotes[q].orderId == None
            && quotes[q].expiresAt < expiresBefore
  }

  /** A cleanup whose rows nobody holds deletes up to `limit` expired unused quotes, soonest expired first. */
  lemma LoneCleanup(s: State, tx: int, expiresBefore: int, limit: nat, ids: seq<int>)
    requires forall id :: id in ids ==> id !in s.quoteLocks
    requires tx !in s.txs && HoldsNothing(s, tx) && MayBegin(s, CleanupTx(expiresBefore, limit, Ids(ids), {}))
    requires forall i, j :: 0 <= i < j < |ids| ==> ids[i] != ids[j]
    ensures var t := CleanupTx(expiresBefore, limit, Ids(ids), {});
            var s' := Next(DeleteAll(Next(s, Begin(tx, t)), tx, ids), Advance(tx));
            var expired := ExpiredUnused(s.quotes, expiresBefore);
            && SameLocks(s, s') && s'.txs == s.txs && s'.orders == s.orders
            && s'.quotes == s.quotes - Ids(ids) && Ids(ids) <= expired
            && |Ids(ids)| == (if limit <= |expired| then limit else |expired|)
            && (forall q, r :: q in Ids(ids) && r in expired && r in s'.quotes ==>
                  s.quotes[q].expiresAt <= s.quotes[r].expiresAt)
  {
    var expired, same := ExpiredUnused(s.quotes, expiresBefore), Expired(s.quotes, expiresBefore);
    assert forall q :: q in expired <==> q in same;
    assert expired == same;
    CleanupDeletes(s, tx, CleanupTx(expiresBefore, limit, Ids(ids), {}), ids);
  }

  lemma CleanupCommits(s: State, tx: int, t: Tx)
    requires Running(s, tx, t) && t.CleanupTx? && t.targets == {}
    ensures var s' := Next(s, Advance(tx));
            && SameLocks(End(s, tx), s') && s'.txs == s.txs - {tx} && s'.orders == s.orders
            && s'.quotes == s.quotes - t.deleted
  {
  }
}
