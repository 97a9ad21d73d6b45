/** What every step of the checkout protocol keeps, in every interleaving. */
module CheckoutInvariants {
  import opened Checkout
  import opened Outcomes

  // ---- committed rows ----

  ghost predicate QuotesValid(s: State) {
    forall q :: q in s.quotes ==>
      && q in s.tallies && CouponExists(s, s.quotes[q].couponId)
      && (s.quotes[q].consumedAt.Some? <==> s.quotes[q].orderId.Some?)
      && (s.quotes[q].orderId.Some? ==> s.quotes[q].orderId.value in s.orders)
      && (s.quotes[q].consumedAt.Some? ==> s.quotes[q].consumedAt.value < s.quotes[q].expiresAt)
  }

  predicate ShareOrder(q: Quote, r: Quote) {
    q.orderId.Some? && q.orderId == r.orderId
  }

  ghost predicate OrderIdsDistinct(s: State) {
    forall q, r :: q in s.quotes && r in s.quotes && ShareOrder(s.quotes[q], s.quotes[r]) ==> q == r
  }

  ghost predicate OrdersValid(s: State) {
    forall o :: o in s.orders ==>
      && CouponExists(s, s.orders[o].couponId)
      && (s.orders[o].fromQuote.Some? ==> s.orders[o].fromQuote.value in s.tallies)
  }

  predicate MatchesQuote(s: State, o: OrderRow) {
    o.fromQuote.Some? && o.fromQuote.value in s.quotes ==>
      s.quotes[o.fromQuote.value].clientId == o.clientId && s.quotes[o.fromQuote.value].couponId == o.couponId
  }

  /** A checkout's order belongs to the quote's client and carries the quote's coupon. */
  ghost predicate OrdersMatchQuotes(s: State) {
    forall o :: o in s.orders ==> MatchesQuote(s, s.orders[o])
  }

  function OrdersFrom(orders: map<int, OrderRow>, quoteId: int): set<int> {
    set o | o in orders && orders[o].fromQuote == Some(quoteId)
  }

  function Outstanding(s: State, quoteId: int): nat {
    if quoteId in s.quotes && s.quotes[quoteId].consumedAt.Some? then 1 else 0
  }

  ghost predicate TallyValid(s: State, q: int)
    requires q in s.tallies
  {
    && s.tallies[q].consumed == s.tallies[q].restored + Outstanding(s, q)
    && |OrdersFrom(s.orders, q)| <= s.tallies[q].consumed
  }

  ghost predicate TalliesValid(s: State) {
    forall q :: q in s.tallies ==> TallyValid(s, q)
  }

  ghost predicate Rows(s: State) {
    QuotesValid(s) && OrderIdsDistinct(s) && OrdersValid(s) && TalliesValid(s)
    && OrdersMatchQuotes(s)
  }

  // ---- transactions ----

  predicate Held(locks: map<int, int>, key: int, tx: int) {
    key in locks && locks[key] == tx
  }

  predicate SameOwner(s: State, t: Tx)
    requires t.CheckoutTx?
  {
    && t.quoteId in s.tallies && CouponExists(s, t.couponId)
    && (t.quoteId in s.quotes ==>
          s.quotes[t.quoteId].couponId == t.couponId && s.quotes[t.quoteId].clientId == t.clientId)
  }

  predicate CouponRead(s: State, t: Tx)
    requires t.CheckoutTx?
  {
    match t.stage
    case AtQuote => !t.first
    case AtCoupon => !t.first
    case AtUserLock => t.first && FirstOrderCoupon(s.coupons, t.couponId)
    case _ => t.first == FirstOrderCoupon(s.coupons, t.couponId)
  }

  /** With a first-order coupon the user row is locked from the check on; an inserted order shares it. */
  predicate UserHeld(s: State, tx: int, t: Tx)
    requires t.CheckoutTx?
  {
    && (t.first && t.stage in {AtOrders, AtInsert, AtConsume, AtCommit} ==> Held(s.userLocks, t.clientId, tx))
    && (t.stage in {AtConsume, AtCommit} ==> Share(t.clientId, tx) in s.userShares)
  }

  predicate RowsHeld(s: State, tx: int, t: Tx)
    requires t.CheckoutTx?
  {
    && (t.stage in {AtConsume, AtCommit} ==> Held(s.orderLocks, t.orderId, tx) && t.orderId !in s.orders)
    && (t.stage == AtCommit ==>
          Held(s.quoteLocks, t.quoteId, tx) && t.quoteId in s.quotes
          && Consumable(s.quotes[t.quoteId], t.clientId, t.now))
  }

  ghost predicate CheckoutValid(s: State, tx: int, t: Tx)
    requires t.CheckoutTx?
  {
    (t.stage == AtQuote || SameOwner(s, t)) && CouponRead(s, t) && UserHeld(s, tx, t) && RowsHeld(s, tx, t)
  }

  predicate MarkedForDeletion(s: State, tx: int, expiresBefore: int, q: int) {
    Held(s.quoteLocks, q, tx) && q in s.quotes && Unused(s.quotes[q]) && s.quotes[q].expiresAt < expiresBefore
  }

  /** Selected rows may be consumed or deleted meanwhile, but an instant of expiry never moves. */
  predicate SelectedForDeletion(s: State, expiresBefore: int, q: int) {
    q in s.tallies && (q in s.quotes ==> s.quotes[q].expiresAt < expiresBefore)
  }

  ghost predicate CleanupValid(s: State, tx: int, t: Tx)
    requires t.CleanupTx?
  {
    && t.expiresBefore <= s.clock
    && (forall q :: q in t.targets ==> SelectedForDeletion(s, t.expiresBefore, q))
    && (forall q :: q in t.deleted ==> MarkedForDeletion(s, tx, t.expiresBefore, q))
  }

  ghost predicate TxValid(s: State, tx: int, t: Tx) {
    match t
    case CheckoutTx(_, _, _, _, _, _, _) => CheckoutValid(s, tx, t)
    case ConsumeTx(_, _, _, _, _) => true
    case CleanupTx(_, _, _, _) => CleanupValid(s, tx, t)
  }

  ghost predicate TxsValid(s: State) {
    forall tx :: tx in s.txs ==> TxValid(s, tx, s.txs[tx])
  }

  /** Nobody locks a user row that another transaction shares. */
  ghost predicate LocksFit(s: State) {
    forall h :: h in s.userShares && h.clientId in s.userLocks ==> s.userLocks[h.clientId] == h.tx
  }

  ghost predicate Inv(s: State) {
    Rows(s) && TxsValid(s) && LocksFit(s)
  }

  // ---- what a step of one transaction leaves alone ----

  ghost predicate LocksKept(before: map<int, int>, after: map<int, int>, actor: int) {
    forall k :: k in before && before[k] != actor ==> k in after && after[k] == before[k]
  }

  ghost predicate LockedQuotesKept(s: State, s': State, actor: int) {
    forall q :: q in s.quoteLocks && s.quoteLocks[q] != actor && q in s.quotes ==>
      q in s'.quotes && s'.quotes[q] == s.quotes[q]
  }

  ghost predicate LockedOrdersAbsent(s: State, s': State, actor: int) {
    forall o :: o in s.orderLocks && s.orderLocks[o] != actor && o !in s.orders ==> o !in s'.orders
  }

  ghost predicate SharesKept(before: set<Share>, after: set<Share>, actor: int) {
    forall h :: h in before && h.tx != actor ==> h in after
  }

  /** Coupons stay, the clock does not go back, and a quote keeps what it was created with. */
  ghost predicate Grows(s: State, s': State) {
    && s.clock <= s'.clock
    && (forall c :: c in s.coupons ==> c in s'.coupons && s'.coupons[c] == s.coupons[c])
    && (forall q :: q in s.tallies ==> q in s'.tallies)
    && (forall q :: q in s.tallies && q in s'.quotes ==>
          && q in s.quotes
          && s'.quotes[q].couponId == s.quotes[q].couponId && s'.quotes[q].clientId == s.quotes[q].clientId
          && s'.quotes[q].expiresAt == s.quotes[q].expiresAt)
  }

  /** Of the transactions, only the actor's changes; nothing another one holds is touched. */
  ghost predicate Undisturbed(s: State, s': State, actor: int) {
    && Grows(s, s')
    && LocksKept(s.userLocks, s'.userLocks, actor) && LocksKept(s.quoteLocks, s'.quoteLocks, actor)
    && LocksKept(s.orderLocks, s'.orderLocks, actor) && SharesKept(s.userShares, s'.userShares, actor)
    && LockedQuotesKept(s, s', actor) && LockedOrdersAbsent(s, s', actor)
    && (forall tx :: tx in s'.txs && tx != actor ==> tx in s.txs && s'.txs[tx] == s.txs[tx])
  }

  lemma SameCoupon(s: State, s': State, c: Option<int>)
    requires Grows(s, s') && CouponExists(s, c)
    ensures CouponExists(s', c) && FirstOrderCoupon(s'.coupons, c) == FirstOrderCoupon(s.coupons, c)
  {
    if c.Some? {
      var id: int := c.value;
      assert id in s.coupons;
      assert s'.coupons[id] == s.coupons[id];
    }
  }

  lemma OthersStayValid(s: State, s': State, actor: int, tx: int, t: Tx)
    requires tx != actor && Undisturbed(s, s', actor) && TxValid(s, tx, t)
    ensures TxValid(s', tx, t)
  {
    match t
    case CheckoutTx(_, _, _, _, _, _, _) =>
      if t.stage != AtQuote { SameCoupon(s, s', t.couponId); }
      assert UserHeld(s', tx, t);
      assert RowsHeld(s', tx, t);
    case ConsumeTx(_, _, _, _, _) =>
    case CleanupTx(_, _, _, _) =>
      forall q | q in t.targets ensures SelectedForDeletion(s', t.expiresBefore, q) {
        assert SelectedForDeletion(s, t.expiresBefore, q);
      }
      forall q | q in t.deleted ensures MarkedForDeletion(s', tx, t.expiresBefore, q) {
        assert MarkedForDeletion(s, tx, t.expiresBefore, q);
      }
  }

  /** Non-interference: a step is judged by the rows it leaves and by its own transaction. */
  lemma StepCombines(s: State, s': State, actor: int)
    requires TxsValid(s) && Undisturbed(s, s', actor)
    requires actor in s'.txs ==> TxValid(s', actor, s'.txs[actor])
    ensures TxsValid(s')
  {
    forall tx | tx in s'.txs ensures TxValid(s', tx, s'.txs[tx]) {
      if tx != actor { OthersStayValid(s, s', actor, tx, s.txs[tx]); }
    }
  }

  // ---- steps that change no committed row ----

  lemma SameRowsValid(s: State, s': State)
    requires SameRows(s, s') && Rows(s)
    ensures Rows(s')
  {
    forall q | q in s'.tallies ensures TallyValid(s', q) {
      assert TallyValid(s, q);
    }
    forall o | o in s'.orders ensures MatchesQuote(s', s'.orders[o]) {
      assert MatchesQuote(s, s.orders[o]);
    }
  }

  /** Old orders keep matching, whatever else a step writes. */
  lemma MatchesStay(s: State, s': State)
    requires OrdersMatchQuotes(s) && OrdersValid(s) && Grows(s, s')
    requires forall o :: o in s'.orders ==> MatchesQuote(s', s'.orders[o]) || SameOrigin(s, s', o)
    ensures OrdersMatchQuotes(s')
  {
    forall o | o in s'.orders ensures MatchesQuote(s', s'.orders[o]) {
      if SameOrigin(s, s', o) && s.orders[o].fromQuote.Some? {
        var q: int := s.orders[o].fromQuote.value;
        assert MatchesQuote(s, s.orders[o]);
        assert q in s.tallies;
      }
    }
  }

  predicate SameOrigin(s: State, s': State, o: int)
    requires o in s'.orders
  {
    o in s.orders && s'.orders[o].(status := s.orders[o].status) == s.orders[o]
  }

  /** A transaction moves on, perhaps with one more lock. */
  lemma GotoValid(s: State, s1: State, tx: int, t: Tx)
    requires Inv(s) && SameRows(s, s1) && s1.txs == s.txs && s1.clock == s.clock
    requires LocksKept(s.userLocks, s1.userLocks, tx) && LocksKept(s.quoteLocks, s1.quoteLocks, tx)
    requires LocksKept(s.orderLocks, s1.orderLocks, tx) && SharesKept(s.userShares, s1.userShares, tx)
    requires LocksFit(s1) && TxValid(Goto(s1, tx, t), tx, t)
    ensures Inv(Goto(s1, tx, t))
  {
    var s' := Goto(s1, tx, t);
    SameRowsValid(s, s');
    assert Undisturbed(s, s', tx);
    StepCombines(s, s', tx);
  }

  /** A transaction ends after leaving the rows right. */
  lemma EndValid(s: State, s1: State, tx: int)
    requires TxsValid(s) && Rows(s1) && LocksFit(s1) && Undisturbed(s, s1, tx)
    ensures Inv(End(s1, tx))
  {
    var s' := End(s1, tx);
    SameRowsValid(s1, s');
    assert Undisturbed(s, s', tx);
    StepCombines(s, s', tx);
  }

  lemma Aborts(s: State, tx: int)
    requires Inv(s)
    ensures Inv(End(s, tx))
  {
    assert Undisturbed(s, s, tx);
    EndValid(s, s, tx);
  }
}
