/** First-order coupons over every interleaving, and exactly which saves of a stale order endanger them. */
module CheckoutFirstOrders {
  import opened Checkout
  import opened CheckoutInvariants
  import opened CheckoutRuns
  import opened OrderStatuses
  import opened Outcomes

  predicate LiveOrder(s: State, o: int) {
    o in s.orders && s.orders[o].status != Cancelled
  }

  /** An order, not cancelled, made with a coupon for first orders only. */
  predicate FirstLive(s: State, o: int) {
    && LiveOrder(s, o) && s.orders[o].couponId.Some? && s.orders[o].couponId.value in s.coupons
    && s.coupons[s.orders[o].couponId.value].firstOrderOnly
  }

  ghost predicate OneFirstOrder(s: State) {
    forall o, p :: FirstLive(s, o) && FirstLive(s, p) && s.orders[o].clientId == s.orders[p].clientId ==> o == p
  }

  /** A checkout with a first-order coupon that has passed its check and is not committed yet. */
  predicate Checked(t: Tx) {
    t.CheckoutTx? && t.first && t.stage in {AtInsert, AtConsume, AtCommit}
  }

  ghost predicate NoLiveOrder(s: State, clientId: int) {
    forall o :: LiveOrder(s, o) ==> s.orders[o].clientId != clientId
  }

  ghost predicate ChecksHold(s: State) {
    forall tx :: tx in s.txs && Checked(s.txs[tx]) ==> NoLiveOrder(s, s.txs[tx].clientId)
  }

  ghost predicate FirstOrders(s: State) {
    OneFirstOrder(s) && ChecksHold(s)
  }

  // ---- steps that bring no order to life ----

  /** Every live order was live before, for the same client and with the same kind of coupon. */
  ghost predicate NoneRevived(s: State, s': State) {
    forall o :: LiveOrder(s', o) ==>
      && LiveOrder(s, o) && s'.orders[o].clientId == s.orders[o].clientId
      && (FirstLive(s', o) ==> FirstLive(s, o))
  }

  ghost predicate NoneNewlyChecked(s: State, s': State) {
    forall tx :: tx in s'.txs && Checked(s'.txs[tx]) ==>
      tx in s.txs && Checked(s.txs[tx]) && s'.txs[tx].clientId == s.txs[tx].clientId
  }

  lemma QuietStep(s: State, s': State)
    requires FirstOrders(s) && NoneRevived(s, s') && NoneNewlyChecked(s, s')
    ensures FirstOrders(s')
  {
    forall o, p | FirstLive(s', o) && FirstLive(s', p) && s'.orders[o].clientId == s'.orders[p].clientId
      ensures o == p
    {
      assert LiveOrder(s', o) && LiveOrder(s', p);
    }
    forall tx | tx in s'.txs && Checked(s'.txs[tx]) ensures NoLiveOrder(s', s'.txs[tx].clientId) {
      assert NoLiveOrder(s, s.txs[tx].clientId);
    }
  }

  lemma SameOrdersQuiet(s: State, s': State)
    requires s'.orders == s.orders && s'.coupons == s.coupons
    ensures NoneRevived(s, s')
  {
  }

  lemma CouponsQuiet(s: State, s': State)
    requires OrdersValid(s) && Grows(s, s') && s'.orders == s.orders
    ensures NoneRevived(s, s')
  {
    forall o | FirstLive(s', o) ensures FirstLive(s, o) {
      SameCoupon(s, s', s.orders[o].couponId);
    }
  }

  /** No order changes, and no transaction but the actor, who is checked only if it was before. */
  lemma OneTxMoves(s: State, s': State, tx: int)
    requires FirstOrders(s) && s'.orders == s.orders && s'.coupons == s.coupons
    requires forall u :: u in s'.txs && u != tx ==> u in s.txs && s'.txs[u] == s.txs[u]
    requires tx in s'.txs && Checked(s'.txs[tx]) ==>
               tx in s.txs && Checked(s.txs[tx]) && s'.txs[tx].clientId == s.txs[tx].clientId
    ensures FirstOrders(s')
  {
    SameOrdersQuiet(s, s');
    QuietStep(s, s');
  }

  lemma EndFirst(s: State, tx: int)
    requires FirstOrders(s)
    ensures FirstOrders(End(s, tx))
  {
    OneTxMoves(s, End(s, tx), tx);
  }

  lemma GotoFirst(s: State, s1: State, tx: int, t: Tx)
    requires FirstOrders(s) && s1.orders == s.orders && s1.coupons == s.coupons && s1.txs == s.txs && !Checked(t)
    ensures FirstOrders(Goto(s1, tx, t))
  {
    OneTxMoves(s, Goto(s1, tx, t), tx);
  }

  // ---- a checkout's own statements ----

  lemma ReadQuoteFirst(s: State, tx: int, t: Tx)
    requires At(s, tx, t, AtQuote) && FirstOrders(s)
    ensures FirstOrders(ReadQuote(s, tx, t))
  {
    assert TxValid(s, tx, t);
    OneTxMoves(s, ReadQuote(s, tx, t), tx);
  }

  lemma ReadCouponFirst(s: State, tx: int, t: Tx)
    requires At(s, tx, t, AtCoupon) && FirstOrders(s)
    ensures FirstOrders(ReadCoupon(s, tx, t))
  {
    OneTxMoves(s, ReadCoupon(s, tx, t), tx);
  }

  lemma LockUserFirst(s: State, tx: int, t: Tx)
    requires At(s, tx, t, AtUserLock) && FirstOrders(s)
    ensures FirstOrders(LockUser(s, tx, t))
  {
    OneTxMoves(s, LockUser(s, tx, t), tx);
  }

  lemma InsertOrderFirst(s: State, tx: int, t: Tx)
    requires At(s, tx, t, AtInsert) && FirstOrders(s)
    ensures FirstOrders(InsertOrder(s, tx, t))
  {
    OneTxMoves(s, InsertOrder(s, tx, t), tx);
  }

  lemma ConsumeQuoteFirst(s: State, tx: int, t: Tx)
    requires At(s, tx, t, AtConsume) && FirstOrders(s)
    ensures FirstOrders(ConsumeQuote(s, tx, t))
  {
    OneTxMoves(s, ConsumeQuote(s, tx, t), tx);
  }

  lemma CheckOrdersFirst(s: State, tx: int, t: Tx)
    requires At(s, tx, t, AtOrders) && FirstOrders(s)
    ensures FirstOrders(CheckOrders(s, tx, t))
  {
    var s' := CheckOrders(s, tx, t);
    EndFirst(s, tx);
    if !HasLiveOrder(s.orders, t.clientId) {
      forall u | u in s'.txs && Checked(s'.txs[u]) ensures NoLiveOrder(s', s'.txs[u].clientId) {
        if u != tx { assert NoLiveOrder(s, s.txs[u].clientId); }
      }
      SameFirstOrders(s, s');
    }
  }

  lemma SameFirstOrders(s: State, s': State)
    requires OneFirstOrder(s) && s'.orders == s.orders && s'.coupons == s.coupons
    ensures OneFirstOrder(s')
  {
    forall o, p | FirstLive(s', o) && FirstLive(s', p) && s'.orders[o].clientId == s'.orders[p].clientId
      ensures o == p
    {
      assert FirstLive(s, o) && FirstLive(s, p);
    }
  }

  /** Whoever inserted an order shares its client's row, so no checked transaction of that client is open. */
  lemma OthersUnchecked(s: State, tx: int, t: Tx, u: int)
    requires At(s, tx, t, AtCommit) && u in s.txs && u != tx && Checked(s.txs[u])
    ensures s.txs[u].clientId != t.clientId
  {
    assert TxValid(s, tx, t) && TxValid(s, u, s.txs[u]);
    assert Share(t.clientId, tx) in s.userShares;
  }

  lemma CommitFirst(s: State, tx: int, t: Tx)
    requires At(s, tx, t, AtCommit) && FirstOrders(s)
    ensures FirstOrders(CommitCheckout(s, tx, t))
  {
    assert TxValid(s, tx, t);
    var s' := CommitCheckout(s, tx, t);
    assert t.first ==> NoLiveOrder(s, t.clientId);
    forall o, p | FirstLive(s', o) && FirstLive(s', p) && s'.orders[o].clientId == s'.orders[p].clientId
      ensures o == p
    {
      assert o != t.orderId ==> FirstLive(s, o);
      assert p != t.orderId ==> FirstLive(s, p);
    }
    forall u | u in s'.txs && Checked(s'.txs[u]) ensures NoLiveOrder(s', s'.txs[u].clientId) {
      OthersUnchecked(s, tx, t, u);
      assert NoLiveOrder(s, s.txs[u].clientId);
      forall o | LiveOrder(s', o) ensures s'.orders[o].clientId != s'.txs[u].clientId {
        assert o != t.orderId ==> LiveOrder(s, o);
      }
    }
  }

  lemma AdvanceCheckoutFirst(s: State, tx: int, t: Tx)
    requires t.CheckoutTx? && At(s, tx, t, t.stage) && FirstOrders(s)
    ensures FirstOrders(AdvanceCheckout(s, tx, t))
  {
    match t.stage
    case AtQuote => ReadQuoteFirst(s, tx, t);
    case AtCoupon => ReadCouponFirst(s, tx, t);
    case AtUserLock => LockUserFirst(s, tx, t);
    case AtOrders => CheckOrdersFirst(s, tx, t);
    case AtInsert => InsertOrderFirst(s, tx, t);
    case AtConsume => ConsumeQuoteFirst(s, tx, t);
    case AtCommit => CommitFirst(s, tx, t);
  }

  // ---- orders placed and saved outside the checkout ----

  /** An order can only be placed for a client whose row nobody has locked, so no check of theirs is open. */
  lemma CreateOrderFirst(s: State, o: int, client: int, c: Option<int>)
    requires Inv(s) && FirstOrders(s)
    ensures FirstOrders(Next(s, CreateOrder(o, client, c)))
  {
    var s' := Next(s, CreateOrder(o, client, c));
    if s' != s {
      forall k, p | FirstLive(s', k) && FirstLive(s', p) && s'.orders[k].clientId == s'.orders[p].clientId
        ensures k == p
      {
        assert FirstLive(s, k) && FirstLive(s, p);
      }
      forall u | u in s'.txs && Checked(s'.txs[u]) ensures NoLiveOrder(s', s'.txs[u].clientId) {
        assert TxValid(s, u, s.txs[u]) && NoLiveOrder(s, s.txs[u].clientId);
        forall k | LiveOrder(s', k) ensures s'.orders[k].clientId != s'.txs[u].clientId {
          assert k != o ==> LiveOrder(s, k);
        }
      }
    }
  }

  ghost predicate CheckOpen(s: State, clientId: int) {
    exists tx :: tx in s.txs && Checked(s.txs[tx]) && s.txs[tx].clientId == clientId
  }

  /**
   * A save may write any status but a live one over a cancelled order: that needs a client with no checked
   * checkout open and, if the order's coupon is for first orders, no other live order made with one.
   */
  ghost predicate Fits(s: State, o: int, status: OrderStatus)
    requires o in s.orders
  {
    || status == Cancelled || Live(s.orders[o])
    || (&& !CheckOpen(s, s.orders[o].clientId)
        && (FirstOrderCoupon(s.coupons, s.orders[o].couponId) ==>
              forall p :: FirstLive(s, p) ==> s.orders[p].clientId != s.orders[o].clientId))
  }

  ghost predicate Guarded(s: State, step: Step) {
    step.SaveStatus? && step.orderId in s.orders ==> Fits(s, step.orderId, step.status)
  }

  lemma RevivalKeepsFirst(s: State, s': State, o: int, status: OrderStatus)
    requires FirstOrders(s) && o in s.orders && Fits(s, o, status)
    requires s' == s.(orders := s.orders[o := s.orders[o].(status := status)])
    ensures FirstOrders(s')
  {
    if status == Cancelled || Live(s.orders[o]) {
      QuietStep(s, s');
    } else {
      forall k, p | FirstLive(s', k) && FirstLive(s', p) && s'.orders[k].clientId == s'.orders[p].clientId
        ensures k == p
      {
        assert k != o ==> FirstLive(s, k);
        assert p != o ==> FirstLive(s, p);
      }
      forall u | u in s'.txs && Checked(s'.txs[u]) ensures NoLiveOrder(s', s'.txs[u].clientId) {
        assert NoLiveOrder(s, s.txs[u].clientId);
        forall k | LiveOrder(s', k) ensures s'.orders[k].clientId != s'.txs[u].clientId {
          assert k != o ==> LiveOrder(s, k);
        }
      }
    }
  }

  lemma RevivalBreaksFirst(s: State, s': State, o: int, status: OrderStatus)
    requires FirstOrders(s) && o in s.orders && !Fits(s, o, status)
    requires s' == s.(orders := s.orders[o := s.orders[o].(status := status)])
    ensures !FirstOrders(s')
  {
    assert LiveOrder(s', o);
    if CheckOpen(s, s.orders[o].clientId) {
      var u :| u in s.txs && Checked(s.txs[u]) && s.txs[u].clientId == s.orders[o].clientId;
      assert !NoLiveOrder(s', s'.txs[u].clientId);
    } else {
      var p :| FirstLive(s, p) && s.orders[p].clientId == s.orders[o].clientId;
      assert FirstLive(s', o) && FirstLive(s', p);
    }
  }

  lemma AdvanceFirst(s: State, tx: int)
    requires Inv(s) && FirstOrders(s) && tx in s.txs
    ensures FirstOrders(Next(s, Advance(tx)))
  {
    var t := s.txs[tx];
    match t
    case CheckoutTx(_, _, _, _, _, _, _) => AdvanceCheckoutFirst(s, tx, t);
    case ConsumeTx(_, _, _, _, _) => ConsumeFirst(s, tx, t);
    case CleanupTx(_, _, _, _) => CommitCleanupFirst(s, tx, t);
  }

  lemma ConsumeFirst(s: State, tx: int, t: Tx)
    requires FirstOrders(s) && tx in s.txs && s.txs[tx] == t && t.ConsumeTx?
    ensures FirstOrders(AdvanceConsume(s, tx, t))
  {
    EndFirst(s, tx);
    GotoFirst(s, s, tx, t.(hasRead := true));
    if t.quoteId in s.quotes { OneTxMoves(s, End(Consume(s, t.quoteId, t.now, t.orderId), tx), tx); }
  }

  lemma CommitCleanupFirst(s: State, tx: int, t: Tx)
    requires FirstOrders(s) && tx in s.txs && s.txs[tx] == t && t.CleanupTx?
    ensures FirstOrders(CommitCleanup(s, tx, t))
  {
    OneTxMoves(s, CommitCleanup(s, tx, t), tx);
  }

  lemma DeleteOneFirst(s: State, tx: int, t: Tx, q: int)
    requires FirstOrders(s) && tx in s.txs && s.txs[tx] == t && t.CleanupTx?
    ensures FirstOrders(DeleteOne(s, tx, t, q))
  {
    var rest := t.(targets := t.targets - {q});
    GotoFirst(s, s, tx, rest);
    GotoFirst(s, s.(quoteLocks := s.quoteLocks[q := tx]), tx, rest.(deleted := t.deleted + {q}));
  }

  lemma BeginFirst(s: State, tx: int, start: Tx)
    requires FirstOrders(s) && MayBegin(s, start)
    ensures FirstOrders(Goto(s, tx, start))
  {
    OneTxMoves(s, Goto(s, tx, start), tx);
  }

  lemma SameFirst(s: State, s': State)
    requires FirstOrders(s) && s'.orders == s.orders && s'.coupons == s.coupons && s'.txs == s.txs
    ensures FirstOrders(s')
  {
    OneTxMoves(s, s', 0);
  }

  lemma CreateCouponFirst(s: State, c: int, first: bool)
    requires Inv(s) && FirstOrders(s) && c !in s.coupons
    ensures FirstOrders(s.(coupons := s.coupons[c := Coupon(first)]))
  {
    var s' := s.(coupons := s.coupons[c := Coupon(first)]);
    CouponsQuiet(s, s');
    QuietStep(s, s');
  }

  lemma SaveStatusFirst(s: State, o: int, status: OrderStatus)
    requires FirstOrders(s) && o in s.orders
    ensures FirstOrders(Next(s, SaveStatus(o, status))) <==> Fits(s, o, status)
  {
    var s' := Next(s, SaveStatus(o, status));
    if Fits(s, o, status) {
      RevivalKeepsFirst(s, s', o, status);
    } else {
      RevivalBreaksFirst(s, s', o, status);
    }
  }

  predicate MovesTx(step: Step) {
    step.Begin? || step.Advance? || step.DeleteTarget? || step.Rollback?
  }

  lemma TxStepFirst(s: State, step: Step)
    requires Inv(s) && FirstOrders(s) && MovesTx(step)
    ensures FirstOrders(Next(s, step))
  {
    match step
    case Advance(tx) => if tx in s.txs { AdvanceFirst(s, tx); }
    case DeleteTarget(tx, q) => if tx in s.txs && s.txs[tx].CleanupTx? { DeleteOneFirst(s, tx, s.txs[tx], q); }
    case Begin(tx, start) => if tx !in s.txs && MayBegin(s, start) { BeginFirst(s, tx, start); }
    case Rollback(tx) => EndFirst(s, tx);
  }

  lemma PlainStepFirst(s: State, step: Step)
    requires Inv(s) && FirstOrders(s) && !MovesTx(step) && !step.SaveStatus?
    ensures FirstOrders(Next(s, step))
  {
    match step
    case CreateOrder(o, client, c) => CreateOrderFirst(s, o, client, c);
    case CreateCoupon(c, first) => if c !in s.coupons { CreateCouponFirst(s, c, first); }
    case Restore(q, client, o) => SameFirst(s, RestoreQuote(s, q, client, o));
    case AdvanceClock(now) => SameFirst(s, s.(clock := now));
    case CreateQuote(_, _, _, _) => SameFirst(s, Next(s, step));
  }

  /** Every step keeps first orders right if and only if it is not a save that does not fit. */
  lemma NextKeepsFirstIff(s: State, step: Step)
    requires Inv(s) && FirstOrders(s)
    ensures FirstOrders(Next(s, step)) <==> Guarded(s, step)
  {
    if MovesTx(step) {
      TxStepFirst(s, step);
    } else if step.SaveStatus? {
      if step.orderId in s.orders { SaveStatusFirst(s, step.orderId, step.status); }
    } else {
      PlainStepFirst(s, step);
    }
  }

  // ---- whole runs ----

  ghost predicate AlwaysFirst(s: State, steps: seq<Step>)
    decreases |steps|
  {
    FirstOrders(s) && (steps != [] ==> AlwaysFirst(Next(s, steps[0]), steps[1..]))
  }

  ghost predicate AlwaysGuarded(s: State, steps: seq<Step>)
    decreases |steps|
  {
    steps != [] ==> Guarded(s, steps[0]) && AlwaysGuarded(Next(s, steps[0]), steps[1..])
  }

  /** Over every interleaving: first orders stay right throughout if and only if every save on the way fits. */
  lemma {:induction false} AlwaysFirstIff(s: State, steps: seq<Step>)
    requires Inv(s) && FirstOrders(s)
    ensures AlwaysFirst(s, steps) <==> AlwaysGuarded(s, steps)
    ensures AlwaysGuarded(s, steps) ==> FirstOrders(Run(s, steps))
    decreases |steps|
  {
    if steps != [] {
      NextKeeps(s, steps[0]);
      NextKeepsFirstIff(s, steps[0]);
      if Guarded(s, steps[0]) {
        AlwaysFirstIff(Next(s, steps[0]), steps[1..]);
      } else {
        assert !AlwaysFirst(Next(s, steps[0]), steps[1..]);
      }
    }
  }

  /** No save brings a cancelled order back: what the order entity allows when nobody saves a stale order. */
  ghost predicate CancelledStays(s: State, steps: seq<Step>)
    decreases |steps|
  {
    steps != [] ==>
      && (steps[0].SaveStatus? && steps[0].orderId in s.orders && s.orders[steps[0].orderId].status == Cancelled ==>
            steps[0].status == Cancelled)
      && CancelledStays(Next(s, steps[0]), steps[1..])
  }

  lemma {:induction false} CancelledStaysGuards(s: State, steps: seq<Step>)
    requires CancelledStays(s, steps)
    ensures AlwaysGuarded(s, steps)
    decreases |steps|
  {
    if steps != [] { CancelledStaysGuards(Next(s, steps[0]), steps[1..]); }
  }

  lemma ReachableFirst(steps: seq<Step>)
    requires AlwaysGuarded(EMPTY, steps)
    ensures Inv(Run(EMPTY, steps)) && FirstOrders(Run(EMPTY, steps))
  {
    ReachableValid([]);
    ReachableValid(steps);
    assert FirstOrders(EMPTY);
    AlwaysFirstIff(EMPTY, steps);
  }

  /**
   * In every interleaving whose saves fit, two orders of one client that were made with first-order coupons
   * and are not cancelled are the same order.
   */
  lemma OneFirstOrderPerClient(steps: seq<Step>, o: int, p: int)
    requires AlwaysGuarded(EMPTY, steps)
    requires FirstLive(Run(EMPTY, steps), o) && FirstLive(Run(EMPTY, steps), p)
    requires Run(EMPTY, steps).orders[o].clientId == Run(EMPTY, steps).orders[p].clientId
    ensures o == p
  {
    ReachableFirst(steps);
  }

  /** An order with a first-order coupon only ever appears for a client who has no live order at all. */
  lemma FirstOrderIsTheOnlyOne(steps: seq<Step>, step: Step, o: int)
    requires AlwaysGuarded(EMPTY, steps)
    requires o !in Run(EMPTY, steps).orders && FirstLive(Next(Run(EMPTY, steps), step), o)
    ensures var s := Run(EMPTY, steps);
            forall p :: LiveOrder(s, p) ==> s.orders[p].clientId != Next(s, step).orders[o].clientId
  {
    var s := Run(EMPTY, steps);
    ReachableFirst(steps);
    AppearsAtCommit(s, step, o);
    assert TxValid(s, step.tx, s.txs[step.tx]);
    assert NoLiveOrder(s, s.txs[step.tx].clientId);
  }

  lemma AppearsAtCommit(s: State, step: Step, o: int)
    requires o !in s.orders && FirstLive(Next(s, step), o)
    ensures step.Advance? && step.tx in s.txs && s.txs[step.tx].CheckoutTx? && s.txs[step.tx].stage == AtCommit
    ensures var t := s.txs[step.tx];
            && t.orderId == o && FirstOrderCoupon(s.coupons, t.couponId)
            && Next(s, step).orders[o].clientId == t.clientId && Next(s, step).orders[o].couponId == t.couponId
  {
    match step
    case Advance(tx) => assert tx in s.txs && s.txs[tx].CheckoutTx?;
    case _ =>
  }

  /**
   * Why an open check must count: right before a first-order-coupon checkout commits, any save that revives
   * a cancelled order of the client leaves first-order orders as they were, but the commit then goes through
   * beside a live order; if the revived order has such a coupon too, the client has two.
   */
  lemma RevivalBesideOpenCheck(s: State, tx: int, t: Tx, o: int, status: OrderStatus)
    requires At(s, tx, t, AtCommit) && t.first && FirstOrders(s)
    requires o in s.orders && s.orders[o].clientId == t.clientId && status != Cancelled
    ensures var s1 := Next(s, SaveStatus(o, status));
            var s2 := Next(s1, Advance(tx));
            && OneFirstOrder(s1)
            && FirstLive(s2, t.orderId) && LiveOrder(s2, o) && o != t.orderId
            && s2.orders[t.orderId].clientId == s2.orders[o].clientId
            && (FirstOrderCoupon(s.coupons, s.orders[o].couponId) ==> !OneFirstOrder(s2))
  {
    var s1 := Next(s, SaveStatus(o, status));
    assert TxValid(s, tx, t) && NoLiveOrder(s, t.clientId);
    forall k, p | FirstLive(s1, k) && FirstLive(s1, p) && s1.orders[k].clientId == s1.orders[p].clientId
      ensures k == p
    {
      assert k != o ==> FirstLive(s, k);
      assert p != o ==> FirstLive(s, p);
    }
    var s2 := Next(s1, Advance(tx));
    assert s1.txs[tx] == t && s2 == CommitCheckout(s1, tx, t);
    assert FirstLive(s2, t.orderId) && LiveOrder(s2, o);
    if FirstOrderCoupon(s.coupons, s.orders[o].couponId) {
      assert FirstLive(s2, o);
    }
  }
}
