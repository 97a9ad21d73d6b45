/** A run from an empty database in which saving a stale order ends in two live first-order-coupon orders. */
module CheckoutRevival {
  import opened Checkout
  import opened CheckoutAlone
  import opened CheckoutFirstOrders
  import opened CheckoutRuns
  import opened OrderStatuses
  import opened Outcomes

  function Advances(tx: int, n: nat): seq<Step>
    decreases n
  {
    if n == 0 then [] else [Advance(tx)] + Advances(tx, n - 1)
  }

  lemma {:induction false} AdvancesRun(s: State, tx: int, n: nat)
    ensures Run(s, Advances(tx, n)) == AdvanceTimes(s, tx, n)
    decreases n
  {
    if n > 0 {
      assert Advances(tx, n)[1..] == Advances(tx, n - 1);
      AdvancesRun(Next(s, Advance(tx)), tx, n - 1);
    }
  }

  lemma {:induction false} RunConcat(s: State, a: seq<Step>, b: seq<Step>)
    ensures Run(s, a + b) == Run(Run(s, a), b)
    decreases |a|
  {
    if a == [] {
      assert a + b == b;
    } else {
      assert (a + b)[1..] == a[1..] + b;
      RunConcat(Next(s, a[0]), a[1..], b);
    }
  }

  lemma RunOne(s: State, step: Step)
    ensures Run(s, [step]) == Next(s, step)
  {
    assert [step][1..] == [];
    assert Run(Next(s, step), []) == Next(s, step);
  }

  lemma {:induction false} GuardedConcat(s: State, a: seq<Step>, b: seq<Step>)
    requires AlwaysGuarded(s, a) && AlwaysGuarded(Run(s, a), b)
    ensures AlwaysGuarded(s, a + b)
    decreases |a|
  {
    if a == [] {
      assert a + b == b;
    } else {
      assert (a + b)[1..] == a[1..] + b;
      GuardedConcat(Next(s, a[0]), a[1..], b);
    }
  }

  predicate SavesNothing(steps: seq<Step>) {
    forall i :: 0 <= i < |steps| ==> !steps[i].SaveStatus?
  }

  lemma {:induction false} SavelessGuarded(s: State, steps: seq<Step>)
    requires SavesNothing(steps)
    ensures AlwaysGuarded(s, steps)
    decreases |steps|
  {
    if steps != [] { SavelessGuarded(Next(s, steps[0]), steps[1..]); }
  }

  // ---- a checkout up to its commit ----

  function Start(orderId: int, clientId: int, quoteId: int, now: int): Tx {
    CheckoutTx(orderId, clientId, quoteId, now, AtQuote, None, false)
  }

  /** A first-order-coupon checkout that only has its commit left, with nothing beside it. */
  function ReadyToCommit(s: State, tx: int, t: Tx): State
    requires t.CheckoutTx? && t.quoteId in s.quotes
  {
    s.(userLocks := map[t.clientId := tx], userShares := {Share(t.clientId, tx)},
       quoteLocks := map[t.quoteId := tx], orderLocks := map[t.orderId := tx],
       txs := s.txs[tx := t.(stage := AtCommit, couponId := s.quotes[t.quoteId].couponId, first := true)])
  }

  predicate FirstOrderPasses(s: State, t: Tx)
    requires t.CheckoutTx?
  {
    && t.quoteId in s.quotes && Consumable(s.quotes[t.quoteId], t.clientId, t.now) && t.orderId !in s.orders
    && FirstOrderCoupon(s.coupons, s.quotes[t.quoteId].couponId) && !HasLiveOrder(s.orders, t.clientId)
  }

  lemma OneAdvance(s: State, s1: State, tx: int, n: nat)
    requires Next(s, Advance(tx)) == s1 && n > 0
    ensures AdvanceTimes(s, tx, n) == AdvanceTimes(s1, tx, n - 1)
  {
  }

  /** A first-order-coupon checkout that holds its client's row, about to look at the client's orders. */
  function RowLocked(s: State, tx: int, t: Tx): State
    requires t.CheckoutTx? && t.quoteId in s.quotes
  {
    s.(userLocks := map[t.clientId := tx],
       txs := s.txs[tx := t.(stage := AtOrders, couponId := s.quotes[t.quoteId].couponId, first := true)])
  }

  lemma ThreeToLock(s: State, tx: int, t: Tx, n: nat)
    requires NoLocks(s) && t.CheckoutTx? && t.stage == AtQuote && n >= 3
    requires t.quoteId in s.quotes && Consumable(s.quotes[t.quoteId], t.clientId, t.now)
    requires FirstOrderCoupon(s.coupons, s.quotes[t.quoteId].couponId)
    ensures AdvanceTimes(Goto(s, tx, t), tx, n) == AdvanceTimes(RowLocked(s, tx, t), tx, n - 3)
  {
    var read := t.(stage := AtCoupon, couponId := s.quotes[t.quoteId].couponId);
    var first := read.(stage := AtUserLock, first := true);
    assert Next(Goto(s, tx, t), Advance(tx)) == Goto(s, tx, read);
    assert Next(Goto(s, tx, read), Advance(tx)) == Goto(s, tx, first);
    assert Next(Goto(s, tx, first), Advance(tx)) == RowLocked(s, tx, t);
    OneAdvance(Goto(s, tx, t), Goto(s, tx, read), tx, n);
    OneAdvance(Goto(s, tx, read), Goto(s, tx, first), tx, n - 1);
    OneAdvance(Goto(s, tx, first), RowLocked(s, tx, t), tx, n - 2);
  }

  /** Past its check, with the order inserted and its quote still to be consumed. */
  function Inserted(s: State, tx: int, t: Tx): State
    requires t.CheckoutTx? && t.quoteId in s.quotes
  {
    var checked := RowLocked(s, tx, t);
    Goto(checked.(userShares := {Share(t.clientId, tx)}, orderLocks := map[t.orderId := tx]), tx,
         checked.txs[tx].(stage := AtConsume))
  }

  lemma CheckAndInsert(s: State, tx: int, t: Tx, n: nat)
    requires NoLocks(s) && t.CheckoutTx? && FirstOrderPasses(s, t) && n >= 2
    ensures AdvanceTimes(RowLocked(s, tx, t), tx, n) == AdvanceTimes(Inserted(s, tx, t), tx, n - 2)
  {
    var locked := RowLocked(s, tx, t);
    var checked := Goto(locked, tx, locked.txs[tx].(stage := AtInsert));
    assert Next(locked, Advance(tx)) == checked;
    assert Next(checked, Advance(tx)) == Inserted(s, tx, t);
    OneAdvance(locked, checked, tx, n);
    OneAdvance(checked, Inserted(s, tx, t), tx, n - 1);
  }

  lemma ConsumeLast(s: State, tx: int, t: Tx)
    requires NoLocks(s) && t.CheckoutTx? && FirstOrderPasses(s, t)
    ensures AdvanceTimes(Inserted(s, tx, t), tx, 1) == ReadyToCommit(s, tx, t)
  {
    assert Next(Inserted(s, tx, t), Advance(tx)) == ReadyToCommit(s, tx, t);
    OneAdvance(Inserted(s, tx, t), ReadyToCommit(s, tx, t), tx, 1);
  }

  lemma SixAdvances(s: State, tx: int, t: Tx)
    requires NoLocks(s) && tx !in s.txs && t.CheckoutTx? && MayBegin(s, t) && FirstOrderPasses(s, t)
    ensures AdvanceTimes(Next(s, Begin(tx, t)), tx, 6) == ReadyToCommit(s, tx, t)
  {
    assert Next(s, Begin(tx, t)) == Goto(s, tx, t);
    ThreeToLock(s, tx, t, 6);
    CheckAndInsert(s, tx, t, 3);
    ConsumeLast(s, tx, t);
  }

  // ---- the run ----

  const CLIENT := 7

  function Opening(): seq<Step> {
    [CreateCoupon(1, true), CreateQuote(1, CLIENT, Some(1), 10), CreateQuote(2, CLIENT, Some(1), 10)]
  }

  const OPENED := State(
    map[1 := Quote(CLIENT, Some(1), 10, None, None), 2 := Quote(CLIENT, Some(1), 10, None, None)],
    map[], map[1 := Coupon(true)], map[], {}, map[], map[], map[], 0, map[1 := Tally(0, 0), 2 := Tally(0, 0)])

  lemma OpeningRuns()
    ensures Run(EMPTY, Opening()) == OPENED
  {
    var s1 := EMPTY.(coupons := map[1 := Coupon(true)]);
    var s2 := s1.(quotes := map[1 := Quote(CLIENT, Some(1), 10, None, None)], tallies := map[1 := Tally(0, 0)]);
    assert Next(EMPTY, CreateCoupon(1, true)) == s1;
    assert Next(s1, CreateQuote(1, CLIENT, Some(1), 10)) == s2;
    assert Next(s2, CreateQuote(2, CLIENT, Some(1), 10)) == OPENED;
    assert Opening()[1..][1..] == [CreateQuote(2, CLIENT, Some(1), 10)];
    RunOne(s2, CreateQuote(2, CLIENT, Some(1), 10));
    assert Run(s1, Opening()[1..]) == Run(s2, Opening()[1..][1..]);
  }

  /** An order is placed with a first-order coupon and cancelled. */
  function FirstOrder(): seq<Step> {
    Opening() + FirstCheckout() + [SaveStatus(101, Cancelled)]
  }

  function FirstCheckout(): seq<Step> {
    [Begin(1, Start(101, CLIENT, 1, 0))] + Advances(1, 7)
  }

  /** Another checkout of the same client gets ready to commit. */
  function SecondReady(): seq<Step> {
    FirstOrder() + ([Begin(2, Start(102, CLIENT, 2, 0))] + Advances(2, 6))
  }

  /** The cancelled order is saved as it was read before, then the checkout commits. */
  function Revival(): seq<Step> {
    [SaveStatus(101, PendingBooster)] + [Advance(2)]
  }

  /** The first checkout, alone, on the rows that `Opening` leaves. */
  lemma PlacedRuns()
    ensures var s := Run(EMPTY, Opening() + FirstCheckout());
            && NoLocks(s) && s.txs == map[] && s.clock == 0 && s.coupons == OPENED.coupons
            && s.orders == map[101 := OrderRow(CLIENT, Some(1), AwaitingPayment, Some(1))]
            && 2 in s.quotes && s.quotes[2] == OPENED.quotes[2]
  {
    var t := Start(101, CLIENT, 1, 0);
    OpeningRuns();
    RunConcat(EMPTY, Opening(), FirstCheckout());
    RunConcat(OPENED, [Begin(1, t)], Advances(1, 7));
    RunOne(OPENED, Begin(1, t));
    AdvancesRun(Next(OPENED, Begin(1, t)), 1, 7);
    LoneCheckout(OPENED, 1, 101, CLIENT, 1, 0);
    assert Accepts(OPENED, t);
  }

  lemma FirstOrderGuarded()
    ensures AlwaysGuarded(EMPTY, FirstOrder())
  {
    var cancel := [SaveStatus(101, Cancelled)];
    AdvancesSaveNothing(1, 7);
    SavelessGuarded(EMPTY, Opening() + FirstCheckout());
    assert cancel[1..] == [];
    assert AlwaysGuarded(Run(EMPTY, Opening() + FirstCheckout()), cancel);
    GuardedConcat(EMPTY, Opening() + FirstCheckout(), cancel);
  }

  lemma FirstOrderRuns()
    ensures var s := Run(EMPTY, FirstOrder());
            && NoLocks(s) && s.txs == map[] && s.clock == 0 && s.coupons == OPENED.coupons
            && s.orders == map[101 := OrderRow(CLIENT, Some(1), Cancelled, Some(1))]
            && 2 in s.quotes && s.quotes[2] == OPENED.quotes[2]
  {
    PlacedRuns();
    RunConcat(EMPTY, Opening() + FirstCheckout(), [SaveStatus(101, Cancelled)]);
    RunOne(Run(EMPTY, Opening() + FirstCheckout()), SaveStatus(101, Cancelled));
  }

  lemma {:induction false} AdvancesSaveNothing(tx: int, n: nat)
    ensures SavesNothing(Advances(tx, n))
    decreases n
  {
    if n > 0 { AdvancesSaveNothing(tx, n - 1); }
  }

  lemma SecondReadyRuns()
    ensures AlwaysGuarded(EMPTY, SecondReady())
    ensures var s := Run(EMPTY, FirstOrder());
            var t := Start(102, CLIENT, 2, 0);
            2 in s.quotes && Run(EMPTY, SecondReady()) == ReadyToCommit(s, 2, t)
  {
    FirstOrderRuns();
    var s := Run(EMPTY, FirstOrder());
    var t := Start(102, CLIENT, 2, 0);
    var checkout := [Begin(2, t)] + Advances(2, 6);
    RunConcat(EMPTY, FirstOrder(), checkout);
    RunConcat(s, [Begin(2, t)], Advances(2, 6));
    RunOne(s, Begin(2, t));
    AdvancesRun(Next(s, Begin(2, t)), 2, 6);
    SixAdvances(s, 2, t);
    FirstOrderGuarded();
    AdvancesSaveNothing(2, 6);
    SavelessGuarded(s, checkout);
    GuardedConcat(EMPTY, FirstOrder(), checkout);
  }

  lemma ReadyFacts()
    ensures var s := Run(EMPTY, SecondReady());
            && 2 in s.txs && At(s, 2, s.txs[2], AtCommit) && FirstOrders(s)
            && s.txs[2].orderId == 102 && s.txs[2].clientId == CLIENT && s.txs[2].first
            && 101 in s.orders && s.orders[101].clientId == CLIENT
            && FirstOrderCoupon(s.coupons, s.orders[101].couponId)
  {
    FirstOrderRuns();
    SecondReadyRuns();
    ReachableFirst(SecondReady());
  }

  lemma RevivalRuns()
    ensures var s1 := Next(Run(EMPTY, SecondReady()), SaveStatus(101, PendingBooster));
            && Run(EMPTY, SecondReady() + [SaveStatus(101, PendingBooster)]) == s1
            && Run(EMPTY, SecondReady() + Revival()) == Next(s1, Advance(2))
  {
    var s := Run(EMPTY, SecondReady());
    RunConcat(EMPTY, SecondReady(), [SaveStatus(101, PendingBooster)]);
    RunOne(s, SaveStatus(101, PendingBooster));
    RunConcat(EMPTY, SecondReady(), Revival());
    RunConcat(s, [SaveStatus(101, PendingBooster)], [Advance(2)]);
    RunOne(Next(s, SaveStatus(101, PendingBooster)), Advance(2));
  }

  lemma RevivedIsFirstLive(s: State, tx: int, t: Tx, o: int, status: OrderStatus)
    requires At(s, tx, t, AtCommit) && t.first && FirstOrders(s) && o in s.orders && status != Cancelled
    requires s.orders[o].clientId == t.clientId && FirstOrderCoupon(s.coupons, s.orders[o].couponId)
    ensures var s1 := Next(s, SaveStatus(o, status));
            var s2 := Next(s1, Advance(tx));
            && OneFirstOrder(s1) && FirstLive(s2, o) && FirstLive(s2, t.orderId)
            && s2.orders[o].clientId == s2.orders[t.orderId].clientId
  {
    RevivalBesideOpenCheck(s, tx, t, o, status);
    var s1 := Next(s, SaveStatus(o, status));
    assert Next(s1, Advance(tx)) == CommitCheckout(s1, tx, t);
  }

  /**
   * Reachable from an empty database: with one checkout ready to commit, the save of a stale order leaves
   * its client one first-order-coupon order at most, and the commit makes it two.
   */
  lemma StaleSaveEndsInTwoFirstOrders()
    ensures AlwaysGuarded(EMPTY, SecondReady())
    ensures OneFirstOrder(Run(EMPTY, SecondReady() + [SaveStatus(101, PendingBooster)]))
    ensures var end := Run(EMPTY, SecondReady() + Revival());
            FirstLive(end, 101) && FirstLive(end, 102) && end.orders[101].clientId == end.orders[102].clientId
  {
    var s := Run(EMPTY, SecondReady());
    SecondReadyRuns();
    ReadyFacts();
    RevivalRuns();
    RevivedIsFirstLive(s, 2, s.txs[2], 101, PendingBooster);
  }
}
