/** What the wallet's operations keep, over single calls and over whole runs. */
module WalletProperties {
  import opened Outcomes
  import opened Sequences
  import opened MoneyCents
  import opened WalletLedger

  function UnreleasedCredit(t: Transaction): int {
    if t.kind == Credit && t.releasedAt.None? then t.amount else 0
  }

  function ReleasedCredit(t: Transaction): int {
    if t.kind == Credit && t.releasedAt.Some? then t.amount else 0
  }

  function CreditAmount(t: Transaction): int {
    if t.kind == Credit then t.amount else 0
  }

  function DebitAmount(t: Transaction): int {
    if t.kind == Debit then t.amount else 0
  }

  function MatchedAmount(r: ReleaseInput): Transaction -> int {
    (t: Transaction) => if Matches(r, t) then t.amount else 0
  }

  function MatchedCount(r: ReleaseInput): Transaction -> int {
    (t: Transaction) => if Matches(r, t) then 1 else 0
  }

  function AfterRelease(r: ReleaseInput): Transaction -> Transaction {
    (t: Transaction) => if Matches(r, t) then MarkReleased(r, t) else t
  }

  predicate WellFormed(t: Transaction) {
    && 1 <= t.amount <= MAX_SAFE
    && (t.kind == Credit && t.releasedBy == Some(Schedule) ==>
          t.releasedAt.Some? && t.availableAt <= t.releasedAt.value)
    && (t.kind == Credit && t.releasedAt.Some? ==> t.releasedBy.Some?)
  }

  /** The cached balances are exactly what the ledger adds up to. */
  ghost predicate Consistent(l: Ledger) {
    && (forall t :: t in l.transactions ==> WellFormed(t))
    && l.locked == Sum(UnreleasedCredit, l.transactions)
    && l.withdrawable == Sum(ReleasedCredit, l.transactions) - Sum(DebitAmount, l.transactions)
    && 0 <= l.withdrawable <= MAX_SAFE
    && l.locked <= MAX_SAFE
  }

  // ---- sums over a ledger ----

  lemma {:induction false} CreditSplit(s: seq<Transaction>)
    ensures Sum(UnreleasedCredit, s) + Sum(ReleasedCredit, s) == Sum(CreditAmount, s)
  {
    if s != [] {
      CreditSplit(s[1..]);
    }
  }

  lemma {:induction false} SumsNonNegative(s: seq<Transaction>)
    requires forall t :: t in s ==> WellFormed(t)
    ensures Sum(UnreleasedCredit, s) >= 0 && Sum(DebitAmount, s) >= 0 && Sum(ReleasedCredit, s) >= 0
  {
    SumNonNegative(UnreleasedCredit, s);
    SumNonNegative(DebitAmount, s);
    SumNonNegative(ReleasedCredit, s);
  }

  /** Releasing moves the matching amounts from unreleased to released and touches nothing else. */
  lemma {:induction false} ReleaseSums(r: ReleaseInput, s: seq<Transaction>)
    ensures var after := Map(AfterRelease(r), s);
            && Sum(UnreleasedCredit, after) == Sum(UnreleasedCredit, s) - Sum(MatchedAmount(r), s)
            && Sum(ReleasedCredit, after) == Sum(ReleasedCredit, s) + Sum(MatchedAmount(r), s)
            && Sum(DebitAmount, after) == Sum(DebitAmount, s)
            && Sum(MatchedAmount(r), after) == 0 && Sum(MatchedCount(r), after) == 0
  {
    if s != [] {
      ReleaseSums(r, s[1..]);
      var after := Map(AfterRelease(r), s);
      assert after[1..] == Map(AfterRelease(r), s[1..]);
    }
  }

  lemma {:induction false} MatchedWithinUnreleased(r: ReleaseInput, s: seq<Transaction>)
    requires forall t :: t in s ==> WellFormed(t)
    ensures 0 <= Sum(MatchedAmount(r), s) <= Sum(UnreleasedCredit, s)
    ensures 0 <= Sum(MatchedCount(r), s)
  {
    if s != [] {
      assert s[0] in s;
      MatchedWithinUnreleased(r, s[1..]);
    }
  }

  // ---- releasing ----

  lemma ReleaseOneMoves(p: Progress, i: nat, r: ReleaseInput)
    requires i < |p.ledger.transactions| && !p.overflow
    requires var amount := p.ledger.transactions[i].amount;
             && 1 <= amount <= p.ledger.locked <= MAX_SAFE
             && 0 <= p.ledger.withdrawable <= MAX_SAFE
             && 0 <= p.result.releasedAmount <= MAX_SAFE - amount
    ensures var t := p.ledger.transactions[i];
            var q := ReleaseOne(p, i, r);
            && q.ledger.transactions == p.ledger.transactions[i := MarkReleased(r, t)]
            && q.ledger.locked == p.ledger.locked - t.amount
            && (q.overflow <==> p.ledger.withdrawable + t.amount > MAX_SAFE)
            && q.ledger.withdrawable == p.ledger.withdrawable + (if q.overflow then 0 else t.amount)
            && (!q.overflow ==>
                  q.result == ReleaseResult(p.result.releasedAmount + t.amount, p.result.releasedCount + 1))
  {
  }

  /** The loop from position `i` marks exactly the matching rows, in place. */
  lemma {:induction false} ReleaseFromRows(p: Progress, i: nat, r: ReleaseInput)
    requires i <= |p.ledger.transactions| && !ReleaseFrom(p, i, r).overflow
    ensures var rows := ReleaseFrom(p, i, r).ledger.transactions;
            && |rows| == |p.ledger.transactions|
            && (forall j :: 0 <= j < i ==> rows[j] == p.ledger.transactions[j])
            && (forall j :: i <= j < |rows| ==> rows[j] == AfterRelease(r)(p.ledger.transactions[j]))
    decreases |p.ledger.transactions| - i
  {
    var s := p.ledger.transactions;
    if i < |s| {
      var q := if Matches(r, s[i]) then ReleaseOne(p, i, r) else p;
      assert q.ledger.transactions == s[i := AfterRelease(r)(s[i])];
      ReleaseFromRows(q, i + 1, r);
    }
  }

  /** The loop from position `i` moves every later matching amount, or stops at an overflow. */
  lemma {:induction false} ReleaseFromAmounts(p: Progress, i: nat, r: ReleaseInput)
    requires i <= |p.ledger.transactions| && !p.overflow
    requires forall k :: i <= k < |p.ledger.transactions| ==> WellFormed(p.ledger.transactions[k])
    requires var rest := Sum(MatchedAmount(r), p.ledger.transactions[i..]);
             && rest <= p.ledger.locked <= MAX_SAFE
             && 0 <= p.ledger.withdrawable <= MAX_SAFE
             && 0 <= p.result.releasedAmount <= MAX_SAFE - rest
    ensures var rest := Sum(MatchedAmount(r), p.ledger.transactions[i..]);
            var q := ReleaseFrom(p, i, r);
            && (q.overflow <==> p.ledger.withdrawable + rest > MAX_SAFE)
            && (!q.overflow ==>
                  && q.ledger.locked == p.ledger.locked - rest
                  && q.ledger.withdrawable == p.ledger.withdrawable + rest
                  && q.result.releasedAmount == p.result.releasedAmount + rest
                  && q.result.releasedCount
                     == p.result.releasedCount + Sum(MatchedCount(r), p.ledger.transactions[i..]))
            && (q.overflow ==> q.ledger.locked + q.ledger.withdrawable < p.ledger.locked + p.ledger.withdrawable)
    decreases |p.ledger.transactions| - i
  {
    var s := p.ledger.transactions;
    if i < |s| {
      assert s[i..] == [s[i]] + s[i + 1..];
      MatchedWithinUnreleased(r, s[i + 1..]);
      if Matches(r, s[i]) {
        ReleaseOneMoves(p, i, r);
        var q := ReleaseOne(p, i, r);
        if !q.overflow {
          assert q.ledger.transactions[i + 1..] == s[i + 1..];
          ReleaseFromAmounts(q, i + 1, r);
        }
      } else {
        ReleaseFromAmounts(p, i + 1, r);
      }
    }
  }

  lemma ReleaseAmounts(l: Ledger, r: ReleaseInput)
    requires Consistent(l)
    ensures var moved := Sum(MatchedAmount(r), l.transactions);
            var p := Release(l, r);
            && (p.overflow <==> l.withdrawable + moved > MAX_SAFE)
            && (!p.overflow ==>
                  && p.ledger.locked == l.locked - moved && p.ledger.withdrawable == l.withdrawable + moved
                  && p.result.releasedAmount == moved
                  && p.result.releasedCount == Sum(MatchedCount(r), l.transactions))
            && (p.overflow ==> p.ledger.locked + p.ledger.withdrawable < l.locked + l.withdrawable)
  {
    MatchedWithinUnreleased(r, l.transactions);
    assert l.transactions[0..] == l.transactions;
    ReleaseFromAmounts(Progress(l, ReleaseResult(0, 0), false), 0, r);
  }

  lemma ReleaseRows(l: Ledger, r: ReleaseInput)
    requires !Release(l, r).overflow
    ensures Release(l, r).ledger.transactions == Map(AfterRelease(r), l.transactions)
  {
    ReleaseFromRows(Progress(l, ReleaseResult(0, 0), false), 0, r);
  }

  lemma ReleasedConsistent(l: Ledger, r: ReleaseInput)
    requires Consistent(l) && (r.source == Schedule ==> !r.ignoreMaturity)
    requires l.withdrawable + Sum(MatchedAmount(r), l.transactions) <= MAX_SAFE
    ensures var moved := Sum(MatchedAmount(r), l.transactions);
            Consistent(Ledger(l.locked - moved, l.withdrawable + moved, Map(AfterRelease(r), l.transactions)))
  {
    MatchedWithinUnreleased(r, l.transactions);
    ReleaseSums(r, l.transactions);
    var after := Map(AfterRelease(r), l.transactions);
    forall t | t in after ensures WellFormed(t) {
      var i :| 0 <= i < |after| && after[i] == t;
      assert WellFormed(l.transactions[i]);
    }
  }

  /**
   * A release moves exactly the matching credits and keeps the ledger consistent; it overflows if and
   * only if the withdrawable balance has no room for them, and then loses track of an amount.
   */
  lemma ReleaseMoves(l: Ledger, r: ReleaseInput)
    requires Consistent(l) && (r.source == Schedule ==> !r.ignoreMaturity)
    ensures var moved := Sum(MatchedAmount(r), l.transactions);
            var p := Release(l, r);
            && (p.overflow <==> l.withdrawable + moved > MAX_SAFE)
            && (!p.overflow ==>
                  && p.ledger == Ledger(l.locked - moved, l.withdrawable + moved, Map(AfterRelease(r), l.transactions))
                  && p.result.releasedAmount == moved
                  && p.result.releasedCount == Sum(MatchedCount(r), l.transactions)
                  && Consistent(p.ledger))
            && (p.overflow ==> p.ledger.locked + p.ledger.withdrawable < l.locked + l.withdrawable)
  {
    ReleaseAmounts(l, r);
    if !Release(l, r).overflow {
      ReleaseRows(l, r);
      ReleasedConsistent(l, r);
    }
  }

  /**
   * A release stamps the order's unreleased credits that are mature, or all of them when maturity is ignored.
   * Every other row stays as it is, in its place: those of other orders, debits and credits released before.
   */
  lemma ReleaseTouchesOnlyMatching(l: Ledger, r: ReleaseInput, i: nat)
    requires !Release(l, r).overflow && i < |l.transactions|
    ensures var t := l.transactions[i];
            var after := Release(l, r).ledger.transactions;
            && |after| == |l.transactions|
            && after[i] ==
               if t.kind == Credit && t.orderId == Some(r.orderId) && t.releasedAt == None
                  && (r.ignoreMaturity || t.availableAt <= r.now) then
                 t.(releasedAt := Some(r.now), releasedBy := Some(r.source))
               else t
  {
    ReleaseRows(l, r);
  }

  /** The amounts of the rows that have a release instant in `after` and had none in `before`. */
  function NewlyStamped(before: seq<Transaction>, after: seq<Transaction>): seq<int>
    requires |before| == |after|
  {
    if before == [] then []
    else
      (if before[0].releasedAt == None && after[0].releasedAt != None then [after[0].amount] else [])
      + NewlyStamped(before[1..], after[1..])
  }

  function Identity(n: int): int {
    n
  }

  lemma {:induction false} StampedAreMatched(r: ReleaseInput, s: seq<Transaction>)
    ensures var stamped := NewlyStamped(s, Map(AfterRelease(r), s));
            Sum(Identity, stamped) == Sum(MatchedAmount(r), s) && |stamped| == Sum(MatchedCount(r), s)
  {
    if s != [] {
      StampedAreMatched(r, s[1..]);
      var after := Map(AfterRelease(r), s);
      assert after[1..] == Map(AfterRelease(r), s[1..]);
      var first := if s[0].releasedAt == None && after[0].releasedAt != None then [after[0].amount] else [];
      SumConcat(Identity, first, NewlyStamped(s[1..], after[1..]));
    }
  }

  /** What a release answers, and moves between the balances, is the total of exactly the rows it stamps. */
  lemma ReleaseAnswersStamped(l: Ledger, r: ReleaseInput)
    requires Consistent(l) && !Release(l, r).overflow
    ensures var p := Release(l, r);
            && |p.ledger.transactions| == |l.transactions|
            && var stamped := NewlyStamped(l.transactions, p.ledger.transactions);
               && p.result.releasedCount == |stamped| && p.result.releasedAmount == Sum(Identity, stamped)
               && p.ledger.locked == l.locked - Sum(Identity, stamped)
               && p.ledger.withdrawable == l.withdrawable + Sum(Identity, stamped)
  {
    ReleaseAmounts(l, r);
    ReleaseRows(l, r);
    StampedAreMatched(r, l.transactions);
  }

  /** Releasing again moves nothing. */
  lemma ReleaseTwice(l: Ledger, r: ReleaseInput)
    requires Consistent(l) && (r.source == Schedule ==> !r.ignoreMaturity)
    requires !Release(l, r).overflow
    ensures var once := Release(l, r).ledger;
            var again := Release(once, r);
            again.ledger == once && again.result == ReleaseResult(0, 0) && !again.overflow
  {
    ReleaseMoves(l, r);
    var once := Release(l, r).ledger;
    ReleaseSums(r, l.transactions);
    ReleaseMoves(once, r);
    assert forall i :: 0 <= i < |once.transactions| ==> !Matches(r, once.transactions[i]);
    assert Map(AfterRelease(r), once.transactions) == once.transactions;
  }

  // ---- credits and withdrawals ----

  lemma SumAppend(f: Transaction -> int, s: seq<Transaction>, t: Transaction)
    ensures Sum(f, s + [t]) == Sum(f, s) + f(t)
    ensures Sum(f, [t] + s) == Sum(f, s) + f(t)
  {
    SumConcat(f, s, [t]);
    SumConcat(f, [t], s);
    assert Sum(f, [t]) == f(t) + Sum(f, [t][1..]);
  }

  /** A credit is refused exactly when its amount is not positive or would overflow the locked balance. */
  lemma CreditKeeps(l: Ledger, c: CreditInput)
    requires Consistent(l)
    ensures CreditLocked(l, c).Ok? <==> c.amount > 0 && l.locked + c.amount <= MAX_SAFE
    ensures CreditLocked(l, c).Ok? ==>
              && Consistent(CreditLocked(l, c).value)
              && Sum(CreditAmount, CreditLocked(l, c).value.transactions)
                 == Sum(CreditAmount, l.transactions) + c.amount
  {
    SumsNonNegative(l.transactions);
    var t := CreditRow(c);
    SumAppend(UnreleasedCredit, l.transactions, t);
    SumAppend(ReleasedCredit, l.transactions, t);
    SumAppend(DebitAmount, l.transactions, t);
    SumAppend(CreditAmount, l.transactions, t);
  }

  /** A withdrawal is refused exactly when it is not positive or exceeds the withdrawable balance. */
  lemma WithdrawKeeps(l: Ledger, w: WithdrawInput)
    requires Consistent(l)
    ensures Withdraw(l, w).Ok? <==> 0 < w.amount <= l.withdrawable
    ensures Withdraw(l, w).Ok? ==>
              && Consistent(Withdraw(l, w).value)
              && Sum(CreditAmount, Withdraw(l, w).value.transactions) == Sum(CreditAmount, l.transactions)
    ensures Withdraw(l, w).Err? ==> Withdraw(l, w).error != InvalidMoney
  {
    var t := DebitRow(w);
    SumAppend(UnreleasedCredit, l.transactions, t);
    SumAppend(ReleasedCredit, l.transactions, t);
    SumAppend(DebitAmount, l.transactions, t);
    SumAppend(CreditAmount, l.transactions, t);
  }

  /** What a credit and a withdrawal write into a consistent ledger, and what they answer when they do not. */
  lemma CreditAndWithdrawWrite(l: Ledger, c: CreditInput, w: WithdrawInput)
    requires Consistent(l)
    ensures CreditLocked(l, c) ==
            if c.amount <= 0 then Err(WalletInvalidAmount)
            else if l.locked + c.amount > MAX_SAFE then Err(InvalidMoney)
            else Ok(Ledger(l.locked + c.amount, l.withdrawable, l.transactions + [Transaction(
                   c.id, Some(c.orderId), c.amount, Credit, None, c.availableAt, None, None, c.createdAt)]))
    ensures Withdraw(l, w) ==
            if w.amount <= 0 then Err(WalletInvalidAmount)
            else if w.amount > l.withdrawable then Err(WalletInsufficientBalance)
            else Ok(Ledger(l.locked, l.withdrawable - w.amount, [Transaction(
                   w.id, None, w.amount, Debit, Some(w.payoutPixKey), w.requestedAt, Some(w.requestedAt), None,
                   w.requestedAt)] + l.transactions))
  {
    SumsNonNegative(l.transactions);
  }

  // ---- saving and reading back ----

  datatype RecordType = CREDIT | DEBIT
  datatype RecordSource = SCHEDULE | ADMIN

  datatype Record = Record(
    id: int, orderId: Option<int>, amount: int, kind: RecordType, payoutPixKey: Option<string>,
    availableAt: int, releasedAt: Option<int>, releasedBy: Option<RecordSource>, createdAt: int)

  function ToRecord(t: Transaction): Record {
    Record(t.id, t.orderId, t.amount, if t.kind == Credit then CREDIT else DEBIT, t.payoutPixKey,
           t.availableAt, t.releasedAt,
           match t.releasedBy case None => None case Some(s) => Some(if s == Admin then ADMIN else SCHEDULE),
           t.createdAt)
  }

  function ToDomain(r: Record): Transaction {
    Transaction(r.id, r.orderId, r.amount, if r.kind == CREDIT then Credit else Debit, r.payoutPixKey,
                r.availableAt, r.releasedAt,
                match r.releasedBy case None => None case Some(s) => Some(if s == ADMIN then Admin else Schedule),
                r.createdAt)
  }

  predicate CreatedBefore(a: Record, b: Record) {
    a.createdAt <= b.createdAt
  }

  /** The ledger read back from stored rows, oldest first. */
  function Reload(stored: seq<Record>): seq<Transaction> {
    Map(ToDomain, Sort(CreatedBefore, stored))
  }

  lemma RecordRoundTrip(t: Transaction)
    ensures ToDomain(ToRecord(t)) == t
    ensures ToRecord(t).kind == CREDIT <==> t.kind == Credit
    ensures t.releasedBy == Some(Admin) <==> ToRecord(t).releasedBy == Some(ADMIN)
    ensures t.releasedBy == None <==> ToRecord(t).releasedBy == None
  {
  }

  lemma CreationIsTotal()
    ensures TotalPreorder(CreatedBefore)
  {
  }

  /** Rows stored from a ledger, in whatever order the database keeps them, read back oldest first. */
  lemma ReloadReorders(s: seq<Transaction>, stored: seq<Record>)
    requires multiset(stored) == multiset(Map(ToRecord, s))
    ensures multiset(Reload(stored)) == multiset(s)
    ensures var r := Reload(stored); forall i, j :: 0 <= i < j < |r| ==> r[i].createdAt <= r[j].createdAt
  {
    CreationIsTotal();
    SortSorts(CreatedBefore, stored);
    forall i, j | 0 <= i < j < |Reload(stored)| ensures Reload(stored)[i].createdAt <= Reload(stored)[j].createdAt {
      assert CreatedBefore(Sort(CreatedBefore, stored)[i], Sort(CreatedBefore, stored)[j]);
    }
    MapPermutation(ToDomain, Sort(CreatedBefore, stored), Map(ToRecord, s));
    forall i | 0 <= i < |s| ensures Map(ToDomain, Map(ToRecord, s))[i] == s[i] {
      RecordRoundTrip(s[i]);
    }
    assert Map(ToDomain, Map(ToRecord, s)) == s;
  }

  /** Ledgers with the same balances and the same rows in possibly different orders. */
  ghost predicate SameUpToOrder(a: Ledger, b: Ledger) {
    a.locked == b.locked && a.withdrawable == b.withdrawable && multiset(a.transactions) == multiset(b.transactions)
  }

  lemma ReorderKeepsConsistent(a: Ledger, b: Ledger)
    requires Consistent(a) && SameUpToOrder(a, b)
    ensures Consistent(b)
    ensures Sum(CreditAmount, a.transactions) == Sum(CreditAmount, b.transactions)
  {
    SameMembers(a.transactions, b.transactions);
    SumPermutation(UnreleasedCredit, a.transactions, b.transactions);
    SumPermutation(ReleasedCredit, a.transactions, b.transactions);
    SumPermutation(DebitAmount, a.transactions, b.transactions);
    SumPermutation(CreditAmount, a.transactions, b.transactions);
  }

  // ---- runs ----

  datatype Operation =
    | CreditOp(credit: CreditInput)
    | ReleaseOp(orderId: int, now: int)
    | ForceReleaseOp(orderId: int, now: int)
    | WithdrawOp(withdrawal: WithdrawInput)
    | SaveAndReloadOp(stored: seq<Record>)

  datatype Outcome = Done | Moved(result: ReleaseResult) | Refused(error: DomainError)

  function ReleaseOutcome(p: Progress): (Ledger, Outcome) {
    (p.ledger, if p.overflow then Refused(InvalidMoney) else Moved(p.result))
  }

  function Settle(l: Ledger, r: Result<Ledger>): (Ledger, Outcome) {
    match r
    case Ok(next) => (next, Done)
    case Err(e) => (l, Refused(e))
  }

  ghost function Apply(l: Ledger, op: Operation): (Ledger, Outcome) {
    match op
    case CreditOp(c) => Settle(l, CreditLocked(l, c))
    case ReleaseOp(orderId, now) => ReleaseOutcome(Release(l, ReleaseInput(orderId, now, Schedule, false)))
    case ForceReleaseOp(orderId, now) => ReleaseOutcome(Release(l, ReleaseInput(orderId, now, Admin, true)))
    case WithdrawOp(w) => Settle(l, Withdraw(l, w))
    case SaveAndReloadOp(stored) =>
      if multiset(stored) == multiset(Map(ToRecord, l.transactions)) then (l.(transactions := Reload(stored)), Done)
      else (l, Done)
  }

  ghost function Run(l: Ledger, ops: seq<Operation>): Ledger
    decreases |ops|
  {
    if ops == [] then l else Run(Apply(l, ops[0]).0, ops[1..])
  }

  /** What each call answered, leaving out saves, which answer nothing. */
  ghost function Answers(l: Ledger, ops: seq<Operation>): seq<Outcome>
    decreases |ops|
  {
    if ops == [] then []
    else
      var (next, outcome) := Apply(l, ops[0]);
      (if ops[0].SaveAndReloadOp? then [] else [outcome]) + Answers(next, ops[1..])
  }

  /** The positive amounts a run asks to credit. */
  function Requested(op: Operation): int {
    if op.CreditOp? && op.credit.amount > 0 then op.credit.amount else 0
  }

  lemma BalancesBounded(l: Ledger)
    requires Consistent(l)
    ensures l.locked >= 0
    ensures l.locked + l.withdrawable + Sum(DebitAmount, l.transactions) == Sum(CreditAmount, l.transactions)
    ensures l.locked + l.withdrawable <= Sum(CreditAmount, l.transactions)
  {
    SumsNonNegative(l.transactions);
    CreditSplit(l.transactions);
  }

  /** One call keeps the ledger consistent and never trips a money guard while totals stay safe. */
  lemma ApplyKeeps(l: Ledger, op: Operation)
    requires Consistent(l) && Sum(CreditAmount, l.transactions) + Requested(op) <= MAX_SAFE
    ensures Consistent(Apply(l, op).0)
    ensures Apply(l, op).1 != Refused(InvalidMoney)
    ensures Sum(CreditAmount, Apply(l, op).0.transactions) == Sum(CreditAmount, l.transactions) + Requested(op)
  {
    BalancesBounded(l);
    match op
    case CreditOp(c) => CreditKeeps(l, c);
    case WithdrawOp(w) => WithdrawKeeps(l, w);
    case ReleaseOp(orderId, now) => ReleaseKeepsTotal(l, ReleaseInput(orderId, now, Schedule, false));
    case ForceReleaseOp(orderId, now) => ReleaseKeepsTotal(l, ReleaseInput(orderId, now, Admin, true));
    case SaveAndReloadOp(stored) =>
      if multiset(stored) == multiset(Map(ToRecord, l.transactions)) {
        ReloadReorders(l.transactions, stored);
        ReorderKeepsConsistent(l, l.(transactions := Reload(stored)));
      }
  }

  lemma ReleaseKeepsTotal(l: Ledger, r: ReleaseInput)
    requires Consistent(l) && Sum(CreditAmount, l.transactions) <= MAX_SAFE
    requires r.source == Schedule ==> !r.ignoreMaturity
    ensures !Release(l, r).overflow && Consistent(Release(l, r).ledger)
    ensures Sum(CreditAmount, Release(l, r).ledger.transactions) == Sum(CreditAmount, l.transactions)
  {
    BalancesBounded(l);
    MatchedWithinUnreleased(r, l.transactions);
    ReleaseMoves(l, r);
    ReleaseSums(r, l.transactions);
    CreditSplit(l.transactions);
    CreditSplit(Map(AfterRelease(r), l.transactions));
  }

  /**
   * Conservation over every run that asks for no more than the safe total: balances stay non-negative
   * and match the ledger, locked + withdrawable + withdrawn is everything credited, and no call ever
   * answers with a money overflow.
   */
  lemma {:induction false} RunConserves(l: Ledger, ops: seq<Operation>)
    requires Consistent(l) && Sum(CreditAmount, l.transactions) + Sum(Requested, ops) <= MAX_SAFE
    ensures var end := Run(l, ops);
            && Consistent(end) && end.locked >= 0 && end.withdrawable >= 0
            && end.locked + end.withdrawable + Sum(DebitAmount, end.transactions)
               == Sum(CreditAmount, l.transactions) + Sum(Requested, ops)
    ensures Refused(InvalidMoney) !in Answers(l, ops)
    decreases |ops|
  {
    if ops == [] {
      BalancesBounded(l);
    } else {
      SumNonNegative(Requested, ops[1..]);
      ApplyKeeps(l, ops[0]);
      RunConserves(Apply(l, ops[0]).0, ops[1..]);
    }
  }

  /** The same for a wallet from its creation on. */
  lemma NewWalletConserves(ops: seq<Operation>)
    requires Sum(Requested, ops) <= MAX_SAFE
    ensures var end := Run(EMPTY, ops);
            && end.locked >= 0 && end.withdrawable >= 0
            && end.locked + end.withdrawable + Sum(DebitAmount, end.transactions) == Sum(Requested, ops)
    ensures Refused(InvalidMoney) !in Answers(EMPTY, ops)
  {
    assert Consistent(EMPTY) && Sum(CreditAmount, EMPTY.transactions) == 0;
    RunConserves(EMPTY, ops);
  }

  // ---- each credit is released at most once ----

  /** The loop leaves released rows alone, also when a guard stops it half way. */
  lemma {:induction false} ReleaseKeepsReleased(p: Progress, i: nat, r: ReleaseInput, k: nat)
    requires i <= |p.ledger.transactions| && k < |p.ledger.transactions| && p.ledger.transactions[k].releasedAt.Some?
    ensures var rows := ReleaseFrom(p, i, r).ledger.transactions;
            |rows| == |p.ledger.transactions| && rows[k] == p.ledger.transactions[k]
    decreases |p.ledger.transactions| - i
  {
    if i < |p.ledger.transactions| && !p.overflow {
      var q := if Matches(r, p.ledger.transactions[i]) then ReleaseOne(p, i, r) else p;
      assert |q.ledger.transactions| == |p.ledger.transactions|;
      assert q.ledger.transactions[k] == p.ledger.transactions[k];
      ReleaseKeepsReleased(q, i + 1, r, k);
    }
  }

  lemma ApplyKeepsReleased(l: Ledger, op: Operation, t: Transaction)
    requires t in l.transactions && t.releasedAt.Some?
    ensures t in Apply(l, op).0.transactions
  {
    match op
    case CreditOp(c) =>
    case WithdrawOp(w) =>
    case ReleaseOp(orderId, now) => ReleaseKeepsMember(l, ReleaseInput(orderId, now, Schedule, false), t);
    case ForceReleaseOp(orderId, now) => ReleaseKeepsMember(l, ReleaseInput(orderId, now, Admin, true), t);
    case SaveAndReloadOp(stored) =>
      if multiset(stored) == multiset(Map(ToRecord, l.transactions)) {
        ReloadReorders(l.transactions, stored);
        SameMembers(Reload(stored), l.transactions);
      }
  }

  lemma ReleaseKeepsMember(l: Ledger, r: ReleaseInput, t: Transaction)
    requires t in l.transactions && t.releasedAt.Some?
    ensures t in Release(l, r).ledger.transactions
  {
    var k: nat :| k < |l.transactions| && l.transactions[k] == t;
    ReleaseKeepsReleased(Progress(l, ReleaseResult(0, 0), false), 0, r, k);
    assert Release(l, r).ledger.transactions[k] == t;
  }

  /**
   * A credit is released at most once: over every run, reloads and overflows included, a released row is
   * still there at the end, with the instant and the source of its release.
   */
  lemma {:induction false} ReleasedStays(l: Ledger, ops: seq<Operation>, t: Transaction)
    requires t in l.transactions && t.releasedAt.Some?
    ensures t in Run(l, ops).transactions
    decreases |ops|
  {
    if ops != [] {
      ApplyKeepsReleased(l, ops[0], t);
      ReleasedStays(Apply(l, ops[0]).0, ops[1..], t);
    }
  }

  // ---- a run that overflows ----

  /** Credits of all safe cents and then of one more, each released at once. */
  function OverflowingRun(): seq<Operation> {
    [CreditOp(CreditInput(1, 1, MAX_SAFE, 0, 0)), ForceReleaseOp(1, 0),
     CreditOp(CreditInput(2, 2, 1, 0, 0)), ForceReleaseOp(2, 0)]
  }

  const FIRST := CreditRow(CreditInput(1, 1, MAX_SAFE, 0, 0))
  const RELEASED := FIRST.(releasedAt := Some(0), releasedBy := Some(Admin))
  const SECOND := CreditRow(CreditInput(2, 2, 1, 0, 0))
  const STUCK := SECOND.(releasedAt := Some(0), releasedBy := Some(Admin))

  lemma FirstRelease()
    ensures Apply(Ledger(MAX_SAFE, 0, [FIRST]), ForceReleaseOp(1, 0)).0 == Ledger(0, MAX_SAFE, [RELEASED])
  {
    var r := ReleaseInput(1, 0, Admin, true);
    var p := Progress(Ledger(MAX_SAFE, 0, [FIRST]), ReleaseResult(0, 0), false);
    var q := Progress(Ledger(0, MAX_SAFE, [RELEASED]), ReleaseResult(MAX_SAFE, 1), false);
    assert [FIRST][0 := RELEASED] == [RELEASED];
    assert ReleaseOne(p, 0, r) == q;
    assert ReleaseFrom(p, 0, r) == ReleaseFrom(q, 1, r) == q;
  }

  lemma SecondRelease()
    ensures Apply(Ledger(1, MAX_SAFE, [RELEASED, SECOND]), ForceReleaseOp(2, 0))
            == (Ledger(0, MAX_SAFE, [RELEASED, STUCK]), Refused(InvalidMoney))
  {
    var r := ReleaseInput(2, 0, Admin, true);
    var p := Progress(Ledger(1, MAX_SAFE, [RELEASED, SECOND]), ReleaseResult(0, 0), false);
    var q := Progress(Ledger(0, MAX_SAFE, [RELEASED, STUCK]), ReleaseResult(0, 0), true);
    assert [RELEASED, SECOND][1 := STUCK] == [RELEASED, STUCK];
    assert ReleaseOne(p, 1, r) == q;
    assert ReleaseFrom(p, 0, r) == ReleaseFrom(p, 1, r) == ReleaseFrom(q, 2, r) == q;
  }

  /** In memory a wallet can overflow: the last release throws and one cent is in neither balance. */
  lemma OverflowReachable()
    ensures var end := Run(EMPTY, OverflowingRun());
            && Sum(CreditAmount, end.transactions) == MAX_SAFE + 1 && Sum(UnreleasedCredit, end.transactions) == 0
            && end.locked == 0 && end.withdrawable == MAX_SAFE
    ensures Refused(InvalidMoney) in Answers(EMPTY, OverflowingRun())
  {
    var ops := OverflowingRun();
    var l1, l2 := Ledger(MAX_SAFE, 0, [FIRST]), Ledger(0, MAX_SAFE, [RELEASED]);
    var l3, l4 := Ledger(1, MAX_SAFE, [RELEASED, SECOND]), Ledger(0, MAX_SAFE, [RELEASED, STUCK]);
    FirstRelease();
    SecondRelease();
    assert Apply(EMPTY, ops[0]).0 == l1 && Apply(l2, ops[2]).0 == l3;
    RunFour(ops, l1, l2, l3, l4);
    SumTwo(CreditAmount, RELEASED, STUCK);
    SumTwo(UnreleasedCredit, RELEASED, STUCK);
  }

  lemma SumTwo(f: Transaction -> int, a: Transaction, b: Transaction)
    ensures Sum(f, [a, b]) == f(a) + f(b)
  {
    assert [a, b] == [a] + [b];
    SumAppend(f, [a], b);
    SumAppend(f, [], a);
    assert [] + [a] == [a];
  }

  lemma RunFour(ops: seq<Operation>, l1: Ledger, l2: Ledger, l3: Ledger, l4: Ledger)
    requires |ops| == 4 && forall i :: 0 <= i < 4 ==> !ops[i].SaveAndReloadOp?
    requires Apply(EMPTY, ops[0]).0 == l1 && Apply(l1, ops[1]).0 == l2
    requires Apply(l2, ops[2]).0 == l3 && Apply(l3, ops[3]).0 == l4
    ensures Run(EMPTY, ops) == l4 && Apply(l3, ops[3]).1 in Answers(EMPTY, ops)
  {
    assert ops[1..][1..] == ops[2..] && ops[2..][1..] == ops[3..] && ops[3..][1..] == [];
    assert Run(l3, ops[3..]) == Run(l4, []);
    assert Run(l1, ops[1..]) == Run(l2, ops[2..]) == Run(l3, ops[3..]);
    assert Apply(l3, ops[3]).1 in Answers(l3, ops[3..]);
    assert Apply(l3, ops[3]).1 in Answers(l2, ops[2..]);
    assert Apply(l3, ops[3]).1 in Answers(l1, ops[1..]);
  }

  // ---- the order of the ledger does not matter ----

  lemma ReleaseIgnoresOrder(a: Ledger, b: Ledger, r: ReleaseInput)
    requires Consistent(a) && SameUpToOrder(a, b) && (r.source == Schedule ==> !r.ignoreMaturity)
    ensures Release(a, r).overflow <==> Release(b, r).overflow
    ensures !Release(a, r).overflow ==>
              && Release(a, r).result == Release(b, r).result
              && SameUpToOrder(Release(a, r).ledger, Release(b, r).ledger)
  {
    ReorderKeepsConsistent(a, b);
    ReleaseMoves(a, r);
    ReleaseMoves(b, r);
    SumPermutation(MatchedAmount(r), a.transactions, b.transactions);
    SumPermutation(MatchedCount(r), a.transactions, b.transactions);
    MapPermutation(AfterRelease(r), a.transactions, b.transactions);
  }

  lemma ApplyIgnoresOrder(a: Ledger, b: Ledger, op: Operation)
    requires Consistent(a) && SameUpToOrder(a, b) && !op.SaveAndReloadOp?
    requires Apply(a, op).1 != Refused(InvalidMoney)
    ensures Apply(a, op).1 == Apply(b, op).1
    ensures SameUpToOrder(Apply(a, op).0, Apply(b, op).0)
  {
    match op
    case ReleaseOp(orderId, now) => ReleaseIgnoresOrder(a, b, ReleaseInput(orderId, now, Schedule, false));
    case ForceReleaseOp(orderId, now) => ReleaseIgnoresOrder(a, b, ReleaseInput(orderId, now, Admin, true));
    case CreditOp(c) =>
    case WithdrawOp(w) =>
  }

  predicate IsCall(op: Operation) {
    !op.SaveAndReloadOp?
  }

  /** Saving and reloading anywhere in a run changes no answer and no balance. */
  lemma {:induction false} SavesAreInvisible(a: Ledger, b: Ledger, ops: seq<Operation>)
    requires Consistent(a) && SameUpToOrder(a, b)
    requires Sum(CreditAmount, a.transactions) + Sum(Requested, ops) <= MAX_SAFE
    ensures SameUpToOrder(Run(a, ops), Run(b, Filter(IsCall, ops)))
    ensures Answers(a, ops) == Answers(b, Filter(IsCall, ops))
    decreases |ops|
  {
    if ops != [] {
      var op := ops[0];
      SumNonNegative(Requested, ops[1..]);
      ApplyKeeps(a, op);
      var nextA := Apply(a, op).0;
      if op.SaveAndReloadOp? {
        if multiset(op.stored) == multiset(Map(ToRecord, a.transactions)) {
          ReloadReorders(a.transactions, op.stored);
        }
        SavesAreInvisible(nextA, b, ops[1..]);
      } else {
        ApplyIgnoresOrder(a, b, op);
        SavesAreInvisible(nextA, Apply(b, op).0, ops[1..]);
        var rest := Filter(IsCall, ops[1..]);
        assert Filter(IsCall, ops) == [op] + rest && ([op] + rest)[1..] == rest;
      }
    }
  }
}
