/** A booster's wallet: two cached balances against a ledger of transactions. */
module WalletLedger {
  import opened Outcomes
  import opened MoneyCents

  datatype TransactionType = Credit | Debit
  datatype ReleaseSource = Schedule | Admin

  datatype Transaction = Transaction(
    id: int, orderId: Option<int>, amount: int, kind: TransactionType, payoutPixKey: Option<string>,
    availableAt: int, releasedAt: Option<int>, releasedBy: Option<ReleaseSource>, createdAt: int)

  datatype Ledger = Ledger(locked: int, withdrawable: int, transactions: seq<Transaction>)

  datatype CreditInput = CreditInput(id: int, orderId: int, amount: int, availableAt: int, createdAt: int)
  datatype ReleaseInput = ReleaseInput(orderId: int, now: int, source: ReleaseSource, ignoreMaturity: bool)
  datatype WithdrawInput = WithdrawInput(id: int, amount: int, payoutPixKey: string, requestedAt: int)

  datatype ReleaseResult = ReleaseResult(releasedAmount: int, releasedCount: nat)

  const EMPTY := Ledger(0, 0, [])

  function CreditRow(c: CreditInput): Transaction {
    Transaction(c.id, Some(c.orderId), c.amount, Credit, None, c.availableAt, None, None, c.createdAt)
  }

  function DebitRow(w: WithdrawInput): Transaction {
    Transaction(
      w.id, None, w.amount, Debit, Some(w.payoutPixKey), w.requestedAt, Some(w.requestedAt), None, w.requestedAt)
  }

  function CreditLocked(l: Ledger, c: CreditInput): Result<Ledger> {
    if c.amount <= 0 then Err(WalletInvalidAmount)
    else
      var balance :- FromCents(l.locked);
      var amount :- FromCents(c.amount);
      var locked :- Add(balance, amount);
      Ok(Ledger(locked, l.withdrawable, l.transactions + [CreditRow(c)]))
  }

  function Withdraw(l: Ledger, w: WithdrawInput): Result<Ledger> {
    if w.amount <= 0 then Err(WalletInvalidAmount)
    else if w.amount > l.withdrawable then Err(WalletInsufficientBalance)
    else
      var balance :- FromCents(l.withdrawable);
      var amount :- FromCents(w.amount);
      var withdrawable :- Subtract(balance, amount);
      Ok(Ledger(l.locked, withdrawable, [DebitRow(w)] + l.transactions))
  }

  predicate Matches(r: ReleaseInput, t: Transaction) {
    && t.kind == Credit
    && t.orderId == Some(r.orderId)
    && t.releasedAt.None?
    && (r.ignoreMaturity || t.availableAt <= r.now)
  }

  function MarkReleased(r: ReleaseInput, t: Transaction): Transaction {
    t.(releasedAt := Some(r.now), releasedBy := Some(r.source))
  }

  /** Where a release stands: the ledger so far, what it has moved, and whether an amount overflowed. */
  datatype Progress = Progress(ledger: Ledger, result: ReleaseResult, overflow: bool)

  /** One matching transaction: mark it, then move its amount, stopping where a guard fails. */
  function ReleaseOne(p: Progress, i: nat, r: ReleaseInput): Progress
    requires i < |p.ledger.transactions|
  {
    var t := p.ledger.transactions[i];
    var marked := p.ledger.(transactions := p.ledger.transactions[i := MarkReleased(r, t)]);
    if !SafeInteger(marked.locked) || !SafeInteger(t.amount) || !SafeInteger(marked.locked - t.amount) then
      p.(ledger := marked, overflow := true)
    else
      var unlocked := marked.(locked := marked.locked - t.amount);
      if !SafeInteger(unlocked.withdrawable) || !SafeInteger(unlocked.withdrawable + t.amount) then
        p.(ledger := unlocked, overflow := true)
      else
        var moved := unlocked.(withdrawable := unlocked.withdrawable + t.amount);
        if !SafeInteger(p.result.releasedAmount) || !SafeInteger(p.result.releasedAmount + t.amount) then
          p.(ledger := moved, overflow := true)
        else
          Progress(moved, ReleaseResult(p.result.releasedAmount + t.amount, p.result.releasedCount + 1), false)
  }

  /** The loop over the ledger from position `i`, leaving at the first overflow. */
  function ReleaseFrom(p: Progress, i: nat, r: ReleaseInput): Progress
    requires i <= |p.ledger.transactions|
    decreases |p.ledger.transactions| - i
  {
    if p.overflow || i == |p.ledger.transactions| then p
    else if Matches(r, p.ledger.transactions[i]) then ReleaseFrom(ReleaseOne(p, i, r), i + 1, r)
    else ReleaseFrom(p, i + 1, r)
  }

  function Release(l: Ledger, r: ReleaseInput): Progress {
    ReleaseFrom(Progress(l, ReleaseResult(0, 0), false), 0, r)
  }

  class Wallet {
    const boosterId: int
    var balanceLocked: int
    var balanceWithdrawable: int
    var transactions: seq<Transaction>

    constructor (boosterId: int, l: Ledger)
      ensures this.boosterId == boosterId && Contents() == l
    {
      this.boosterId := boosterId;
      balanceLocked, balanceWithdrawable, transactions := l.locked, l.withdrawable, l.transactions;
    }

    function Contents(): Ledger
      reads this
    {
      Ledger(balanceLocked, balanceWithdrawable, transactions)
    }

    method Credit(c: CreditInput) returns (result: Result<()>)
      modifies this
      ensures result.Ok? <==> CreditLocked(old(Contents()), c).Ok?
      ensures result.Ok? ==> Ok(Contents()) == CreditLocked(old(Contents()), c)
      ensures result.Err? ==> Contents() == old(Contents()) && result.error == CreditLocked(old(Contents()), c).error
      ensures result.Ok? ==>
                && balanceLocked == old(balanceLocked) + c.amount && balanceWithdrawable == old(balanceWithdrawable)
                && transactions == old(transactions) + [Transaction(
                     c.id, Some(c.orderId), c.amount, TransactionType.Credit, None,
                     c.availableAt, None, None, c.createdAt)]
    {
      if c.amount <= 0 {
        return Err(WalletInvalidAmount);
      }
      var balance :- FromCents(balanceLocked);
      var amount :- FromCents(c.amount);
      balanceLocked :- Add(balance, amount);
      transactions := transactions + [CreditRow(c)];
      return Ok(());
    }

    method ReleaseCredits(r: ReleaseInput) returns (result: Result<ReleaseResult>)
      modifies this
      ensures Contents() == Release(old(Contents()), r).ledger
      ensures result.Ok? <==> !Release(old(Contents()), r).overflow
      ensures result.Ok? ==> result.value == Release(old(Contents()), r).result
      ensures result.Err? ==> result.error == InvalidMoney
      ensures result.Ok? ==> |transactions| == |old(transactions)|
      ensures result.Ok? ==> forall j :: 0 <= j < |transactions| ==>
                var t := old(transactions)[j];
                transactions[j] ==
                  if t.kind == TransactionType.Credit && t.orderId == Some(r.orderId) && t.releasedAt == None
                     && (r.ignoreMaturity || t.availableAt <= r.now) then
                    t.(releasedAt := Some(r.now), releasedBy := Some(r.source))
                  else t
    {
      var amount, count: nat := 0, 0;
      var i := 0;
      while i < |transactions|
        invariant 0 <= i <= |transactions| == |old(transactions)|
        invariant ReleaseFrom(Progress(Contents(), ReleaseResult(amount, count), false), i, r)
                  == Release(old(Contents()), r)
        invariant forall j :: 0 <= j < i ==>
                    var t := old(transactions)[j];
                    transactions[j] ==
                      if t.kind == TransactionType.Credit && t.orderId == Some(r.orderId) && t.releasedAt == None
                         && (r.ignoreMaturity || t.availableAt <= r.now) then
                        t.(releasedAt := Some(r.now), releasedBy := Some(r.source))
                      else t
        invariant forall j :: i <= j < |transactions| ==> transactions[j] == old(transactions)[j]
        decreases |transactions| - i
      {
        var t := transactions[i];
        if Matches(r, t) {
          transactions := transactions[i := MarkReleased(r, t)];
          var locked := MoneySubtract(balanceLocked, t.amount);
          if locked.Err? {
            return Err(locked.error);
          }
          balanceLocked := locked.value;
          var withdrawable := MoneyAdd(balanceWithdrawable, t.amount);
          if withdrawable.Err? {
            return Err(withdrawable.error);
          }
          balanceWithdrawable := withdrawable.value;
          var total := MoneyAdd(amount, t.amount);
          if total.Err? {
            return Err(total.error);
          }
          amount, count := total.value, count + 1;
        }
        i := i + 1;
      }
      return Ok(ReleaseResult(amount, count));
    }

    method WithdrawFunds(w: WithdrawInput) returns (result: Result<()>)
      modifies this
      ensures result.Ok? <==> Withdraw(old(Contents()), w).Ok?
      ensures result.Ok? ==> Ok(Contents()) == Withdraw(old(Contents()), w)
      ensures result.Err? ==> Contents() == old(Contents()) && result.error == Withdraw(old(Contents()), w).error
      ensures result.Ok? ==>
                && balanceWithdrawable == old(balanceWithdrawable) - w.amount && balanceLocked == old(balanceLocked)
                && transactions == [Transaction(
                     w.id, None, w.amount, Debit, Some(w.payoutPixKey), w.requestedAt, Some(w.requestedAt), None,
                     w.requestedAt)] + old(transactions)
    {
      if w.amount <= 0 {
        return Err(WalletInvalidAmount);
      }
      if w.amount > balanceWithdrawable {
        return Err(WalletInsufficientBalance);
      }
      var balance :- FromCents(balanceWithdrawable);
      var amount :- FromCents(w.amount);
      balanceWithdrawable :- Subtract(balance, amount);
      transactions := [DebitRow(w)] + transactions;
      return Ok(());
    }
  }

  function MoneySubtract(a: int, b: int): Result<int> {
    var x :- FromCents(a);
    var y :- FromCents(b);
    Subtract(x, y)
  }

  function MoneyAdd(a: int, b: int): Result<int> {
    var x :- FromCents(a);
    var y :- FromCents(b);
    Add(x, y)
  }
}
