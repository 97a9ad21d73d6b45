/** From stored price rows to the amount a booster is credited. */
module MoneyChain {
  import opened Outcomes
  import opened Sequences
  import opened MoneyCents
  import opened RankLadder
  import opened PricingVersionRules
  import opened PriceTables
  import opened VersionedPricing
  import opened Coupons
  import opened Payments
  import Wallet = WalletLedger

  // ---- stored rows and the price table ----

  ghost predicate NonNegativeSteps(steps: seq<Step>) {
    forall s :: s in steps ==> s.priceToNext >= 0
  }

  lemma TablePrices(rows: seq<Step>, service: PricedService)
    requires NonNegativeSteps(rows)
    ensures NonNegativePrices(TableOf(rows, service))
  {
    forall e | e in TableOf(rows, service) ensures e.priceToNext >= 0 {
      EntryFromRow(rows, service, e);
    }
  }

  /** On stored rows in any order, only a rank strictly above the current one gets a price. */
  lemma PricesOnlyHigherRanks(id: int, steps: seq<Step>, extras: seq<ExtraRate>, r: Request)
    requires DistinctBy(StepKey, steps) && NonNegativeSteps(steps)
    requires OnLadderRequest(r) && r.currentLp >= 0
    ensures Calculate(Some(MapVersion(id, steps, extras)), r).Ok? ==> StrictlyAbove(r)
  {
    if Calculate(Some(MapVersion(id, steps, extras)), r).Ok? {
      TableInRankOrder(steps, r.serviceType.service);
      TablePrices(steps, r.serviceType.service);
      AcceptsOnlyHigher(TableOf(steps, r.serviceType.service), r);
    }
  }

  /**
   * From a rank below Master, at 99 LP or less, a complete version prices every rank above unless an
   * amount leaves the safe integers, as long as the current step costs 51 cents or more.
   */
  lemma PricesEveryHigherRank(id: int, steps: seq<Step>, extras: seq<ExtraRate>, r: Request)
    requires DistinctBy(StepKey, steps) && Complete(steps, extras) && NonNegativeSteps(steps)
    requires r.serviceType.Priced? && OnLadderRequest(r)
    requires forall t :: t in r.extras ==> t in ORDER_EXTRA_TYPES
    requires FitsSafely(TableOf(steps, r.serviceType.service))
    requires 0 <= r.currentLp <= 99 && !IsMasterRank(r.currentLeague, r.currentDivision)
    requires forall s :: s in steps && s.service == r.serviceType.service && s.rank == CurrentRank(r) ==>
               s.priceToNext >= 51
    requires StrictlyAbove(r)
    ensures var result := Calculate(Some(MapVersion(id, steps, extras)), r);
            && (result.Err? ==> result.error == InvalidMoney)
            && (r.extras == [] ==> result.Ok?)
  {
    var service := r.serviceType.service;
    var table := TableOf(steps, service);
    LadderPrefix(steps, extras, service);
    LadderRankPriced(table, CurrentRank(r));
    LadderRankPriced(table, DesiredRank(r));
    TableInRankOrder(steps, service);
    TablePrices(steps, service);
    var i := FindEntry(table, r.currentLeague, r.currentDivision).value;
    EntryFromRow(steps, service, table[i]);
    HigherMeansHigherOrder(r);
    AcceptsEveryHigher(table, r);
    CompleteVersionPrices(id, steps, extras, r);
    var base := BaseSubtotal(table, r).value;
    KnownExtrasPriced(base, steps, extras, r.extras);
    PricedRanksErrors(table, r);
    if PriceExtras(base, extras, r.extras).Ok? {
      AddExtrasSum(base, PriceExtras(base, extras, r.extras).value);
    }
  }

  lemma HigherMeansHigherOrder(r: Request)
    requires StrictlyAbove(r) && OnLadderRequest(r) && !IsMasterRank(r.currentLeague, r.currentDivision)
    ensures RankOrder(CurrentRank(r)) < RankOrder(DesiredRank(r))
  {
  }

  // ---- price, discount, share, credit ----

  /** Pricing as it leaves the calculation: a real amount, not discounted yet. */
  predicate Undiscounted(p: Pricing) {
    1 <= p.subtotal <= MAX_SAFE && p.totalAmount == p.subtotal && p.discountAmount == 0
  }

  /** A calculated price is at least one cent and at least its base. */
  lemma CalculatedPricePositive(active: Option<Version>, r: Request)
    requires active.Some? ==> NonNegativeRates(active.value.extras)
    ensures Calculate(active, r).Ok? ==> Undiscounted(Calculate(active, r).value)
  {
    if Calculate(active, r).Ok? {
      CalculatedParts(active, r);
      var table := PriceTable(active.value.steps, r.serviceType.service);
      AcceptedBase(table, r);
      SubtotalNearRates(BaseSubtotal(table, r).value, active.value.extras, r.extras);
    }
  }

  lemma CalculatedParts(active: Option<Version>, r: Request)
    requires Calculate(active, r).Ok?
    ensures active.Some? && r.serviceType.Priced?
    ensures var base := BaseSubtotal(PriceTable(active.value.steps, r.serviceType.service), r);
            var p := Calculate(active, r).value;
            && base.Ok? && SafeInteger(base.value)
            && Subtotal(base.value, active.value.extras, r.extras) == Ok(p.subtotal)
            && SafeInteger(p.subtotal) && p.totalAmount == p.subtotal && p.discountAmount == 0
  {
    var base := BaseSubtotal(PriceTable(active.value.steps, r.serviceType.service), r).value;
    AddedIsSafe(base, PriceExtras(base, active.value.extras, r.extras).value);
  }

  lemma {:induction false} AddedIsSafe(total: int, extras: seq<PricedExtra>)
    requires SafeInteger(total) && AddExtras(total, extras).Ok?
    ensures SafeInteger(AddExtras(total, extras).value)
    decreases |extras|
  {
    if extras != [] {
      AddedIsSafe(total + extras[0].price, extras[1..]);
    }
  }

  /** What a quote for a subtotal promises to the client, the booster and the booster's wallet. */
  predicate Honoured(subtotal: int, quote: Pricing, wallet: Wallet.Ledger, credit: Wallet.CreditInput) {
    var amount := ShareOf(quote.totalAmount);
    var credited := Wallet.CreditLocked(wallet, credit.(amount := amount));
    && quote.discountAmount + quote.totalAmount == subtotal
    && Min(MIN_ORDER_TOTAL, subtotal) <= quote.totalAmount <= subtotal
    && BoosterShare(quote.totalAmount) == Ok(amount) && 1 <= amount <= quote.totalAmount
    && (credited.Ok? <==> SafeInteger(wallet.locked) && SafeInteger(wallet.locked + amount))
    && (credited.Ok? ==> credited.value.locked == wallet.locked + amount)
  }

  lemma DiscountHonoured(p: Pricing, coupon: Option<Coupon>, wallet: Wallet.Ledger, credit: Wallet.CreditInput)
    requires Undiscounted(p)
    ensures ApplyCoupon(coupon, p).Ok? ==> Honoured(p.subtotal, ApplyCoupon(coupon, p).value, wallet, credit)
  {
    if ApplyCoupon(coupon, p).Ok? {
      if coupon.Some? {
        DiscountSplitsSubtotal(coupon.value, p);
      }
      ShareIsNearest(ApplyCoupon(coupon, p).value.totalAmount);
    }
  }

  /**
   * Every accepted quote, with or without a valid coupon, can be paid and credited: the discount and
   * the total make up the subtotal, the booster's share is between one cent and the total, and the
   * wallet refuses the credit only if its own balance would leave the safe integers.
   */
  lemma QuoteCanBePaidAndCredited(
      active: Option<Version>, r: Request, coupon: Option<Coupon>, wallet: Wallet.Ledger, credit: Wallet.CreditInput)
    requires active.Some? ==> NonNegativeRates(active.value.extras)
    ensures Calculate(active, r).Ok? ==>
              var p := Calculate(active, r).value;
              ApplyCoupon(coupon, p).Ok? ==> Honoured(p.subtotal, ApplyCoupon(coupon, p).value, wallet, credit)
  {
    if Calculate(active, r).Ok? {
      CalculatedPricePositive(active, r);
      DiscountHonoured(Calculate(active, r).value, coupon, wallet, credit);
    }
  }
}
