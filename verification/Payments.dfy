/** Coupon discounts on a priced order. */
module Coupons {
  import opened Outcomes
  import opened MoneyCents
  import opened VersionedPricing

  const MIN_ORDER_TOTAL := 50

  datatype DiscountType = PercentageOff | FixedOff

  datatype Coupon = Coupon(discountType: DiscountType, discount: real)

  predicate HasValidDiscount(c: Coupon) {
    c.discount > 0.0
  }

  function ApplyDiscount(c: Coupon, p: Pricing): Result<Pricing> {
    var subtotal :- FromCents(p.subtotal);
    var rawDiscount :-
      (match c.discountType
       case PercentageOff => Percentage(subtotal, c.discount / 100.0)
       case FixedOff => FromDecimal(c.discount));
    var room :- Subtract(subtotal, MIN_ORDER_TOTAL);
    var discount := Min(rawDiscount, Max(0, room));
    var total :- Subtract(subtotal, discount);
    Ok(p.(totalAmount := total, discountAmount := discount))
  }

  /** Pricing with no coupon, or with one that passed the eligibility checks. */
  function ApplyCoupon(c: Option<Coupon>, p: Pricing): Result<Pricing> {
    match c
    case None => Ok(p)
    case Some(coupon) => if HasValidDiscount(coupon) then ApplyDiscount(coupon, p) else Err(CouponDiscountInvalid)
  }

  /** A discount splits the subtotal and never takes a positive total below the minimum. */
  lemma DiscountSplitsSubtotal(c: Coupon, p: Pricing)
    requires HasValidDiscount(c) && p.subtotal >= 0 && ApplyDiscount(c, p).Ok?
    ensures var q := ApplyDiscount(c, p).value;
            && q.discountAmount + q.totalAmount == p.subtotal
            && q.discountAmount >= 0
            && Min(MIN_ORDER_TOTAL, p.subtotal) <= q.totalAmount <= p.subtotal
            && q.versionId == p.versionId && q.subtotal == p.subtotal && q.extras == p.extras
  {
    if c.discountType.PercentageOff? {
      PercentageNear(p.subtotal, c.discount / 100.0);
    } else {
      RoundNearest(c.discount * 100.0);
    }
  }

  /** The discount a coupon names, before rounding: a share of the subtotal, or an amount in cents. */
  function NominalDiscount(c: Coupon, subtotal: int): real {
    match c.discountType
    case PercentageOff => subtotal as real * (c.discount / 100.0)
    case FixedOff => c.discount * 100.0
  }

  /** The client gets the named discount to the nearest cent, unless that would cross the minimum total. */
  lemma DiscountIsNominalUnlessClamped(c: Coupon, p: Pricing)
    requires HasValidDiscount(c) && p.subtotal >= 0 && ApplyDiscount(c, p).Ok?
    ensures var q := ApplyDiscount(c, p).value;
            var gap := q.discountAmount as real - NominalDiscount(c, p.subtotal);
            gap <= 0.5 && (gap >= -0.5 || q.totalAmount == Min(MIN_ORDER_TOTAL, p.subtotal))
  {
    RoundNearest(NominalDiscount(c, p.subtotal));
  }

  /** Without a coupon the pricing stays; with one it is discounted, unless the coupon names no real discount. */
  lemma CouponApplied(coupon: Option<Coupon>, p: Pricing)
    requires 0 <= p.subtotal <= MAX_SAFE
    requires coupon.Some? ==> SafeInteger(Round(NominalDiscount(coupon.value, p.subtotal)))
    ensures coupon == None ==> ApplyCoupon(coupon, p) == Ok(p)
    ensures coupon.Some? && coupon.value.discount <= 0.0 ==> ApplyCoupon(coupon, p) == Err(CouponDiscountInvalid)
    ensures coupon.Some? && coupon.value.discount > 0.0 ==>
              var room := if p.subtotal > 50 then p.subtotal - 50 else 0;
              var named := Round(NominalDiscount(coupon.value, p.subtotal));
              var discount := if named <= room then named else room;
              ApplyCoupon(coupon, p) == Ok(p.(discountAmount := discount, totalAmount := p.subtotal - discount))
  {
    if coupon.Some? && coupon.value.discount > 0.0 {
      DiscountIs(coupon.value, p);
    }
  }

  lemma DiscountIs(c: Coupon, p: Pricing)
    requires HasValidDiscount(c) && 0 <= p.subtotal <= MAX_SAFE && SafeInteger(Round(NominalDiscount(c, p.subtotal)))
    ensures var room := if p.subtotal > 50 then p.subtotal - 50 else 0;
            var rounded := Round(NominalDiscount(c, p.subtotal));
            var discount := if rounded <= room then rounded else room;
            ApplyDiscount(c, p) == Ok(p.(discountAmount := discount, totalAmount := p.subtotal - discount))
  {
    NominalIsPositive(c, p.subtotal);
  }

  lemma NominalIsPositive(c: Coupon, subtotal: int)
    requires HasValidDiscount(c) && 0 <= subtotal
    ensures Round(NominalDiscount(c, subtotal)) >= 0
  {
    RoundNearest(NominalDiscount(c, subtotal));
    if c.discountType.PercentageOff? {
      ScaleMonotone(subtotal as real, 0.0, c.discount / 100.0);
    }
  }

  /** Within the schema's limits a valid coupon is never refused by the money guards. */
  lemma DiscountAccepted(c: Coupon, p: Pricing)
    requires HasValidDiscount(c) && 0 <= p.subtotal <= MAX_SAFE
    requires c.discountType.PercentageOff? ==> c.discount <= 99.0
    requires c.discountType.FixedOff? ==> SafeInteger(Round(c.discount * 100.0))
    ensures ApplyDiscount(c, p).Ok?
  {
    if c.discountType.PercentageOff? {
      PartOfAmount(p.subtotal, c.discount / 100.0);
    } else {
      RoundNearest(c.discount * 100.0);
    }
  }
}

/** A payment, its booster share and its status. */
module Payments {
  import opened OrderStatuses
  import opened Outcomes
  import opened Sequences
  import opened MoneyCents

  datatype PaymentStatus = AwaitingConfirmation | Held | Released | Failed

  const BOOSTER_SHARE_RATE := 0.7

  function BoosterShare(gross: int): Result<int> {
    if gross <= 0 then Err(PaymentAmountInvalid)
    else
      var amount :- FromCents(gross);
      Percentage(amount, BOOSTER_SHARE_RATE)
  }

  /** The share is the nearest whole cent to 70%, halves upwards, and is a real part of the amount. */
  lemma ShareIsNearest(gross: int)
    requires 1 <= gross <= MAX_SAFE
    ensures BoosterShare(gross).Ok?
    ensures var share := BoosterShare(gross).value; 1 <= share <= gross && -4 <= 10 * share - 7 * gross <= 5
  {
    var x := gross as real * BOOSTER_SHARE_RATE;
    RoundNearest(x);
    assert 10.0 * x == (7 * gross) as real;
    assert Round(x) == (x + 0.5).Floor;
    assert x + 0.5 < Round(x) as real + 1.0;
  }

  /** Only an amount that is not positive, or not a safe integer, has no share. */
  lemma ShareRefused(gross: int)
    ensures gross <= 0 ==> BoosterShare(gross) == Err(PaymentAmountInvalid)
    ensures gross > MAX_SAFE ==> BoosterShare(gross) == Err(InvalidMoney)
  {
  }

  /** The documented "exactly 70% of each sale" holds if and only if the sale is a multiple of 10 cents. */
  lemma ShareIsExactIff(gross: int)
    requires 1 <= gross <= MAX_SAFE
    ensures 10 * BoosterShare(gross).value == 7 * gross <==> gross % 10 == 0
  {
    ShareIsNearest(gross);
    if gross % 10 == 0 {
      var k := gross / 10;
      assert gross == 10 * k;
    }
  }

  function ShareOf(gross: int): int {
    match BoosterShare(gross)
    case Ok(share) => share
    case Err(_) => 0
  }

  function Amount(gross: int): int {
    gross
  }

  /** Over any list of payments the booster totals stay within half a cent per payment of 70%. */
  lemma {:induction false} SharesNearSeventyPercent(payments: seq<int>)
    requires forall i :: 0 <= i < |payments| ==> 1 <= payments[i] <= MAX_SAFE
    ensures -4 * |payments| <= 10 * Sum(ShareOf, payments) - 7 * Sum(Amount, payments) <= 5 * |payments|
  {
    if payments != [] {
      ShareIsNearest(payments[0]);
      SharesNearSeventyPercent(payments[1..]);
    }
  }

  predicate MayBecome(from: PaymentStatus, to: PaymentStatus) {
    || (from == AwaitingConfirmation && (to == Held || to == Failed))
    || (from == Held && to == Released)
  }

  datatype Event = Confirm | Fail | ReleaseHold(orderStatus: OrderStatus)

  function TransitionTo(from: PaymentStatus, to: PaymentStatus): Result<PaymentStatus> {
    if MayBecome(from, to) then Ok(to) else Err(PaymentInvalidTransition)
  }

  function Handle(s: PaymentStatus, e: Event): Result<PaymentStatus> {
    match e
    case Confirm => if s == Held || s == Released then Ok(s) else TransitionTo(s, Held)
    case Fail => if s == Failed then Ok(s) else TransitionTo(s, Failed)
    case ReleaseHold(orderStatus) =>
      if s == Released then Ok(s)
      else if orderStatus != Completed then Err(PaymentHoldReleaseNotAllowed)
      else TransitionTo(s, Released)
  }

  /** What each event does in each status; a refused one names its reason. */
  lemma EventOutcome(s: PaymentStatus, orderStatus: OrderStatus)
    ensures Handle(s, Confirm) ==
            if s == Failed then Err(PaymentInvalidTransition) else if s == Released then Ok(Released) else Ok(Held)
    ensures Handle(s, Fail) ==
            if s == AwaitingConfirmation || s == Failed then Ok(Failed) else Err(PaymentInvalidTransition)
    ensures Handle(s, ReleaseHold(orderStatus)) ==
            if s == Released then Ok(s)
            else if orderStatus != Completed then Err(PaymentHoldReleaseNotAllowed)
            else if s == Held then Ok(Released)
            else Err(PaymentInvalidTransition)
  {
  }

  datatype PaymentMethod = CreditCard | Pix | Boleto

  /** What the gateway has told about a payment. */
  datatype GatewayDetails = GatewayDetails(
    referenceId: Option<string>, id: Option<string>, status: Option<string>, statusDetail: Option<string>,
    paymentMethodId: Option<string>, paymentTypeId: Option<string>, checkoutUrl: Option<string>)

  const NOTHING_YET := GatewayDetails(None, None, None, None, None, None, None)

  /** A field of an update: left out, or given, perhaps as null. */
  function Given(field: Option<Option<string>>, before: Option<string>): Option<string> {
    match field
    case None => before
    case Some(value) => value
  }

  class Payment {
    const id: int
    const orderId: int
    const grossAmount: int
    const boosterAmount: int
    const paymentMethod: PaymentMethod
    var gateway: GatewayDetails
    var status: PaymentStatus

    constructor (id: int, orderId: int, grossAmount: int, boosterAmount: int, paymentMethod: PaymentMethod)
      ensures this.id == id && this.orderId == orderId && this.paymentMethod == paymentMethod
      ensures this.grossAmount == grossAmount && this.boosterAmount == boosterAmount
      ensures status == AwaitingConfirmation && gateway == NOTHING_YET
    {
      this.id, this.orderId, this.paymentMethod := id, orderId, paymentMethod;
      this.grossAmount, this.boosterAmount := grossAmount, boosterAmount;
      gateway := NOTHING_YET;
      status := AwaitingConfirmation;
    }

    static method Create(id: int, orderId: int, grossAmount: int, paymentMethod: PaymentMethod)
      returns (result: Result<Payment>)
      ensures result.Ok? <==> BoosterShare(grossAmount).Ok?
      ensures result.Ok? ==>
                && fresh(result.value) && result.value.status == AwaitingConfirmation
                && result.value.gateway == NOTHING_YET && result.value.paymentMethod == paymentMethod
                && result.value.id == id && result.value.orderId == orderId && result.value.grossAmount == grossAmount
                && Ok(result.value.boosterAmount) == BoosterShare(grossAmount)
      ensures result.Err? ==> result.error == BoosterShare(grossAmount).error
    {
      var share := BoosterShare(grossAmount);
      if share.Err? {
        return Err(share.error);
      }
      var payment := new Payment(id, orderId, grossAmount, share.value, paymentMethod);
      return Ok(payment);
    }

    /** The gateway's id and status are always written; of the others an absent one is left as it was. */
    method AttachGatewayDetails(
      id: Option<string>, gatewayStatus: Option<string>, referenceId: Option<Option<string>>,
      statusDetail: Option<Option<string>>, paymentMethodId: Option<Option<string>>,
      paymentTypeId: Option<Option<string>>, checkoutUrl: Option<Option<string>>)
      modifies this`gateway
      ensures gateway.id == id && gateway.status == gatewayStatus
      ensures gateway.referenceId == Given(referenceId, old(gateway.referenceId))
      ensures gateway.statusDetail == Given(statusDetail, old(gateway.statusDetail))
      ensures gateway.paymentMethodId == Given(paymentMethodId, old(gateway.paymentMethodId))
      ensures gateway.paymentTypeId == Given(paymentTypeId, old(gateway.paymentTypeId))
      ensures gateway.checkoutUrl == Given(checkoutUrl, old(gateway.checkoutUrl))
    {
      if referenceId.Some? {
        gateway := gateway.(referenceId := referenceId.value);
      }
      gateway := gateway.(id := id, status := gatewayStatus);
      if statusDetail.Some? {
        gateway := gateway.(statusDetail := statusDetail.value);
      }
      if paymentMethodId.Some? {
        gateway := gateway.(paymentMethodId := paymentMethodId.value);
      }
      if paymentTypeId.Some? {
        gateway := gateway.(paymentTypeId := paymentTypeId.value);
      }
      if checkoutUrl.Some? {
        gateway := gateway.(checkoutUrl := checkoutUrl.value);
      }
    }

    method Apply(e: Event) returns (result: Result<()>)
      modifies this`status
      ensures result.Ok? <==> Handle(old(status), e).Ok?
      ensures result.Ok? ==> Ok(status) == Handle(old(status), e)
      ensures result.Err? ==> status == old(status) && result.error == Handle(old(status), e).error
    {
      match e {
        case Confirm =>
          if status == Held || status == Released {
            return Ok(());
          }
          result := MoveTo(Held);
        case Fail =>
          if status == Failed {
            return Ok(());
          }
          result := MoveTo(Failed);
        case ReleaseHold(orderStatus) =>
          if status == Released {
            return Ok(());
          }
          if orderStatus != Completed {
            return Err(PaymentHoldReleaseNotAllowed);
          }
          result := MoveTo(Released);
      }
    }

    method MoveTo(next: PaymentStatus) returns (result: Result<()>)
      modifies this`status
      ensures result.Ok? <==> MayBecome(old(status), next)
      ensures status == if result.Ok? then next else old(status)
      ensures result.Err? ==> result.error == PaymentInvalidTransition
    {
      if !MayBecome(status, next) {
        return Err(PaymentInvalidTransition);
      }
      status := next;
      return Ok(());
    }
  }

  function Run(s: PaymentStatus, events: seq<Event>): PaymentStatus
    decreases |events|
  {
    if events == [] then s
    else Run(match Handle(s, events[0]) case Ok(next) => next case Err(_) => s, events[1..])
  }

  /** Money leaves the hold only after a confirmation and, later, a release for a completed order. */
  lemma {:induction false} ReleasedOnlyAfterHold(s: PaymentStatus, events: seq<Event>)
    requires Run(s, events) == Released && s != Released
    ensures s != Failed
    ensures exists i :: 0 <= i < |events| && events[i] == ReleaseHold(Completed)
                && (s == Held || exists j :: 0 <= j < i && events[j] == Confirm)
    decreases |events|
  {
    var next := match Handle(s, events[0]) case Ok(next) => next case Err(_) => s;
    if next == Released {
      assert events[0] == ReleaseHold(Completed) && s == Held;
    } else {
      ReleasedOnlyAfterHold(next, events[1..]);
      var i :| 0 <= i < |events[1..]| && events[1..][i] == ReleaseHold(Completed)
        && (next == Held || exists j :: 0 <= j < i && events[1..][j] == Confirm);
      assert events[i + 1] == ReleaseHold(Completed);
      if s != Held {
        if next == Held {
          assert events[0] == Confirm;
        } else {
          var j :| 0 <= j < i && events[1..][j] == Confirm;
          assert events[j + 1] == Confirm;
        }
      }
    }
  }
}
