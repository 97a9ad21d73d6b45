/** The price of a boost order under one pricing version. */
module VersionedPricing {
  import opened Outcomes
  import opened Sequences
  import opened MoneyCents
  import opened RankLadder
  import opened PricingVersionRules
  import opened PriceTables

  /** A requested division: its normalized name and, when its text is an integer, that integer. */
  datatype DivisionText = DivisionText(name: Division, number: Option<int>)

  datatype ServiceType = Priced(service: PricedService) | Md5 | Coaching

  datatype Request = Request(
    serviceType: ServiceType,
    currentLeague: League, currentDivision: DivisionText, currentLp: int,
    desiredLeague: League, desiredDivision: DivisionText,
    extras: seq<ExtraType>)

  datatype PricedExtra = PricedExtra(extra: ExtraType, price: int)

  datatype Pricing = Pricing(
    versionId: int, subtotal: int, totalAmount: int, discountAmount: int, extras: seq<PricedExtra>)

  datatype Version = Version(id: int, steps: seq<Step>, extras: seq<ExtraRate>)

  const MAX_MASTER_PDL := 250

  function ParseMasterPdl(d: DivisionText): Option<int> {
    if d.number.Some? && 0 <= d.number.value <= MAX_MASTER_PDL then d.number else None
  }

  function MasterPdl(d: DivisionText): int {
    match ParseMasterPdl(d)
    case Some(pdl) => pdl
    case None => 0
  }

  predicate IsMasterDivision(d: DivisionText) {
    d.name == MasterDivision || ParseMasterPdl(d).Some?
  }

  predicate IsMasterRank(league: League, d: DivisionText) {
    league == Master && IsMasterDivision(d)
  }

  function NormalizedRank(league: League, d: DivisionText): Rank {
    Rank(league, if IsMasterRank(league, d) then MasterDivision else d.name)
  }

  function RankProgress(league: League, d: DivisionText, lp: int): int {
    if !IsMasterRank(league, d) || d.name == MasterDivision then lp else MasterPdl(d)
  }

  function HasRank(r: Rank): PriceEntry -> bool {
    (e: PriceEntry) => e.rank == r
  }

  function FindEntry(table: seq<PriceEntry>, league: League, d: DivisionText): (r: Option<nat>)
    ensures r.Some? ==> r.value < |table| && table[r.value].rank == NormalizedRank(league, d)
    ensures r.None? ==> forall e :: e in table ==> e.rank != NormalizedRank(league, d)
  {
    FindIndex(HasRank(NormalizedRank(league, d)), table)
  }

  function CumulativeValue(table: seq<PriceEntry>, i: nat): int
    requires i <= |table|
  {
    Sum(PriceOf, table[..i])
  }

  /** `percent` hundredths of a step's price, in whole cents. */
  function StepPart(price: int, percent: int): int {
    Round(price as real * (percent as real / 100.0))
  }

  /** A cumulative value plus the given part of the step that starts there. */
  function ValueWithin(table: seq<PriceEntry>, i: nat, percent: int): Result<int>
    requires i < |table|
  {
    var below :- FromCents(CumulativeValue(table, i));
    var step :- FromCents(table[i].priceToNext);
    var part :- FromCents(StepPart(step, percent));
    Add(below, part)
  }

  function TargetValue(table: seq<PriceEntry>, league: League, d: DivisionText, entry: Option<nat>): Result<int>
    requires entry.Some? ==> entry.value < |table|
  {
    match entry
    case Some(i) =>
      if IsMasterRank(league, d) then ValueWithin(table, i, MasterPdl(d))
      else FromCents(CumulativeValue(table, i))
    case None =>
      if IsMasterRank(league, d) then FromCents(Sum(PriceOf, table)) else Err(RankNotPriced)
  }

  function BaseSubtotal(table: seq<PriceEntry>, r: Request): Result<int> {
    match FindEntry(table, r.currentLeague, r.currentDivision)
    case None => Err(RankNotPriced)
    case Some(i) =>
      var progress := RankProgress(r.currentLeague, r.currentDivision, r.currentLp);
      var currentValue :- ValueWithin(table, i, progress);
      var desiredEntry := FindEntry(table, r.desiredLeague, r.desiredDivision);
      var desiredValue :- TargetValue(table, r.desiredLeague, r.desiredDivision, desiredEntry);
      var base :- Subtract(desiredValue, currentValue);
      if base <= 0 then Err(RankProgressionInvalid) else Ok(base)
  }

  function HasType(t: ExtraType): ExtraRate -> bool {
    (e: ExtraRate) => e.extra == t
  }

  function PriceExtra(base: int, rates: seq<ExtraRate>, t: ExtraType): Result<PricedExtra> {
    if t.OtherExtra? then Err(PricingVersionIncomplete)
    else
      match FindIndex(HasType(t), rates)
      case None => Err(PricingVersionIncomplete)
      case Some(i) =>
        var price :- Percentage(base, rates[i].modifierRate);
        Ok(PricedExtra(t, price))
  }

  function PriceExtras(base: int, rates: seq<ExtraRate>, extras: seq<ExtraType>): Result<seq<PricedExtra>> {
    if extras == [] then Ok([])
    else
      var first :- PriceExtra(base, rates, extras[0]);
      var rest :- PriceExtras(base, rates, extras[1..]);
      Ok([first] + rest)
  }

  function AddExtras(total: int, extras: seq<PricedExtra>): Result<int>
    decreases |extras|
  {
    if extras == [] then Ok(total)
    else
      var price :- FromCents(extras[0].price);
      var next :- Add(total, price);
      AddExtras(next, extras[1..])
  }

  function Calculate(active: Option<Version>, r: Request): Result<Pricing> {
    if !r.serviceType.Priced? then Err(UnsupportedPricingService)
    else if active.None? then Err(PricingVersionNotActive)
    else
      var version := active.value;
      var table := PriceTable(version.steps, r.serviceType.service);
      if |table| == 0 then Err(RankNotPriced)
      else
        var base :- BaseSubtotal(table, r);
        var extras :- PriceExtras(base, version.extras, r.extras);
        var subtotal :- AddExtras(base, extras);
        Ok(Pricing(version.id, subtotal, subtotal, 0, extras))
  }

  // ---- closed forms ----

  ghost predicate NonNegativePrices(table: seq<PriceEntry>) {
    forall e :: e in table ==> e.priceToNext >= 0
  }

  /** Exact (unguarded) value of standing at `percent` of step `i`. */
  function ExactValue(table: seq<PriceEntry>, i: nat, percent: int): int
    requires i < |table|
  {
    CumulativeValue(table, i) + StepPart(table[i].priceToNext, percent)
  }

  lemma {:induction false} CumulativeSplit(table: seq<PriceEntry>, i: nat, j: nat)
    requires i <= j <= |table|
    ensures CumulativeValue(table, j) == CumulativeValue(table, i) + Sum(PriceOf, table[i..j])
  {
    assert table[..j] == table[..i] + table[i..j];
    SumConcat(PriceOf, table[..i], table[i..j]);
  }

  /** Cumulative values grow with position, by at least the step that was passed. */
  lemma CumulativeGrows(table: seq<PriceEntry>, i: nat, j: nat)
    requires NonNegativePrices(table) && i < j <= |table|
    ensures 0 <= CumulativeValue(table, i)
    ensures CumulativeValue(table, i) + table[i].priceToNext <= CumulativeValue(table, j)
    ensures CumulativeValue(table, j) <= Sum(PriceOf, table)
  {
    CumulativeSplit(table, i, i + 1);
    assert table[i..i + 1] == [table[i]];
    assert Sum(PriceOf, [table[i]]) == table[i].priceToNext + Sum(PriceOf, [table[i]][1..]);
    CumulativeSplit(table, i + 1, j);
    CumulativeSplit(table, j, |table|);
    assert table[..|table|] == table;
    SumNonNegative(PriceOf, table[..i]);
    SumNonNegative(PriceOf, table[i + 1..j]);
    SumNonNegative(PriceOf, table[j..]);
  }

  lemma PartMonotone(price: int, p: int, q: int)
    requires price >= 0 && p <= q
    ensures StepPart(price, p) <= StepPart(price, q)
  {
    ScaleMonotone(price as real, p as real / 100.0, q as real / 100.0);
    RoundMonotone(price as real * (p as real / 100.0), price as real * (q as real / 100.0));
  }

  /** Whole multiples of a step need no rounding. */
  lemma PartWhole(price: int, times: int)
    ensures StepPart(price, 100 * times) == price * times
  {
    assert (100 * times) as real / 100.0 == times as real;
    assert price as real * times as real == (price * times) as real;
    RoundWhole(price * times);
  }

  lemma PartBounds(price: int, percent: int)
    requires price >= 0 && percent >= 0
    ensures 0 <= StepPart(price, percent)
    ensures percent <= 100 ==> StepPart(price, percent) <= price
    ensures percent <= MAX_MASTER_PDL ==> StepPart(price, percent) <= 3 * price
  {
    PartWhole(price, 0);
    PartMonotone(price, 0, percent);
    if percent <= 100 {
      PartWhole(price, 1);
      PartMonotone(price, percent, 100);
    }
    if percent <= MAX_MASTER_PDL {
      PartWhole(price, 3);
      PartMonotone(price, percent, 300);
    }
  }

  lemma PartAt99(price: int)
    requires price >= 0
    ensures StepPart(price, 99) < price <==> price >= 51
  {
    var x := price as real * (99 as real / 100.0);
    assert x == price as real - price as real / 100.0;
    RoundNearest(x);
  }

  /** Below a full step the part stays below the step when the step costs 51 cents or more. */
  lemma PartBelowStep(price: int, lp: int)
    requires price >= 51 && 0 <= lp <= 99
    ensures StepPart(price, lp) < price
  {
    PartMonotone(price, lp, 99);
    PartAt99(price);
  }

  // ---- what an accepted price is ----

  /** The two ranks of the request as they stand on the ladder. */
  function CurrentRank(r: Request): Rank {
    NormalizedRank(r.currentLeague, r.currentDivision)
  }

  function DesiredRank(r: Request): Rank {
    NormalizedRank(r.desiredLeague, r.desiredDivision)
  }

  function CurrentProgress(r: Request): int {
    RankProgress(r.currentLeague, r.currentDivision, r.currentLp)
  }

  predicate DesiresMaster(r: Request) {
    IsMasterRank(r.desiredLeague, r.desiredDivision)
  }

  /** The desired rank lies strictly above the current one, comparing PDL inside Master. */
  predicate StrictlyAbove(r: Request) {
    || RankOrder(CurrentRank(r)) < RankOrder(DesiredRank(r))
    || (CurrentRank(r) == DesiredRank(r) && DesiresMaster(r) && CurrentProgress(r) < MasterPdl(r.desiredDivision))
  }

  predicate OnLadderRequest(r: Request) {
    OnLadder(CurrentRank(r)) && OnLadder(DesiredRank(r))
  }

  lemma WithinIs(table: seq<PriceEntry>, i: nat, percent: int)
    requires i < |table| && ValueWithin(table, i, percent).Ok?
    ensures ValueWithin(table, i, percent).value == ExactValue(table, i, percent)
  {
  }

  /** The value standing at the desired rank, without the guards. */
  function ExactTarget(table: seq<PriceEntry>, r: Request, desired: Option<nat>): int
    requires desired.Some? ==> desired.value < |table|
  {
    if desired.None? then Sum(PriceOf, table)
    else if DesiresMaster(r) then ExactValue(table, desired.value, MasterPdl(r.desiredDivision))
    else CumulativeValue(table, desired.value)
  }

  lemma TargetIs(table: seq<PriceEntry>, r: Request, desired: Option<nat>)
    requires desired.Some? ==> desired.value < |table|
    requires TargetValue(table, r.desiredLeague, r.desiredDivision, desired).Ok?
    ensures TargetValue(table, r.desiredLeague, r.desiredDivision, desired).value == ExactTarget(table, r, desired)
    ensures desired.Some? || DesiresMaster(r)
  {
  }

  /** An accepted base subtotal, without the guards. */
  lemma AcceptedBase(table: seq<PriceEntry>, r: Request)
    requires BaseSubtotal(table, r).Ok?
    ensures var current := FindEntry(table, r.currentLeague, r.currentDivision);
            var desired := FindEntry(table, r.desiredLeague, r.desiredDivision);
            && current.Some?
            && (desired.Some? || DesiresMaster(r))
            && BaseSubtotal(table, r).value
               == ExactTarget(table, r, desired) - ExactValue(table, current.value, CurrentProgress(r))
            && BaseSubtotal(table, r).value > 0
  {
    WithinIs(table, FindEntry(table, r.currentLeague, r.currentDivision).value, CurrentProgress(r));
    TargetIs(table, r, FindEntry(table, r.desiredLeague, r.desiredDivision));
  }

  /** Ladder positions decide which table entry comes first. */
  lemma EntryOrder(table: seq<PriceEntry>, a: Rank, b: Rank, i: nat, j: nat)
    requires InRankOrder(table) && i < |table| && j < |table|
    requires table[i].rank == a && table[j].rank == b && OnLadder(a) && OnLadder(b)
    ensures RankOrder(a) < RankOrder(b) <==> i < j
    ensures a == b <==> i == j
  {
    if i < j {
      assert OnLadder(table[j].rank);
    } else if j < i {
      assert OnLadder(table[i].rank);
    }
  }

  /** Only a rank strictly above the current one is ever priced. */
  lemma AcceptsOnlyHigher(table: seq<PriceEntry>, r: Request)
    requires InRankOrder(table) && NonNegativePrices(table)
    requires OnLadderRequest(r) && r.currentLp >= 0
    requires BaseSubtotal(table, r).Ok?
    ensures StrictlyAbove(r)
  {
    AcceptedBase(table, r);
    var i := FindEntry(table, r.currentLeague, r.currentDivision).value;
    var desired := FindEntry(table, r.desiredLeague, r.desiredDivision);
    PartBounds(table[i].priceToNext, CurrentProgress(r));
    if desired.Some? {
      var j := desired.value;
      EntryOrder(table, CurrentRank(r), DesiredRank(r), i, j);
      if j < i {
        CumulativeGrows(table, j, i);
        LadderIndex(CurrentRank(r), RankOrder(CurrentRank(r)));
      } else if j == i && DesiresMaster(r) && MasterPdl(r.desiredDivision) <= CurrentProgress(r) {
        PartMonotone(table[i].priceToNext, MasterPdl(r.desiredDivision), CurrentProgress(r));
      }
    }
  }

  /** Room for every intermediate amount of a calculation on this table. */
  ghost predicate FitsSafely(table: seq<PriceEntry>) {
    4 * Sum(PriceOf, table) <= MAX_SAFE
  }

  lemma ValueWithinFits(table: seq<PriceEntry>, i: nat, percent: int)
    requires NonNegativePrices(table) && i < |table| && 0 <= percent <= MAX_MASTER_PDL
    requires FitsSafely(table)
    ensures ValueWithin(table, i, percent) == Ok(ExactValue(table, i, percent))
  {
    CumulativeGrows(table, i, i + 1);
    PartBounds(table[i].priceToNext, percent);
  }

  lemma TargetIsHigher(table: seq<PriceEntry>, r: Request)
    requires NonNegativePrices(table) && FitsSafely(table)
    requires FindEntry(table, r.currentLeague, r.currentDivision).Some?
    requires FindEntry(table, r.desiredLeague, r.desiredDivision).Some? || DesiresMaster(r)
    requires var desired := FindEntry(table, r.desiredLeague, r.desiredDivision);
             desired.Some? ==> FindEntry(table, r.currentLeague, r.currentDivision).value < desired.value
    ensures var i := FindEntry(table, r.currentLeague, r.currentDivision).value;
            var desired := FindEntry(table, r.desiredLeague, r.desiredDivision);
            var target := TargetValue(table, r.desiredLeague, r.desiredDivision, desired);
            target.Ok? && CumulativeValue(table, i) + table[i].priceToNext <= target.value <= MAX_SAFE
  {
    var i := FindEntry(table, r.currentLeague, r.currentDivision).value;
    match FindEntry(table, r.desiredLeague, r.desiredDivision)
    case Some(j) =>
      CumulativeGrows(table, i, j);
      if DesiresMaster(r) {
        ValueWithinFits(table, j, MasterPdl(r.desiredDivision));
        PartBounds(table[j].priceToNext, MasterPdl(r.desiredDivision));
      }
    case None =>
      CumulativeGrows(table, i, |table|);
      assert table[..|table|] == table;
  }

  /**
   * From a rank below Master, at 99 LP or less, every priced rank above is accepted once the
   * current step costs 51 cents or more.
   */
  lemma AcceptsEveryHigher(table: seq<PriceEntry>, r: Request)
    requires InRankOrder(table) && NonNegativePrices(table) && FitsSafely(table)
    requires OnLadderRequest(r) && 0 <= r.currentLp <= 99
    requires !IsMasterRank(r.currentLeague, r.currentDivision)
    requires RankOrder(CurrentRank(r)) < RankOrder(DesiredRank(r))
    requires FindEntry(table, r.currentLeague, r.currentDivision).Some?
    requires FindEntry(table, r.desiredLeague, r.desiredDivision).Some? || DesiresMaster(r)
    requires table[FindEntry(table, r.currentLeague, r.currentDivision).value].priceToNext >= 51
    ensures BaseSubtotal(table, r).Ok?
  {
    var i := FindEntry(table, r.currentLeague, r.currentDivision).value;
    var desired := FindEntry(table, r.desiredLeague, r.desiredDivision);
    if desired.Some? {
      EntryOrder(table, CurrentRank(r), DesiredRank(r), i, desired.value);
    }
    TargetIsHigher(table, r);
    ValueWithinFits(table, i, r.currentLp);
    PartBelowStep(table[i].priceToNext, r.currentLp);
    CumulativeGrows(table, i, i + 1);
    PartBounds(table[i].priceToNext, r.currentLp);
  }

  /**
   * The bound is tight: a request for the next rank is accepted at every LP from 0 to 99 if and
   * only if the current step costs at least 51 cents.
   */
  lemma NextRankAlwaysAcceptedIff(table: seq<PriceEntry>, r: Request, i: nat)
    requires InRankOrder(table) && NonNegativePrices(table) && FitsSafely(table)
    requires OnLadderRequest(r) && !IsMasterRank(r.currentLeague, r.currentDivision) && !DesiresMaster(r)
    requires FindEntry(table, r.currentLeague, r.currentDivision) == Some(i)
    requires FindEntry(table, r.desiredLeague, r.desiredDivision) == Some(i + 1)
    ensures (forall lp :: 0 <= lp <= 99 ==> BaseSubtotal(table, r.(currentLp := lp)).Ok?)
            <==> table[i].priceToNext >= 51
  {
    EntryOrder(table, CurrentRank(r), DesiredRank(r), i, i + 1);
    if table[i].priceToNext >= 51 {
      forall lp | 0 <= lp <= 99 ensures BaseSubtotal(table, r.(currentLp := lp)).Ok? {
        AcceptsEveryHigher(table, r.(currentLp := lp));
      }
    } else {
      var full := r.(currentLp := 99);
      PartAt99(table[i].priceToNext);
      CumulativeSplit(table, i, i + 1);
      assert table[i..i + 1] == [table[i]];
      assert Sum(PriceOf, [table[i]]) == table[i].priceToNext + Sum(PriceOf, [table[i]][1..]);
      if BaseSubtotal(table, full).Ok? {
        AcceptedBase(table, full);
      }
      assert !BaseSubtotal(table, full).Ok?;
    }
  }

  // ---- telescoping ----

  /**
   * Pricing is additive along the ladder: once a->b is accepted, a->c costs a->b plus b at 0 LP->c,
   * for every c at or above b in the table, Master included.
   */
  lemma PricingTelescopes(table: seq<PriceEntry>, ab: Request, cLeague: League, cDivision: DivisionText, t: int)
    requires NonNegativePrices(table) && ab.currentLp >= 0
    requires !IsMasterRank(ab.currentLeague, ab.currentDivision) && !DesiresMaster(ab)
    requires BaseSubtotal(table, ab).Ok?
    requires var c := FindEntry(table, cLeague, cDivision);
             && TargetValue(table, cLeague, cDivision, c) == Ok(t)
             && (c.Some? ==> FindEntry(table, ab.desiredLeague, ab.desiredDivision).value < c.value)
    ensures var ac := ab.(desiredLeague := cLeague, desiredDivision := cDivision);
            var bc := ac.(currentLeague := ab.desiredLeague, currentDivision := ab.desiredDivision, currentLp := 0);
            var rest := t - CumulativeValue(table, FindEntry(table, ab.desiredLeague, ab.desiredDivision).value);
            && rest >= 0
            && BaseSubtotal(table, bc) == (if rest > 0 then Ok(rest) else Err(RankProgressionInvalid))
            && BaseSubtotal(table, ac) == Ok(BaseSubtotal(table, ab).value + rest)
  {
    AcceptedBase(table, ab);
    var i := FindEntry(table, ab.currentLeague, ab.currentDivision).value;
    var j := FindEntry(table, ab.desiredLeague, ab.desiredDivision).value;
    var start, middle := ExactValue(table, i, ab.currentLp), CumulativeValue(table, j);
    CumulativeGrows(table, i, i + 1);
    PartBounds(table[i].priceToNext, ab.currentLp);
    TargetAbove(table, j, cLeague, cDivision, t);
    WholeStart(table, j);
    var ac := ab.(desiredLeague := cLeague, desiredDivision := cDivision);
    var bc := ac.(currentLeague := ab.desiredLeague, currentDivision := ab.desiredDivision, currentLp := 0);
    BaseBetween(table, ac, i, start, t);
    BaseBetween(table, bc, j, middle, t);
  }

  lemma WholeStart(table: seq<PriceEntry>, j: nat)
    requires NonNegativePrices(table) && j < |table|
    requires CumulativeValue(table, j) + table[j].priceToNext <= MAX_SAFE
    ensures ValueWithin(table, j, 0) == Ok(CumulativeValue(table, j))
  {
    PartWhole(table[j].priceToNext, 0);
    CumulativeGrows(table, j, j + 1);
  }

  lemma TargetAbove(table: seq<PriceEntry>, j: nat, league: League, d: DivisionText, t: int)
    requires NonNegativePrices(table) && j < |table|
    requires var c := FindEntry(table, league, d);
             TargetValue(table, league, d, c) == Ok(t) && (c.Some? ==> j < c.value)
    ensures CumulativeValue(table, j) + table[j].priceToNext <= t <= MAX_SAFE
  {
    match FindEntry(table, league, d)
    case Some(k) =>
      CumulativeGrows(table, j, k);
      if IsMasterRank(league, d) {
        PartBounds(table[k].priceToNext, MasterPdl(d));
      }
    case None =>
      CumulativeGrows(table, j, |table|);
      assert table[..|table|] == table;
  }

  /** The base is the difference of the two values standing at the ranks. */
  lemma BaseBetween(table: seq<PriceEntry>, r: Request, i: nat, start: int, target: int)
    requires i < |table| && FindEntry(table, r.currentLeague, r.currentDivision) == Some(i)
    requires ValueWithin(table, i, CurrentProgress(r)) == Ok(start) && SafeInteger(target - start)
    requires var desired := FindEntry(table, r.desiredLeague, r.desiredDivision);
             TargetValue(table, r.desiredLeague, r.desiredDivision, desired) == Ok(target)
    ensures BaseSubtotal(table, r) == if target - start > 0 then Ok(target - start) else Err(RankProgressionInvalid)
  {
  }

  // ---- extras ----

  function ExtraPrice(e: PricedExtra): int {
    e.price
  }

  ghost predicate NonNegativeRates(rates: seq<ExtraRate>) {
    forall e :: e in rates ==> e.modifierRate >= 0.0
  }

  function RateOf(rates: seq<ExtraRate>, t: ExtraType): real {
    match FindIndex(HasType(t), rates)
    case None => 0.0
    case Some(i) => rates[i].modifierRate
  }

  function RateSum(rates: seq<ExtraRate>, extras: seq<ExtraType>): real {
    if extras == [] then 0.0 else RateOf(rates, extras[0]) + RateSum(rates, extras[1..])
  }

  function Subtotal(base: int, rates: seq<ExtraRate>, extras: seq<ExtraType>): Result<int> {
    var priced :- PriceExtras(base, rates, extras);
    AddExtras(base, priced)
  }

  /** Whole cents charged for one extra, read off its own price. */
  function CentsFor(base: int, rates: seq<ExtraRate>, t: ExtraType): int {
    match PriceExtra(base, rates, t)
    case Ok(p) => p.price
    case Err(_) => 0
  }

  function ExtraCents(base: int, rates: seq<ExtraRate>): ExtraType -> int {
    (t: ExtraType) => CentsFor(base, rates, t)
  }

  ghost predicate Priceable(base: int, rates: seq<ExtraRate>, extras: seq<ExtraType>) {
    forall t :: t in extras ==> PriceExtra(base, rates, t).Ok?
  }

  lemma ExtraPriceNearRate(base: int, rates: seq<ExtraRate>, t: ExtraType)
    requires PriceExtra(base, rates, t).Ok?
    ensures -0.5 <= CentsFor(base, rates, t) as real - base as real * RateOf(rates, t) <= 0.5
    ensures base >= 0 && NonNegativeRates(rates) ==> CentsFor(base, rates, t) >= 0
  {
    PercentageNear(base, RateOf(rates, t));
  }

  ghost predicate NonNegativeExtras(priced: seq<PricedExtra>) {
    forall p :: p in priced ==> p.price >= 0
  }

  lemma {:induction false} PriceExtrasSum(base: int, rates: seq<ExtraRate>, extras: seq<ExtraType>)
    ensures PriceExtras(base, rates, extras).Ok? <==> Priceable(base, rates, extras)
    ensures PriceExtras(base, rates, extras).Ok? ==>
              var priced := PriceExtras(base, rates, extras).value;
              && Sum(ExtraPrice, priced) == Sum(ExtraCents(base, rates), extras)
              && (base >= 0 && NonNegativeRates(rates) ==> NonNegativeExtras(priced))
  {
    if extras != [] {
      PriceExtrasSum(base, rates, extras[1..]);
      assert extras == [extras[0]] + extras[1..];
      if PriceExtras(base, rates, extras).Ok? {
        var first := PriceExtra(base, rates, extras[0]).value;
        var rest := PriceExtras(base, rates, extras[1..]).value;
        assert ([first] + rest)[1..] == rest;
        ExtraPriceNearRate(base, rates, extras[0]);
      }
    }
  }

  lemma {:induction false} AddExtrasSum(total: int, extras: seq<PricedExtra>)
    requires SafeInteger(total)
    ensures AddExtras(total, extras).Ok? ==> AddExtras(total, extras).value == total + Sum(ExtraPrice, extras)
    ensures AddExtras(total, extras).Err? ==> AddExtras(total, extras).error == InvalidMoney
    decreases |extras|
  {
    if extras != [] && SafeInteger(extras[0].price) && SafeInteger(total + extras[0].price) {
      AddExtrasSum(total + extras[0].price, extras[1..]);
    }
  }

  lemma {:induction false} AddExtrasFits(total: int, extras: seq<PricedExtra>)
    requires 0 <= total <= MAX_SAFE && NonNegativeExtras(extras)
    ensures AddExtras(total, extras).Ok? <==> SafeInteger(total + Sum(ExtraPrice, extras))
    decreases |extras|
  {
    if extras != [] {
      assert extras[0] in extras && NonNegativeExtras(extras[1..]);
      SumNonNegative(ExtraPrice, extras[1..]);
      if total + extras[0].price <= MAX_SAFE {
        AddExtrasFits(total + extras[0].price, extras[1..]);
      }
    }
  }

  /** The subtotal with extras: what it is, and that it succeeds on every order of them or none. */
  lemma SubtotalIs(base: int, rates: seq<ExtraRate>, extras: seq<ExtraType>, priced: seq<PricedExtra>)
    requires 0 <= base <= MAX_SAFE && NonNegativeRates(rates) && PriceExtras(base, rates, extras) == Ok(priced)
    ensures var total := base + Sum(ExtraCents(base, rates), extras);
            && total >= base
            && (AddExtras(base, priced).Ok? <==> SafeInteger(total))
            && (AddExtras(base, priced).Ok? ==> AddExtras(base, priced).value == total)
  {
    PriceExtrasSum(base, rates, extras);
    SumNonNegative(ExtraPrice, priced);
    AddExtrasFits(base, priced);
    AddExtrasSum(base, priced);
  }

  /** The price does not depend on the order in which extras are chosen. */
  lemma ExtrasOrderIrrelevant(base: int, rates: seq<ExtraRate>, a: seq<ExtraType>, b: seq<ExtraType>)
    requires 0 <= base <= MAX_SAFE && NonNegativeRates(rates)
    requires multiset(a) == multiset(b)
    ensures Subtotal(base, rates, a).Ok? <==> Subtotal(base, rates, b).Ok?
    ensures Subtotal(base, rates, a).Ok? ==> Subtotal(base, rates, a) == Subtotal(base, rates, b)
  {
    PriceExtrasSum(base, rates, a);
    PriceExtrasSum(base, rates, b);
    SameMembers(a, b);
    SumPermutation(ExtraCents(base, rates), a, b);
    if PriceExtras(base, rates, a).Ok? {
      SubtotalIs(base, rates, a, PriceExtras(base, rates, a).value);
      SubtotalIs(base, rates, b, PriceExtras(base, rates, b).value);
    }
  }

  /** The extras' rates applied to the base without rounding. */
  function ExactExtras(base: int, rates: seq<ExtraRate>, extras: seq<ExtraType>): real {
    if extras == [] then 0.0 else base as real * RateOf(rates, extras[0]) + ExactExtras(base, rates, extras[1..])
  }

  lemma {:induction false} ExactExtrasFactor(base: int, rates: seq<ExtraRate>, extras: seq<ExtraType>)
    ensures ExactExtras(base, rates, extras) == base as real * RateSum(rates, extras)
  {
    if extras != [] {
      var b, first, rest := base as real, RateOf(rates, extras[0]), RateSum(rates, extras[1..]);
      ExactExtrasFactor(base, rates, extras[1..]);
      Distribute(b, first, rest);
      assert RateSum(rates, extras) == first + rest;
      assert ExactExtras(base, rates, extras) == b * first + ExactExtras(base, rates, extras[1..]);
    }
  }

  lemma {:induction false} ExtraCentsNearRates(base: int, rates: seq<ExtraRate>, extras: seq<ExtraType>)
    requires Priceable(base, rates, extras)
    ensures var gap := Sum(ExtraCents(base, rates), extras) as real - ExactExtras(base, rates, extras);
            -(|extras| as real) / 2.0 <= gap <= |extras| as real / 2.0
  {
    if extras != [] {
      var rest := extras[1..];
      ExtraPriceNearRate(base, rates, extras[0]);
      ExtraCentsNearRates(base, rates, rest);
      GapsAdd(
        CentsFor(base, rates, extras[0]), base as real * RateOf(rates, extras[0]),
        Sum(ExtraCents(base, rates), rest), ExactExtras(base, rates, rest), |rest|);
    }
  }

  lemma GapsAdd(cents: int, exact: real, restCents: int, restExact: real, n: nat)
    requires -0.5 <= cents as real - exact <= 0.5
    requires -(n as real) / 2.0 <= restCents as real - restExact <= n as real / 2.0
    ensures -((n + 1) as real) / 2.0 <= (cents + restCents) as real - (exact + restExact) <= (n + 1) as real / 2.0
  {
    assert (n + 1) as real == n as real + 1.0;
  }

  /** With n extras the subtotal is within n/2 cents of base * (1 + their rates). */
  lemma SubtotalNearRates(base: int, rates: seq<ExtraRate>, extras: seq<ExtraType>)
    requires 0 <= base <= MAX_SAFE && NonNegativeRates(rates)
    requires Subtotal(base, rates, extras).Ok?
    ensures var gap := Subtotal(base, rates, extras).value as real - base as real * (1.0 + RateSum(rates, extras));
            -(|extras| as real) / 2.0 <= gap <= |extras| as real / 2.0
    ensures Subtotal(base, rates, extras).value >= base
  {
    SubtotalIs(base, rates, extras, PriceExtras(base, rates, extras).value);
    PriceExtrasSum(base, rates, extras);
    ExtraCentsNearRates(base, rates, extras);
    ExactExtrasFactor(base, rates, extras);
    Distribute(base as real, 1.0, RateSum(rates, extras));
  }

  // ---- the database's row order ----

  /** A stored version as its repository reads it back. */
  function MapVersion(id: int, steps: seq<Step>, extras: seq<ExtraRate>): Version {
    Version(id, MapSteps(steps), extras)
  }

  lemma {:induction false} FindIndexConcat<T>(p: T -> bool, a: seq<T>, b: seq<T>)
    requires forall x :: x in b ==> !p(x)
    ensures FindIndex(p, a + b) == FindIndex(p, a)
  {
    if a == [] {
      assert a + b == b;
    } else {
      assert (a + b)[1..] == a[1..] + b;
      FindIndexConcat(p, a[1..], b);
    }
  }

  lemma LadderEntriesShared(ladder: seq<PriceEntry>, tail: seq<PriceEntry>, r: Rank)
    requires OnLadder(r) && forall e :: e in tail ==> !OnLadder(e.rank)
    ensures FindIndex(HasRank(r), ladder + tail) == FindIndex(HasRank(r), ladder)
  {
    FindIndexConcat(HasRank(r), ladder, tail);
  }

  lemma SharedValueWithin(ladder: seq<PriceEntry>, a: seq<PriceEntry>, b: seq<PriceEntry>, i: nat, percent: int)
    requires ladder <= a && ladder <= b && i < |ladder|
    ensures ValueWithin(a, i, percent) == ValueWithin(b, i, percent)
    ensures CumulativeValue(a, i) == CumulativeValue(b, i)
  {
    assert a[..i] == ladder[..i] == b[..i];
    assert a[i] == ladder[i] == b[i];
  }

  /** The base subtotal only looks at two entries and at the values standing there. */
  lemma BaseCongruent(a: seq<PriceEntry>, b: seq<PriceEntry>, r: Request)
    requires var current := FindEntry(a, r.currentLeague, r.currentDivision);
             && FindEntry(b, r.currentLeague, r.currentDivision) == current
             && (current.Some? ==>
                   ValueWithin(a, current.value, CurrentProgress(r))
                   == ValueWithin(b, current.value, CurrentProgress(r)))
    requires var desired := FindEntry(a, r.desiredLeague, r.desiredDivision);
             && FindEntry(b, r.desiredLeague, r.desiredDivision) == desired
             && TargetValue(a, r.desiredLeague, r.desiredDivision, desired)
                == TargetValue(b, r.desiredLeague, r.desiredDivision, desired)
    ensures BaseSubtotal(a, r) == BaseSubtotal(b, r)
  {
  }

  /** Tables that share their ladder part and their total price ladder requests alike. */
  lemma LadderPartDecides(a: seq<PriceEntry>, b: seq<PriceEntry>, r: Request)
    requires InRankOrder(a) && InRankOrder(b) && OnLadderRequest(r)
    requires Filter(EntryOnLadder, a) == Filter(EntryOnLadder, b) && multiset(a) == multiset(b)
    ensures BaseSubtotal(a, r) == BaseSubtotal(b, r)
  {
    SplitTable(a);
    SplitTable(b);
    var ladder := Filter(EntryOnLadder, a);
    var tailA, tailB := Filter(EntryOffLadder, a), Filter(EntryOffLadder, b);
    assert a == ladder + tailA && b == ladder + tailB;
    SumPermutation(PriceOf, a, b);
    SharedTailDecides(ladder, tailA, tailB, r);
  }

  lemma SharedTailDecides(ladder: seq<PriceEntry>, tailA: seq<PriceEntry>, tailB: seq<PriceEntry>, r: Request)
    requires OnLadderRequest(r)
    requires forall e :: e in tailA || e in tailB ==> !OnLadder(e.rank)
    requires Sum(PriceOf, ladder + tailA) == Sum(PriceOf, ladder + tailB)
    ensures BaseSubtotal(ladder + tailA, r) == BaseSubtotal(ladder + tailB, r)
  {
    LadderEntriesShared(ladder, tailA, CurrentRank(r));
    LadderEntriesShared(ladder, tailB, CurrentRank(r));
    LadderEntriesShared(ladder, tailA, DesiredRank(r));
    LadderEntriesShared(ladder, tailB, DesiredRank(r));
    var current := FindIndex(HasRank(CurrentRank(r)), ladder);
    var desired := FindIndex(HasRank(DesiredRank(r)), ladder);
    if current.Some? {
      SharedValueWithin(ladder, ladder + tailA, ladder + tailB, current.value, CurrentProgress(r));
    }
    if desired.Some? {
      SharedValueWithin(ladder, ladder + tailA, ladder + tailB, desired.value, MasterPdl(r.desiredDivision));
    }
    BaseCongruent(ladder + tailA, ladder + tailB, r);
  }

  lemma RatesPermutation(a: seq<ExtraRate>, b: seq<ExtraRate>, base: int, extras: seq<ExtraType>)
    requires multiset(a) == multiset(b) && DistinctBy(ExtraKey, a)
    ensures PriceExtras(base, a, extras) == PriceExtras(base, b, extras)
    decreases |extras|
  {
    if extras != [] {
      var t := extras[0];
      SameMembers(a, b);
      var inA, inB := FindIndex(HasType(t), a), FindIndex(HasType(t), b);
      assert forall x :: x in a ==> HasType(t)(x) == (x.extra == t);
      assert inA.Some? ==> a[inA.value] in b;
      assert inB.Some? ==> b[inB.value] in a;
      if inA.Some? && inB.Some? {
        DistinctMembers(ExtraKey, a, a[inA.value], b[inB.value]);
      }
      RatesPermutation(a, b, base, extras[1..]);
    }
  }

  /** A price never depends on the order in which the database returns a version's rows. */
  lemma RowOrderIrrelevant(
      id: int, stepsA: seq<Step>, stepsB: seq<Step>, extrasA: seq<ExtraRate>, extrasB: seq<ExtraRate>, r: Request)
    requires multiset(stepsA) == multiset(stepsB) && DistinctBy(StepKey, stepsA)
    requires multiset(extrasA) == multiset(extrasB) && DistinctBy(ExtraKey, extrasA)
    requires OnLadderRequest(r)
    ensures Calculate(Some(MapVersion(id, stepsA, extrasA)), r) == Calculate(Some(MapVersion(id, stepsB, extrasB)), r)
  {
    if r.serviceType.Priced? {
      var service := r.serviceType.service;
      var a, b := TableOf(stepsA, service), TableOf(stepsB, service);
      LadderPartPermutation(stepsA, stepsB, service);
      SameMembers(a, b);
      LadderPartDecides(a, b, r);
      if BaseSubtotal(a, r).Ok? {
        RatesPermutation(extrasA, extrasB, BaseSubtotal(a, r).value, r.extras);
      }
      SamePrice(MapVersion(id, stepsA, extrasA), MapVersion(id, stepsB, extrasB), r);
    }
  }

  /** What a calculation takes from a version: its base, and the extras priced on it. */
  lemma SamePrice(x: Version, y: Version, r: Request)
    requires r.serviceType.Priced? && x.id == y.id
    requires var a, b := PriceTable(x.steps, r.serviceType.service), PriceTable(y.steps, r.serviceType.service);
             && |a| == |b| && BaseSubtotal(a, r) == BaseSubtotal(b, r)
             && (BaseSubtotal(a, r).Ok? ==>
                   PriceExtras(BaseSubtotal(a, r).value, x.extras, r.extras)
                   == PriceExtras(BaseSubtotal(a, r).value, y.extras, r.extras))
    ensures Calculate(Some(x), r) == Calculate(Some(y), r)
  {
  }

  // ---- complete versions ----

  /**
   * On a complete, duplicate-free version a ladder request with known extras is never refused as
   * unpriced or incomplete: it is priced, or its ranks are not ascending, or an amount overflows.
   */
  lemma CompleteVersionPrices(id: int, steps: seq<Step>, extras: seq<ExtraRate>, r: Request)
    requires DistinctBy(StepKey, steps) && Complete(steps, extras)
    requires r.serviceType.Priced? && OnLadderRequest(r)
    requires forall t :: t in r.extras ==> t in ORDER_EXTRA_TYPES
    ensures var result := Calculate(Some(MapVersion(id, steps, extras)), r);
            result.Err? ==> result.error == RankProgressionInvalid || result.error == InvalidMoney
  {
    var table := TableOf(steps, r.serviceType.service);
    LadderPrefix(steps, extras, r.serviceType.service);
    LadderRankPriced(table, CurrentRank(r));
    LadderRankPriced(table, DesiredRank(r));
    PricedRanksErrors(table, r);
    var base := BaseSubtotal(table, r);
    if base.Ok? {
      KnownExtrasPriced(base.value, steps, extras, r.extras);
      var priced := PriceExtras(base.value, extras, r.extras);
      if priced.Ok? {
        AddExtrasSum(base.value, priced.value);
      }
    }
  }

  lemma PricedRanksErrors(table: seq<PriceEntry>, r: Request)
    requires FindEntry(table, r.currentLeague, r.currentDivision).Some?
    requires FindEntry(table, r.desiredLeague, r.desiredDivision).Some?
    ensures BaseSubtotal(table, r).Err? ==> BaseSubtotal(table, r).error in {RankProgressionInvalid, InvalidMoney}
    ensures BaseSubtotal(table, r).Ok? ==> SafeInteger(BaseSubtotal(table, r).value)
  {
  }

  lemma LadderRankPriced(table: seq<PriceEntry>, r: Rank)
    requires |table| >= |PROGRESSION| && OnLadder(r)
    requires forall k :: 0 <= k < |PROGRESSION| ==> table[k].rank == PROGRESSION[k]
    ensures exists e :: e in table && e.rank == r
  {
    LadderIndex(r, RankOrder(r));
    assert table[RankOrder(r)] in table;
  }

  lemma {:induction false} KnownExtrasPriced(base: int, steps: seq<Step>, rates: seq<ExtraRate>, extras: seq<ExtraType>)
    requires Complete(steps, rates)
    requires forall t :: t in extras ==> t in ORDER_EXTRA_TYPES
    ensures PriceExtras(base, rates, extras).Err? ==> PriceExtras(base, rates, extras).error == InvalidMoney
    decreases |extras|
  {
    if extras != [] {
      var t := extras[0];
      assert t in ORDER_EXTRA_TYPES;
      assert exists e :: e in rates && e.extra == t;
      KnownExtrasPriced(base, steps, rates, extras[1..]);
    }
  }
}
