/** Prices of boost orders in whole cents: sums of stored step prices, less the part already earned. */
module PricingInPrices {
  import opened Outcomes
  import opened Sequences
  import opened MoneyCents
  import opened RankLadder
  import opened PricingVersionRules
  import opened PriceTables
  import opened VersionedPricing

  // ---- one step ----

  /** `n` hundredths in whole cents, halves up; below zero it is mirrored. */
  function Cents(n: int): int {
    if n >= 0 then (n + 50) / 100 else -((50 - n) / 100)
  }

  lemma RoundHundredths(n: int)
    requires n >= 0
    ensures Round(n as real / 100.0) == (n + 50) / 100
  {
    var x := n as real / 100.0;
    assert x + 0.5 == (n + 50) as real / 100.0;
    var q := (n + 50) / 100;
    assert 100 * q <= n + 50 < 100 * q + 100;
    assert q as real <= x + 0.5 < (q + 1) as real;
  }

  /** A part of a step's price is the nearest whole cent, and exactly half a cent counts as one. */
  lemma PartIsNearest(price: int, percent: int)
    ensures StepPart(price, percent) == Cents(price * percent)
    ensures -50 <= 100 * StepPart(price, percent) - price * percent <= 50
    ensures price >= 0 && percent >= 0 ==> 100 * StepPart(price, percent) - price * percent > -50
  {
    var n := price * percent;
    assert price as real * (percent as real / 100.0) == n as real / 100.0 by {
      assert price as real * percent as real == n as real;
    }
    if n >= 0 {
      RoundHundredths(n);
    } else {
      RoundNearest((-n) as real / 100.0);
      RoundHundredths(-n);
      assert n as real / 100.0 == -((-n) as real / 100.0);
    }
    if price >= 0 && percent >= 0 { NonNegativeProduct(price, percent); }
  }

  lemma NonNegativeProduct(a: int, b: int)
    requires a >= 0 && b >= 0
    ensures a * b >= 0
  {
  }

  // ---- where a request starts and ends ----

  datatype Place = Place(rank: Rank, percent: int)

  /** Below Master the division and the LP count; in Master the PDL, which may be written as the division. */
  function StartsAt(league: League, d: DivisionText, lp: int): Place {
    if league == Master && d.name == MasterDivision then Place(Rank(Master, MasterDivision), lp)
    else if league == Master && d.number.Some? && 0 <= d.number.value <= 250 then
      Place(Rank(Master, MasterDivision), d.number.value)
    else Place(Rank(league, d.name), lp)
  }

  function EndsAt(league: League, d: DivisionText): Place {
    if league == Master && d.number.Some? && 0 <= d.number.value <= 250 then
      Place(Rank(Master, MasterDivision), d.number.value)
    else Place(Rank(league, d.name), 0)
  }

  function Start(r: Request): Place {
    StartsAt(r.currentLeague, r.currentDivision, r.currentLp)
  }

  function Goal(r: Request): Place {
    EndsAt(r.desiredLeague, r.desiredDivision)
  }

  lemma PlacesAreRanks(r: Request)
    ensures CurrentRank(r) == Start(r).rank && CurrentProgress(r) == Start(r).percent
    ensures DesiredRank(r) == Goal(r).rank
    ensures DesiresMaster(r) <==> Goal(r).rank == Rank(Master, MasterDivision)
    ensures DesiresMaster(r) ==> MasterPdl(r.desiredDivision) == Goal(r).percent
    ensures !DesiresMaster(r) ==> Goal(r).percent == 0
  {
  }

  /** The entry that prices a rank: the first one for it. */
  ghost predicate Prices(table: seq<PriceEntry>, rank: Rank, k: nat) {
    k < |table| && table[k].rank == rank && forall m :: 0 <= m < k ==> table[m].rank != rank
  }

  ghost predicate Unpriced(table: seq<PriceEntry>, rank: Rank) {
    forall m :: 0 <= m < |table| ==> table[m].rank != rank
  }

  lemma FoundWherePriced(table: seq<PriceEntry>, rank: Rank, k: nat)
    ensures Prices(table, rank, k) ==> FindIndex(HasRank(rank), table) == Some(k)
    ensures Unpriced(table, rank) ==> FindIndex(HasRank(rank), table) == None
  {
    if Prices(table, rank, k) {
      assert HasRank(rank)(table[k]) && table[k] in table;
    }
  }

  /** What it costs to climb from the bottom of the table to entry `k`. */
  function Climb(table: seq<PriceEntry>, k: nat): int
    requires k <= |table|
  {
    if k == 0 then 0 else Climb(table, k - 1) + table[k - 1].priceToNext
  }

  lemma {:induction false} ClimbIs(table: seq<PriceEntry>, k: nat)
    requires k <= |table|
    ensures CumulativeValue(table, k) == Climb(table, k)
  {
    if k > 0 {
      ClimbIs(table, k - 1);
      CumulativeSplit(table, k - 1, k);
      assert table[k - 1..k] == [table[k - 1]];
      assert Sum(PriceOf, [table[k - 1]]) == table[k - 1].priceToNext + Sum(PriceOf, [table[k - 1]][1..]);
    }
  }

  lemma ClimbAll(table: seq<PriceEntry>)
    ensures Sum(PriceOf, table) == Climb(table, |table|)
  {
    ClimbIs(table, |table|);
    assert table[..|table|] == table;
  }

  /** The goal's entry; without one only Master can be aimed at, and the whole table is climbed. */
  ghost predicate Reached(table: seq<PriceEntry>, goal: Place, j: nat) {
    || Prices(table, goal.rank, j)
    || (goal.rank == Rank(Master, MasterDivision) && Unpriced(table, goal.rank) && j == |table|)
  }

  /** From start to goal: the prices of the steps between, the PDL aimed at, less the part already earned. */
  function Exact(table: seq<PriceEntry>, i: nat, earned: int, j: nat, aimed: int): int
    requires i < |table| && j <= |table|
  {
    Climb(table, j) - Climb(table, i)
    + (if j < |table| then Cents(table[j].priceToNext * aimed) else 0) - Cents(table[i].priceToNext * earned)
  }

  lemma ExactIs(table: seq<PriceEntry>, r: Request, i: nat, j: nat)
    requires Prices(table, Start(r).rank, i) && Reached(table, Goal(r), j)
    ensures FindEntry(table, r.currentLeague, r.currentDivision) == Some(i)
    ensures var desired := FindEntry(table, r.desiredLeague, r.desiredDivision);
            && desired == (if j < |table| then Some(j) else None)
            && (desired.Some? || DesiresMaster(r))
            && Exact(table, i, Start(r).percent, j, Goal(r).percent)
               == ExactTarget(table, r, desired) - ExactValue(table, i, CurrentProgress(r))
  {
    PlacesAreRanks(r);
    FoundWherePriced(table, Start(r).rank, i);
    FoundWherePriced(table, Goal(r).rank, j);
    ClimbIs(table, i);
    ClimbIs(table, j);
    PartIsNearest(table[i].priceToNext, Start(r).percent);
    if j < |table| {
      PartIsNearest(table[j].priceToNext, Goal(r).percent);
    } else {
      ClimbAll(table);
    }
  }

  /** An accepted base is the climb between the two places, to the cent. */
  lemma AcceptedBaseInCents(table: seq<PriceEntry>, r: Request, i: nat, j: nat)
    requires Prices(table, Start(r).rank, i) && Reached(table, Goal(r), j)
    requires BaseSubtotal(table, r).Ok?
    ensures BaseSubtotal(table, r).value == Exact(table, i, Start(r).percent, j, Goal(r).percent)
  {
    ExactIs(table, r, i, j);
    AcceptedBase(table, r);
  }

  /** With amounts that fit, a request between priced places is accepted if and only if that is positive. */
  lemma BaseInCents(table: seq<PriceEntry>, r: Request, i: nat, j: nat)
    requires Prices(table, Start(r).rank, i) && Reached(table, Goal(r), j)
    requires (forall e :: e in table ==> e.priceToNext >= 0) && 4 * Climb(table, |table|) <= MAX_SAFE
    requires 0 <= Start(r).percent <= 250
    ensures var exact := Exact(table, i, Start(r).percent, j, Goal(r).percent);
            BaseSubtotal(table, r) == if exact > 0 then Ok(exact) else Err(RankProgressionInvalid)
  {
    ExactIs(table, r, i, j);
    PlacesAreRanks(r);
    ClimbAll(table);
    BaseThatFits(table, r, i, j);
  }

  lemma BaseThatFits(table: seq<PriceEntry>, r: Request, i: nat, j: nat)
    requires FindEntry(table, r.currentLeague, r.currentDivision) == Some(i) && Reached(table, Goal(r), j)
    requires NonNegativePrices(table) && FitsSafely(table) && 0 <= CurrentProgress(r) <= 250
    ensures var target := ExactTarget(table, r, FindEntry(table, r.desiredLeague, r.desiredDivision));
            var gap := target - ExactValue(table, i, CurrentProgress(r));
            BaseSubtotal(table, r) == if gap > 0 then Ok(gap) else Err(RankProgressionInvalid)
  {
    StartFits(table, i, CurrentProgress(r));
    TargetFits(table, r, j);
    var target := ExactTarget(table, r, FindEntry(table, r.desiredLeague, r.desiredDivision));
    BaseBetween(table, r, i, ExactValue(table, i, CurrentProgress(r)), target);
  }

  lemma StartFits(table: seq<PriceEntry>, i: nat, percent: int)
    requires NonNegativePrices(table) && FitsSafely(table) && i < |table| && 0 <= percent <= 250
    ensures ValueWithin(table, i, percent) == Ok(ExactValue(table, i, percent))
    ensures 0 <= ExactValue(table, i, percent) <= 4 * Sum(PriceOf, table)
  {
    ValueWithinFits(table, i, percent);
    CumulativeGrows(table, i, i + 1);
    PartBounds(table[i].priceToNext, percent);
  }

  lemma TargetFits(table: seq<PriceEntry>, r: Request, j: nat)
    requires Reached(table, Goal(r), j) && NonNegativePrices(table) && FitsSafely(table)
    ensures var desired := FindEntry(table, r.desiredLeague, r.desiredDivision);
            && TargetValue(table, r.desiredLeague, r.desiredDivision, desired) == Ok(ExactTarget(table, r, desired))
            && 0 <= ExactTarget(table, r, desired) <= 4 * Sum(PriceOf, table)
  {
    PlacesAreRanks(r);
    FoundWherePriced(table, Goal(r).rank, j);
    SumNonNegative(PriceOf, table);
    if j < |table| {
      CumulativeGrows(table, j, j + 1);
      PartBounds(table[j].priceToNext, Goal(r).percent);
      if DesiresMaster(r) { ValueWithinFits(table, j, Goal(r).percent); }
    }
  }

  /** Between divisions the base is the prices passed less the LP's share of the first, to half a cent. */
  lemma BelowMaster(table: seq<PriceEntry>, r: Request, i: nat, j: nat)
    requires r.currentLeague != Master && r.desiredLeague != Master && BaseSubtotal(table, r).Ok?
    requires Prices(table, Rank(r.currentLeague, r.currentDivision.name), i)
    requires Prices(table, Rank(r.desiredLeague, r.desiredDivision.name), j)
    ensures var base := BaseSubtotal(table, r).value;
            var earned := r.currentLp * table[i].priceToNext;
            && base == Climb(table, j) - Climb(table, i) - Cents(earned)
            && -50 <= 100 * base - (100 * (Climb(table, j) - Climb(table, i)) - earned) <= 50
            && (earned >= 0 ==> 100 * base - (100 * (Climb(table, j) - Climb(table, i)) - earned) < 50)
  {
    AcceptedBaseInCents(table, r, i, j);
    PartIsNearest(table[i].priceToNext, r.currentLp);
    assert table[j].priceToNext * 0 == 0;
  }

  /** Inside Master the PDL still to be won is priced, each end to the nearest cent. */
  lemma InsideMaster(table: seq<PriceEntry>, r: Request, i: nat, won: int, aimed: int)
    requires r.currentLeague == Master && r.currentDivision.name != MasterDivision && 0 <= won <= 250
    requires r.currentDivision.number == Some(won)
    requires r.desiredLeague == Master && r.desiredDivision.number == Some(aimed) && 0 <= aimed <= 250
    requires Prices(table, Rank(Master, MasterDivision), i) && BaseSubtotal(table, r).Ok?
    ensures var base, price := BaseSubtotal(table, r).value, table[i].priceToNext;
            && base == Cents(price * aimed) - Cents(price * won)
            && -100 < 100 * base - price * (aimed - won) < 100
  {
    AcceptedBaseInCents(table, r, i, i);
    TwoParts(table[i].priceToNext, won, aimed);
  }

  lemma TwoParts(price: int, won: int, aimed: int)
    requires 0 <= won && 0 <= aimed
    ensures -100 < 100 * (Cents(price * aimed) - Cents(price * won)) - price * (aimed - won) < 100
  {
    var x, y := price * won, price * aimed;
    assert price * (aimed - won) == y - x;
    SameSign(price, won, aimed);
    CentsNear(x);
    CentsNear(y);
  }

  lemma CentsNear(n: int)
    ensures n >= 0 ==> -50 < 100 * Cents(n) - n <= 50
    ensures n <= 0 ==> -50 <= 100 * Cents(n) - n < 50
  {
  }

  lemma SameSign(price: int, p: int, q: int)
    requires 0 <= p && 0 <= q
    ensures (price >= 0 && price * p >= 0 && price * q >= 0) || (price <= 0 && price * p <= 0 && price * q <= 0)
  {
  }

  /** A rank without a price is refused, unless it is Master that is aimed at. */
  lemma UnpricedRefused(table: seq<PriceEntry>, r: Request)
    ensures Unpriced(table, Start(r).rank) ==> BaseSubtotal(table, r) == Err(RankNotPriced)
    ensures Unpriced(table, Goal(r).rank) && Goal(r).rank != Rank(Master, MasterDivision) ==>
              BaseSubtotal(table, r) in {Err(RankNotPriced), Err(InvalidMoney)}
  {
    PlacesAreRanks(r);
    FoundWherePriced(table, Start(r).rank, 0);
    FoundWherePriced(table, Goal(r).rank, 0);
  }

  // ---- extras ----

  function Total(extras: seq<PricedExtra>): int {
    if extras == [] then 0 else extras[0].price + Total(extras[1..])
  }

  lemma {:induction false} TotalIs(extras: seq<PricedExtra>)
    ensures Total(extras) == Sum(ExtraPrice, extras)
  {
    if extras != [] { TotalIs(extras[1..]); }
  }

  /** The price of an extra is the cent nearest to its rate of the base. */
  ghost predicate Nearest(price: int, base: int, rate: real) {
    -0.5 <= price as real - base as real * rate <= 0.5
  }

  lemma {:induction false} ExtrasPricedByRate(base: int, rates: seq<ExtraRate>, extras: seq<ExtraType>)
    requires forall i, j :: 0 <= i < j < |rates| ==> rates[i].extra != rates[j].extra
    requires PriceExtras(base, rates, extras).Ok?
    ensures var priced := PriceExtras(base, rates, extras).value;
            && |priced| == |extras|
            && forall k :: 0 <= k < |extras| ==>
                 && priced[k].extra == extras[k]
                 && exists e :: e in rates && e.extra == extras[k] && Nearest(priced[k].price, base, e.modifierRate)
    decreases |extras|
  {
    if extras != [] {
      ExtrasPricedByRate(base, rates, extras[1..]);
      var i := FindIndex(HasType(extras[0]), rates).value;
      PercentageNear(base, rates[i].modifierRate);
      var priced := PriceExtras(base, rates, extras).value;
      assert rates[i] in rates && Nearest(priced[0].price, base, rates[i].modifierRate);
      assert priced[1..] == PriceExtras(base, rates, extras[1..]).value;
      forall k | 1 <= k < |extras|
        ensures priced[k].extra == extras[k]
        ensures exists e :: e in rates && e.extra == extras[k] && Nearest(priced[k].price, base, e.modifierRate)
      {
        assert priced[k] == priced[1..][k - 1] && extras[k] == extras[1..][k - 1];
      }
    }
  }

  // ---- a calculation from stored rows ----

  /** What the ladder's ranks cost one service in the stored rows. */
  ghost predicate PricesOf(steps: seq<Step>, service: PricedService, prices: seq<int>) {
    && |prices| == |PROGRESSION|
    && forall s, k :: s in steps && s.service == service && 0 <= k < |PROGRESSION| && s.rank == PROGRESSION[k] ==>
         s.priceToNext == prices[k]
  }

  /** The prices of the ranks from `a` up to `b`. */
  function Between(prices: seq<int>, a: nat, b: nat): int
    requires a <= b <= |prices|
  {
    if a == b then 0 else Between(prices, a, b - 1) + prices[b - 1]
  }

  lemma LadderEntries(steps: seq<Step>, extras: seq<ExtraRate>, service: PricedService, prices: seq<int>)
    requires DistinctBy(StepKey, steps) && Complete(steps, extras) && PricesOf(steps, service, prices)
    ensures var table := TableOf(steps, service);
            && |table| >= |PROGRESSION|
            && forall k :: 0 <= k < |PROGRESSION| ==>
                 table[k].priceToNext == prices[k] && Prices(table, PROGRESSION[k], k)
  {
    var table := TableOf(steps, service);
    LadderPrefix(steps, extras, service);
    forall k | 0 <= k < |PROGRESSION|
      ensures table[k].priceToNext == prices[k] && Prices(table, PROGRESSION[k], k)
    {
      EntryFromRow(steps, service, table[k]);
      forall m | 0 <= m < k ensures table[m].rank != PROGRESSION[k] {
        LadderEntry(m);
        LadderEntry(k);
      }
    }
  }

  lemma {:induction false} ClimbsBetween(table: seq<PriceEntry>, prices: seq<int>, a: nat, b: nat)
    requires a <= b <= |prices| <= |table|
    requires forall k :: 0 <= k < |prices| ==> table[k].priceToNext == prices[k]
    ensures Climb(table, b) - Climb(table, a) == Between(prices, a, b)
    decreases b
  {
    if a < b { ClimbsBetween(table, prices, a, b - 1); }
  }

  /**
   * A calculation on a complete version, from its stored rows: the prices of the ranks from the current one
   * up to the desired one, the PDL aimed at, less the part already earned; then every extra at its own rate.
   */
  lemma PriceFromRows(
      id: int, steps: seq<Step>, rates: seq<ExtraRate>, r: Request, prices: seq<int>, a: nat, b: nat)
    requires DistinctBy(StepKey, steps) && Complete(steps, rates)
    requires forall i, j :: 0 <= i < j < |rates| ==> rates[i].extra != rates[j].extra
    requires r.serviceType.Priced? && PricesOf(steps, r.serviceType.service, prices)
    requires a <= b < |PROGRESSION| && Start(r).rank == PROGRESSION[a] && Goal(r).rank == PROGRESSION[b]
    requires Calculate(Some(MapVersion(id, steps, rates)), r).Ok?
    ensures var p := Calculate(Some(MapVersion(id, steps, rates)), r).value;
            var base := Between(prices, a, b)
                        + Cents(prices[b] * Goal(r).percent) - Cents(prices[a] * Start(r).percent);
            && base > 0 && |p.extras| == |r.extras|
            && (forall k :: 0 <= k < |r.extras| ==>
                  && p.extras[k].extra == r.extras[k]
                  && exists e ::
                       e in rates && e.extra == r.extras[k] && Nearest(p.extras[k].price, base, e.modifierRate))
            && p.subtotal == base + Total(p.extras) && p.totalAmount == p.subtotal
            && p.discountAmount == 0 && p.versionId == id
  {
    var version := MapVersion(id, steps, rates);
    BaseFromRows(steps, rates, r, prices, a, b);
    PartsOfCalculation(version, r);
    var base := BaseSubtotal(PriceTable(version.steps, r.serviceType.service), r).value;
    ExtrasPricedByRate(base, rates, r.extras);
  }

  lemma BaseFromRows(steps: seq<Step>, rates: seq<ExtraRate>, r: Request, prices: seq<int>, a: nat, b: nat)
    requires DistinctBy(StepKey, steps) && Complete(steps, rates)
    requires r.serviceType.Priced? && PricesOf(steps, r.serviceType.service, prices)
    requires a <= b < |PROGRESSION| && Start(r).rank == PROGRESSION[a] && Goal(r).rank == PROGRESSION[b]
    requires BaseSubtotal(TableOf(steps, r.serviceType.service), r).Ok?
    ensures BaseSubtotal(TableOf(steps, r.serviceType.service), r).value
         == Between(prices, a, b) + Cents(prices[b] * Goal(r).percent) - Cents(prices[a] * Start(r).percent)
  {
    var table := TableOf(steps, r.serviceType.service);
    LadderEntries(steps, rates, r.serviceType.service, prices);
    ClimbsBetween(table, prices, a, b);
    AcceptedBaseInCents(table, r, a, b);
  }

  lemma PartsOfCalculation(version: Version, r: Request)
    requires r.serviceType.Priced? && Calculate(Some(version), r).Ok?
    ensures var p := Calculate(Some(version), r).value;
            var base := BaseSubtotal(PriceTable(version.steps, r.serviceType.service), r);
            && base.Ok? && base.value > 0 && PriceExtras(base.value, version.extras, r.extras) == Ok(p.extras)
            && p.subtotal == base.value + Total(p.extras) && p.totalAmount == p.subtotal
            && p.discountAmount == 0 && p.versionId == version.id
  {
    var base := BaseSubtotal(PriceTable(version.steps, r.serviceType.service), r).value;
    var priced := PriceExtras(base, version.extras, r.extras).value;
    AcceptedBase(PriceTable(version.steps, r.serviceType.service), r);
    AddExtrasSum(base, priced);
    TotalIs(priced);
  }

  /** What is refused before any rank is looked at. */
  lemma CalculationRefused(active: Option<Version>, r: Request)
    ensures r.serviceType in {Md5, Coaching} ==> Calculate(active, r) == Err(UnsupportedPricingService)
    ensures r.serviceType.Priced? && active == None ==> Calculate(active, r) == Err(PricingVersionNotActive)
    ensures r.serviceType.Priced? && active.Some?
            && (forall s :: s in active.value.steps ==> s.service != r.serviceType.service) ==>
              Calculate(active, r) == Err(RankNotPriced)
  {
    if r.serviceType.Priced? && active.Some? {
      var service := r.serviceType.service;
      if forall s :: s in active.value.steps ==> s.service != service {
        FilterNone(IsFor(service), active.value.steps);
      }
    }
  }

  /** One extra that the shared list or the version does not know spoils the calculation. */
  lemma UnknownExtraRefused(version: Version, r: Request, t: ExtraType)
    requires t in r.extras && (t.OtherExtra? || forall e :: e in version.extras ==> e.extra != t)
    ensures Calculate(Some(version), r).Err?
  {
    if r.serviceType.Priced? {
      var base := BaseSubtotal(PriceTable(version.steps, r.serviceType.service), r);
      if base.Ok? {
        PriceExtrasSum(base.value, version.extras, r.extras);
        assert PriceExtra(base.value, version.extras, t).Err?;
      }
    }
  }
}
