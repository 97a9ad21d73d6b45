/** The ladder of ranks shared by pricing, and where a rank stands on it. */
module RankLadder {
  import opened MoneyCents

  // League and division texts after trimming and case folding. `Other...` stands for any text
  // that is not one of the ladder's names.
  datatype League = Iron | Bronze | Silver | Gold | Platinum | Emerald | Diamond | Master | OtherLeague(name: string)
  datatype Division = IV | III | II | I | MasterDivision | OtherDivision(name: string)
  datatype Rank = Rank(league: League, division: Division)

  const PROGRESSION: seq<Rank> := [
    Rank(Iron, IV), Rank(Iron, III), Rank(Iron, II), Rank(Iron, I),
    Rank(Bronze, IV), Rank(Bronze, III), Rank(Bronze, II), Rank(Bronze, I),
    Rank(Silver, IV), Rank(Silver, III), Rank(Silver, II), Rank(Silver, I),
    Rank(Gold, IV), Rank(Gold, III), Rank(Gold, II), Rank(Gold, I),
    Rank(Platinum, IV), Rank(Platinum, III), Rank(Platinum, II), Rank(Platinum, I),
    Rank(Emerald, IV), Rank(Emerald, III), Rank(Emerald, II), Rank(Emerald, I),
    Rank(Diamond, IV), Rank(Diamond, III), Rank(Diamond, II), Rank(Diamond, I),
    Rank(Master, MasterDivision)
  ]

  function LeagueHeight(l: League): int {
    match l
    case Iron => 0 case Bronze => 1 case Silver => 2 case Gold => 3
    case Platinum => 4 case Emerald => 5 case Diamond => 6 case Master => 7
    case OtherLeague(_) => -1
  }

  function DivisionHeight(l: League, d: Division): int {
    match d
    case IV => if l.Master? then -1 else 0
    case III => if l.Master? then -1 else 1
    case II => if l.Master? then -1 else 2
    case I => if l.Master? then -1 else 3
    case MasterDivision => if l.Master? then 0 else -1
    case OtherDivision(_) => -1
  }

  predicate OnLadder(r: Rank) {
    LeagueHeight(r.league) >= 0 && DivisionHeight(r.league, r.division) >= 0
  }

  /** Sort position of a rank: unknown ranks go last, as `Number.MAX_SAFE_INTEGER`. */
  function RankOrder(r: Rank): int {
    if OnLadder(r) then 4 * LeagueHeight(r.league) + DivisionHeight(r.league, r.division) else MAX_SAFE
  }

  lemma LadderEntry(k: nat)
    requires k < |PROGRESSION|
    ensures OnLadder(PROGRESSION[k]) && RankOrder(PROGRESSION[k]) == k
  {
  }

  /** The sort position computed above is the rank's index in the shared table. */
  lemma LadderIndex(r: Rank, k: int)
    ensures OnLadder(r) && RankOrder(r) == k <==> 0 <= k < |PROGRESSION| && PROGRESSION[k] == r
    ensures OnLadder(r) <==> r in PROGRESSION
  {
    if OnLadder(r) {
      LadderEntry(RankOrder(r));
      assert PROGRESSION[RankOrder(r)] == r;
    }
    if 0 <= k < |PROGRESSION| {
      LadderEntry(k);
    }
    if r in PROGRESSION {
      var i :| 0 <= i < |PROGRESSION| && PROGRESSION[i] == r;
      LadderEntry(i);
    }
  }
}

/** Administrator input rules for a pricing version. */
module PricingVersionRules {
  import opened Sequences
  import opened RankLadder

  datatype PricedService = DuoBoost | EloBoost

  datatype ExtraType =
    | MmrNerfed | MmrBuffed | PriorityService | FavoriteBooster | SuperRestriction | ExtraWin
    | RestrictedSchedule | KdReduction | DeadlineReduction | SoloService | OfflineChat
    | SpellPosition | SpecificLanes | SpecificChampions | OnlineStream
    | OtherExtra(name: string)

  const ORDER_EXTRA_TYPES: seq<ExtraType> := [
    MmrNerfed, MmrBuffed, PriorityService, FavoriteBooster, SuperRestriction, ExtraWin,
    RestrictedSchedule, KdReduction, DeadlineReduction, SoloService, OfflineChat,
    SpellPosition, SpecificLanes, SpecificChampions, OnlineStream
  ]

  const RANK_PRICED_SERVICES: seq<PricedService> := [EloBoost, DuoBoost]

  datatype Step = Step(service: PricedService, rank: Rank, priceToNext: int)
  datatype ExtraRate = ExtraRate(extra: ExtraType, modifierRate: real)

  function StepKey(s: Step): (PricedService, Rank) {
    (s.service, s.rank)
  }

  function ExtraKey(e: ExtraRate): ExtraType {
    e.extra
  }

  predicate HasStep(steps: seq<Step>, service: PricedService, rank: Rank) {
    exists s :: s in steps && s.service == service && s.rank == rank
  }

  /** What `assertOrderPricingVersionComplete` lets through without throwing. */
  predicate Complete(steps: seq<Step>, extras: seq<ExtraRate>) {
    && (forall service, rank :: service in RANK_PRICED_SERVICES && rank in PROGRESSION ==>
          HasStep(steps, service, rank))
    && (forall t :: t in ORDER_EXTRA_TYPES ==> exists e :: e in extras && e.extra == t)
  }

  method HasDuplicateSteps(steps: seq<Step>) returns (duplicate: bool)
    ensures duplicate <==> !DistinctBy(StepKey, steps)
    ensures duplicate <==> exists i, j ::
              0 <= i < j < |steps| && steps[i].service == steps[j].service && steps[i].rank == steps[j].rank
  {
    var seen: set<(PricedService, Rank)> := {};
    for i := 0 to |steps|
      invariant DistinctBy(StepKey, steps[..i])
      invariant forall k :: k in seen <==> exists j :: 0 <= j < i && StepKey(steps[j]) == k
    {
      var key := StepKey(steps[i]);
      if key in seen {
        ghost var j :| 0 <= j < i && StepKey(steps[j]) == key;
        assert !Differ(StepKey)(steps[j], steps[i]);
        return true;
      }
      seen := seen + {key};
    }
    assert steps[..|steps|] == steps;
    forall i, j | 0 <= i < j < |steps| ensures StepKey(steps[i]) != StepKey(steps[j]) {
      assert Differ(StepKey)(steps[i], steps[j]);
    }
    return false;
  }

  method HasDuplicateExtras(extras: seq<ExtraRate>) returns (duplicate: bool)
    ensures duplicate <==> !DistinctBy(ExtraKey, extras)
    ensures duplicate <==> exists i, j :: 0 <= i < j < |extras| && extras[i].extra == extras[j].extra
  {
    var seen: set<ExtraType> := {};
    for i := 0 to |extras|
      invariant DistinctBy(ExtraKey, extras[..i])
      invariant forall k :: k in seen <==> exists j :: 0 <= j < i && ExtraKey(extras[j]) == k
    {
      var key := ExtraKey(extras[i]);
      if key in seen {
        ghost var j :| 0 <= j < i && ExtraKey(extras[j]) == key;
        assert !Differ(ExtraKey)(extras[j], extras[i]);
        return true;
      }
      seen := seen + {key};
    }
    assert extras[..|extras|] == extras;
    forall i, j | 0 <= i < j < |extras| ensures ExtraKey(extras[i]) != ExtraKey(extras[j]) {
      assert Differ(ExtraKey)(extras[i], extras[j]);
    }
    return false;
  }
}

/** From stored step rows, in whatever order the database returns them, to a price table. */
module PriceTables {
  import opened Sequences
  import opened RankLadder
  import opened PricingVersionRules

  datatype PriceEntry = PriceEntry(rank: Rank, priceToNext: int)

  function ServiceOrder(s: PricedService): int {
    match s
    case DuoBoost => 0
    case EloBoost => 1
  }

  /** The comparator of `mapVersion`: service name first, then ladder position. */
  predicate StepLe(a: Step, b: Step) {
    if a.service != b.service then ServiceOrder(a.service) <= ServiceOrder(b.service)
    else RankOrder(a.rank) <= RankOrder(b.rank)
  }

  function MapSteps(rows: seq<Step>): seq<Step> {
    Sort(StepLe, rows)
  }

  function IsFor(service: PricedService): Step -> bool {
    (s: Step) => s.service == service
  }

  function EntryOf(s: Step): PriceEntry {
    PriceEntry(s.rank, s.priceToNext)
  }

  function PriceOf(e: PriceEntry): int {
    e.priceToNext
  }

  function PriceTable(steps: seq<Step>, service: PricedService): seq<PriceEntry> {
    Map(EntryOf, Filter(IsFor(service), steps))
  }

  function TableOf(rows: seq<Step>, service: PricedService): seq<PriceEntry> {
    PriceTable(MapSteps(rows), service)
  }

  predicate EntryOnLadder(e: PriceEntry) {
    OnLadder(e.rank)
  }

  predicate EntryOffLadder(e: PriceEntry) {
    !OnLadder(e.rank)
  }

  /** Ladder ranks strictly upwards, any unknown ranks after them. */
  ghost predicate InRankOrder(table: seq<PriceEntry>) {
    forall i, j :: 0 <= i < j < |table| && OnLadder(table[j].rank) ==>
      OnLadder(table[i].rank) && RankOrder(table[i].rank) < RankOrder(table[j].rank)
  }

  lemma StepOrderIsTotal()
    ensures TotalPreorder(StepLe)
  {
  }

  /** The steps of one service, sorted and still duplicate-free. */
  lemma KeptSteps(rows: seq<Step>, service: PricedService)
    requires DistinctBy(StepKey, rows)
    ensures var kept := Filter(IsFor(service), MapSteps(rows));
            Sorted(StepLe, kept) && DistinctBy(StepKey, kept)
  {
    var sorted := MapSteps(rows);
    StepOrderIsTotal();
    SortSorts(StepLe, rows);
    DistinctPermutation(StepKey, rows, sorted);
    FilterSorted(IsFor(service), StepLe, sorted);
    FilterSorted(IsFor(service), Differ(StepKey), sorted);
  }

  lemma StepsInRankOrder(a: Step, b: Step)
    requires a.service == b.service && StepLe(a, b) && StepKey(a) != StepKey(b)
    requires OnLadder(b.rank)
    ensures OnLadder(a.rank) && RankOrder(a.rank) < RankOrder(b.rank)
  {
  }

  /** Sorting duplicate-free rows and keeping one service puts the ladder in order. */
  lemma TableInRankOrder(rows: seq<Step>, service: PricedService)
    requires DistinctBy(StepKey, rows)
    ensures InRankOrder(TableOf(rows, service))
  {
    KeptSteps(rows, service);
    var kept := Filter(IsFor(service), MapSteps(rows));
    var table := TableOf(rows, service);
    forall i, j | 0 <= i < j < |table| && OnLadder(table[j].rank)
      ensures OnLadder(table[i].rank) && RankOrder(table[i].rank) < RankOrder(table[j].rank)
    {
      assert kept[i] in kept && kept[j] in kept;
      assert Differ(StepKey)(kept[i], kept[j]);
      StepsInRankOrder(kept[i], kept[j]);
    }
  }

  /** In rank order a table is its ladder part followed by its unknown ranks. */
  lemma {:induction false} SplitTable(table: seq<PriceEntry>)
    requires InRankOrder(table)
    ensures table == Filter(EntryOnLadder, table) + Filter(EntryOffLadder, table)
  {
    if table != [] {
      var rest := table[1..];
      SplitTable(rest);
      if !OnLadder(table[0].rank) {
        UnknownTail(table);
      }
    }
  }

  /** Nothing on the ladder follows an unknown rank. */
  lemma UnknownTail(table: seq<PriceEntry>)
    requires InRankOrder(table) && table != [] && !OnLadder(table[0].rank)
    ensures Filter(EntryOnLadder, table[1..]) == []
  {
    forall e | e in table[1..] ensures !OnLadder(e.rank) {
      var k :| 0 <= k < |table[1..]| && table[1..][k] == e;
      assert table[k + 1] == e;
    }
    FilterNone(EntryOnLadder, table[1..]);
  }

  predicate EntryLe(a: PriceEntry, b: PriceEntry) {
    RankOrder(a.rank) <= RankOrder(b.rank)
  }

  /** Two database orders of the same rows give tables that differ only in their unknown ranks. */
  lemma LadderPartPermutation(a: seq<Step>, b: seq<Step>, service: PricedService)
    requires multiset(a) == multiset(b) && DistinctBy(StepKey, a)
    ensures multiset(TableOf(a, service)) == multiset(TableOf(b, service))
    ensures InRankOrder(TableOf(a, service)) && InRankOrder(TableOf(b, service))
    ensures Filter(EntryOnLadder, TableOf(a, service)) == Filter(EntryOnLadder, TableOf(b, service))
  {
    DistinctPermutation(StepKey, a, b);
    TableInRankOrder(a, service);
    TableInRankOrder(b, service);
    FilterPermutation(IsFor(service), MapSteps(a), MapSteps(b));
    MapPermutation(EntryOf, Filter(IsFor(service), MapSteps(a)), Filter(IsFor(service), MapSteps(b)));
    var ta, tb := TableOf(a, service), TableOf(b, service);
    FilterPermutation(EntryOnLadder, ta, tb);
    var la, lb := Filter(EntryOnLadder, ta), Filter(EntryOnLadder, tb);
    LadderPartSorted(ta);
    LadderPartSorted(tb);
    SortedUnique(EntryLe, la, lb);
  }

  lemma LadderPartSorted(table: seq<PriceEntry>)
    requires InRankOrder(table)
    ensures Sorted(EntryLe, Filter(EntryOnLadder, table))
    ensures Antisymmetric(EntryLe, Filter(EntryOnLadder, table))
  {
    var part := Filter(EntryOnLadder, table);
    SplitTable(table);
    forall i, j | 0 <= i < j < |part| ensures RankOrder(part[i].rank) < RankOrder(part[j].rank) {
      assert part[j] in part;
      assert table[i] == part[i] && table[j] == part[j];
    }
  }

  lemma EntryFromRow(rows: seq<Step>, service: PricedService, e: PriceEntry)
    requires e in TableOf(rows, service)
    ensures exists s :: s in rows && s.service == service && s.rank == e.rank && s.priceToNext == e.priceToNext
  {
    var kept := Filter(IsFor(service), MapSteps(rows));
    var i :| 0 <= i < |TableOf(rows, service)| && TableOf(rows, service)[i] == e;
    assert kept[i] in kept && EntryOf(kept[i]) == e;
    SameMembers(rows, MapSteps(rows));
    assert kept[i] in rows && kept[i].service == service;
  }

  lemma EntryPresent(rows: seq<Step>, service: PricedService, rank: Rank)
    requires HasStep(rows, service, rank)
    ensures exists e :: e in TableOf(rows, service) && e.rank == rank
  {
    var s :| s in rows && s.service == service && s.rank == rank;
    SameMembers(rows, MapSteps(rows));
    var kept := Filter(IsFor(service), MapSteps(rows));
    assert s in kept;
    var i :| 0 <= i < |kept| && kept[i] == s;
    assert TableOf(rows, service)[i] == EntryOf(s);
    assert EntryOf(s) in TableOf(rows, service);
  }

  ghost predicate PricesOrder(table: seq<PriceEntry>, k: int) {
    exists e :: e in table && OnLadder(e.rank) && RankOrder(e.rank) == k
  }

  lemma {:induction false} OrderAtLeastIndex(table: seq<PriceEntry>, k: nat)
    requires InRankOrder(table) && k < |table| && OnLadder(table[k].rank)
    ensures RankOrder(table[k].rank) >= k
  {
    if k > 0 {
      OrderAtLeastIndex(table, k - 1);
    }
  }

  /** In rank order, a table that prices the ladder's first `n` ranks starts with them. */
  lemma {:induction false} PricedPrefix(table: seq<PriceEntry>, n: nat)
    requires InRankOrder(table)
    requires forall k :: 0 <= k < n ==> PricesOrder(table, k)
    ensures |table| >= n
    ensures forall k :: 0 <= k < n ==> OnLadder(table[k].rank) && RankOrder(table[k].rank) == k
  {
    if n > 0 {
      var k := n - 1;
      PricedPrefix(table, k);
      assert PricesOrder(table, k);
      var e :| e in table && OnLadder(e.rank) && RankOrder(e.rank) == k;
      var p :| 0 <= p < |table| && table[p] == e;
      OrderAtLeastIndex(table, p);
      assert p == k;
    }
  }

  /**
   * A complete, duplicate-free version read back in any order prices exactly the ladder, rank by
   * rank, before anything else.
   */
  lemma LadderPrefix(rows: seq<Step>, extras: seq<ExtraRate>, service: PricedService)
    requires DistinctBy(StepKey, rows) && Complete(rows, extras)
    ensures |TableOf(rows, service)| >= |PROGRESSION|
    ensures forall k :: 0 <= k < |PROGRESSION| ==> TableOf(rows, service)[k].rank == PROGRESSION[k]
  {
    var table := TableOf(rows, service);
    TableInRankOrder(rows, service);
    assert service in RANK_PRICED_SERVICES by {
      assert RANK_PRICED_SERVICES[0] == EloBoost && RANK_PRICED_SERVICES[1] == DuoBoost;
    }
    forall k | 0 <= k < |PROGRESSION| ensures PricesOrder(table, k) {
      LadderEntry(k);
      EntryPresent(rows, service, PROGRESSION[k]);
    }
    PricedPrefix(table, |PROGRESSION|);
    forall k | 0 <= k < |PROGRESSION| ensures table[k].rank == PROGRESSION[k] {
      LadderIndex(table[k].rank, k);
    }
  }
}
