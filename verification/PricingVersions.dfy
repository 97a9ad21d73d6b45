/** Life cycle of stored pricing versions, and what it guarantees to quotes already given. */
module PricingVersions {
  import opened Outcomes
  import opened Sequences
  import opened PricingVersionRules
  import opened VersionedPricing

  datatype Status = Draft | Active | Archived

  datatype StoredVersion = StoredVersion(
    id: int, status: Status, activatedAt: Option<int>, steps: seq<Step>, extras: seq<ExtraRate>)

  function IdOf(v: StoredVersion): int {
    v.id
  }

  function HasId(id: int): StoredVersion -> bool {
    (v: StoredVersion) => v.id == id
  }

  predicate IsActive(v: StoredVersion) {
    v.status == Active
  }

  function Snapshot(v: StoredVersion): Version {
    MapVersion(v.id, v.steps, v.extras)
  }

  function FindActive(rows: seq<StoredVersion>): Result<Option<Version>> {
    var active := Filter(IsActive, rows);
    if |active| > 1 then Err(PricingVersionConflict)
    else if |active| == 0 then Ok(None)
    else Ok(Some(Snapshot(active[0])))
  }

  function CreateDraft(
      rows: seq<StoredVersion>, id: int, steps: seq<Step>, extras: seq<ExtraRate>): seq<StoredVersion>
  {
    rows + [StoredVersion(id, Draft, None, steps, extras)]
  }

  /** Position of the draft with this id, or why it may not be changed. */
  function FindDraft(rows: seq<StoredVersion>, id: int): (r: Result<nat>)
    ensures r.Ok? ==> r.value < |rows| && rows[r.value].id == id && rows[r.value].status == Draft
  {
    match FindIndex(HasId(id), rows)
    case None => Err(PricingVersionNotFound)
    case Some(i) => if rows[i].status != Draft then Err(PricingVersionImmutable) else Ok(i)
  }

  function ReplaceDraft(
      rows: seq<StoredVersion>, id: int, steps: seq<Step>, extras: seq<ExtraRate>): Result<seq<StoredVersion>>
  {
    var i :- FindDraft(rows, id);
    Ok(rows[i := rows[i].(steps := steps, extras := extras)])
  }

  function Archive(v: StoredVersion): StoredVersion {
    if v.status == Active then v.(status := Archived) else v
  }

  function Activate(rows: seq<StoredVersion>, id: int, at: int): Result<seq<StoredVersion>> {
    var i :- FindDraft(rows, id);
    Ok(Map(Archive, rows)[i := rows[i].(status := Active, activatedAt := Some(at))])
  }

  /** An active lookup answers nothing without an active version. */
  lemma NoneActive(rows: seq<StoredVersion>)
    ensures FindActive(rows) == Ok(None) <==> forall v :: v in rows ==> v.status != Active
  {
    var active := Filter(IsActive, rows);
    if active == [] {
      forall v | v in rows ensures !IsActive(v) {
        assert IsActive(v) ==> v in active;
      }
    } else {
      assert active[0] in active && IsActive(active[0]);
    }
  }

  /** With one it answers that one, as stored. */
  lemma OneActive(rows: seq<StoredVersion>, i: nat)
    requires i < |rows| && rows[i].status == Active
    requires forall j :: 0 <= j < |rows| && j != i ==> rows[j].status != Active
    ensures FindActive(rows) == Ok(Some(MapVersion(rows[i].id, rows[i].steps, rows[i].extras)))
  {
    assert rows == rows[..i] + [rows[i]] + rows[i + 1..];
    FilterConcat(IsActive, rows[..i] + [rows[i]], rows[i + 1..]);
    FilterConcat(IsActive, rows[..i], [rows[i]]);
    FilterNone(IsActive, rows[..i]);
    FilterNone(IsActive, rows[i + 1..]);
    FilterAll(IsActive, [rows[i]]);
  }

  /** It does not choose between two. */
  lemma TwoActive(rows: seq<StoredVersion>, i: nat, j: nat)
    requires i < j < |rows| && rows[i].status == Active && rows[j].status == Active
    ensures FindActive(rows) == Err(PricingVersionConflict)
  {
    assert rows == rows[..j] + rows[j..];
    FilterConcat(IsActive, rows[..j], rows[j..]);
    assert rows[..j][i] in Filter(IsActive, rows[..j]) && rows[j..][0] in Filter(IsActive, rows[j..]);
  }

  lemma FoundById(rows: seq<StoredVersion>, i: nat)
    requires i < |rows| && forall j, k :: 0 <= j < k < |rows| ==> rows[j].id != rows[k].id
    ensures FindIndex(HasId(rows[i].id), rows) == Some(i)
  {
    assert HasId(rows[i].id)(rows[i]) && rows[i] in rows;
  }

  /** Activating a draft makes it the active version from that instant and archives the one before. */
  lemma ActivateWrites(rows: seq<StoredVersion>, i: nat, at: int)
    requires i < |rows| && forall j, k :: 0 <= j < k < |rows| ==> rows[j].id != rows[k].id
    ensures rows[i].status != Draft ==> Activate(rows, rows[i].id, at) == Err(PricingVersionImmutable)
    ensures rows[i].status == Draft ==>
              var result := Activate(rows, rows[i].id, at);
              && result.Ok? && |result.value| == |rows|
              && result.value[i] == rows[i].(status := Active, activatedAt := Some(at))
              && (forall j :: 0 <= j < |rows| && j != i ==>
                    result.value[j] == if rows[j].status == Active then rows[j].(status := Archived) else rows[j])
              && FindActive(result.value) == Ok(Some(MapVersion(rows[i].id, rows[i].steps, rows[i].extras)))
  {
    FoundById(rows, i);
    if rows[i].status == Draft {
      OneActive(Activate(rows, rows[i].id, at).value, i);
    }
  }

  /** Replacing a draft changes its steps and extras; what was once activated is not replaced. */
  lemma ReplaceWrites(rows: seq<StoredVersion>, i: nat, steps: seq<Step>, extras: seq<ExtraRate>)
    requires i < |rows| && forall j, k :: 0 <= j < k < |rows| ==> rows[j].id != rows[k].id
    ensures ReplaceDraft(rows, rows[i].id, steps, extras) ==
            if rows[i].status == Draft then Ok(rows[i := rows[i].(steps := steps, extras := extras)])
            else Err(PricingVersionImmutable)
  {
    FoundById(rows, i);
  }

  lemma UnknownVersionRefused(rows: seq<StoredVersion>, id: int, at: int, steps: seq<Step>, extras: seq<ExtraRate>)
    requires forall v :: v in rows ==> v.id != id
    ensures Activate(rows, id, at) == Err(PricingVersionNotFound)
    ensures ReplaceDraft(rows, id, steps, extras) == Err(PricingVersionNotFound)
  {
  }

  class PricingVersionRepository {
    var rows: seq<StoredVersion>

    constructor ()
      ensures rows == []
    {
      rows := [];
    }

    method CreateDraftVersion(id: int, steps: seq<Step>, extras: seq<ExtraRate>) returns (created: Version)
      requires forall v :: v in rows ==> v.id != id
      modifies this
      ensures rows == old(rows) + [StoredVersion(id, Draft, None, steps, extras)]
      ensures created == MapVersion(id, steps, extras)
    {
      var row := StoredVersion(id, Draft, None, steps, extras);
      rows := rows + [row];
      created := Snapshot(row);
    }

    method ReplaceDraftVersion(id: int, steps: seq<Step>, extras: seq<ExtraRate>) returns (result: Result<Version>)
      modifies this
      ensures result.Ok? <==> ReplaceDraft(old(rows), id, steps, extras).Ok?
      ensures result.Ok? ==> Ok(rows) == ReplaceDraft(old(rows), id, steps, extras)
      ensures result.Ok? ==> result.value == MapVersion(id, steps, extras)
      ensures result.Err? ==> rows == old(rows) && result.error == ReplaceDraft(old(rows), id, steps, extras).error
    {
      var existing := FindIndex(HasId(id), rows);
      if existing.None? {
        return Err(PricingVersionNotFound);
      }
      var i := existing.value;
      if rows[i].status != Draft {
        return Err(PricingVersionImmutable);
      }
      rows := rows[i := rows[i].(steps := steps, extras := extras)];
      return Ok(Snapshot(rows[i]));
    }

    method ActivateVersion(id: int, at: int) returns (result: Result<Version>)
      modifies this
      ensures result.Ok? <==> Activate(old(rows), id, at).Ok?
      ensures result.Ok? ==> Ok(rows) == Activate(old(rows), id, at)
      ensures result.Ok? ==>
                var draft := old(rows)[FindIndex(HasId(id), old(rows)).value];
                draft.id == id && result.value == MapVersion(id, draft.steps, draft.extras)
      ensures result.Err? ==> rows == old(rows) && result.error == Activate(old(rows), id, at).error
    {
      var target := FindIndex(HasId(id), rows);
      if target.None? {
        return Err(PricingVersionNotFound);
      }
      var i := target.value;
      if rows[i].status != Draft {
        return Err(PricingVersionImmutable);
      }
      rows := Map(Archive, rows);
      rows := rows[i := rows[i].(status := Active, activatedAt := Some(at))];
      return Ok(Snapshot(rows[i]));
    }
  }

  // ---- runs of administrator calls and quotes ----

  datatype QuotedPrice = QuotedPrice(request: Request, pricing: Pricing)

  datatype State = State(rows: seq<StoredVersion>, quotes: seq<QuotedPrice>)

  datatype Call =
    | CreateCall(id: int, steps: seq<Step>, extras: seq<ExtraRate>)
    | ReplaceCall(id: int, steps: seq<Step>, extras: seq<ExtraRate>)
    | ActivateCall(id: int, at: int)
    | QuoteCall(request: Request)

  const INITIAL := State([], [])

  function RowsOr(r: Result<seq<StoredVersion>>, rows: seq<StoredVersion>): seq<StoredVersion> {
    match r
    case Ok(changed) => changed
    case Err(_) => rows
  }

  function QuoteNow(rows: seq<StoredVersion>, request: Request): Result<Pricing> {
    var active :- FindActive(rows);
    Calculate(active, request)
  }

  /** One repository or quote call. A draft's generated id is new. */
  function Step(s: State, c: Call): State {
    match c
    case CreateCall(id, steps, extras) =>
      if FindIndex(HasId(id), s.rows).Some? then s else s.(rows := CreateDraft(s.rows, id, steps, extras))
    case ReplaceCall(id, steps, extras) => s.(rows := RowsOr(ReplaceDraft(s.rows, id, steps, extras), s.rows))
    case ActivateCall(id, at) => s.(rows := RowsOr(Activate(s.rows, id, at), s.rows))
    case QuoteCall(request) =>
      match QuoteNow(s.rows, request)
      case Ok(pricing) => s.(quotes := s.quotes + [QuotedPrice(request, pricing)])
      case Err(_) => s
  }

  function Run(s: State, calls: seq<Call>): State
    decreases |calls|
  {
    if calls == [] then s else Run(Step(s, calls[0]), calls[1..])
  }

  /** A version leaves DRAFT once, keeps its prices from then on, and never leaves ARCHIVED. */
  predicate Evolves(before: StoredVersion, after: StoredVersion) {
    && before.id == after.id
    && (before.status != Draft ==>
          after.status != Draft && after.steps == before.steps && after.extras == before.extras)
    && (before.status == Archived ==> after.status == Archived)
  }

  ghost predicate RowsEvolve(before: seq<StoredVersion>, after: seq<StoredVersion>) {
    |before| <= |after| && forall i :: 0 <= i < |before| ==> Evolves(before[i], after[i])
  }

  ghost predicate AtMostOneActive(rows: seq<StoredVersion>) {
    forall i, j :: 0 <= i < j < |rows| ==> !(rows[i].status == Active && rows[j].status == Active)
  }

  ghost predicate Reproducible(rows: seq<StoredVersion>, q: QuotedPrice) {
    exists i :: 0 <= i < |rows| && rows[i].id == q.pricing.versionId && rows[i].status != Draft
      && Calculate(Some(Snapshot(rows[i])), q.request) == Ok(q.pricing)
  }

  ghost predicate Valid(s: State) {
    && DistinctBy(IdOf, s.rows)
    && AtMostOneActive(s.rows)
    && forall q :: q in s.quotes ==> Reproducible(s.rows, q)
  }

  lemma StepRowsEvolve(s: State, c: Call)
    ensures RowsEvolve(s.rows, Step(s, c).rows)
  {
    match c
    case CreateCall(id, steps, extras) =>
    case ReplaceCall(id, steps, extras) => ReplaceEvolves(s.rows, id, steps, extras);
    case ActivateCall(id, at) => ActivateEvolves(s.rows, id, at);
    case QuoteCall(_) =>
  }

  lemma ReplaceEvolves(rows: seq<StoredVersion>, id: int, steps: seq<Step>, extras: seq<ExtraRate>)
    ensures RowsEvolve(rows, RowsOr(ReplaceDraft(rows, id, steps, extras), rows))
  {
  }

  lemma ActivateEvolves(rows: seq<StoredVersion>, id: int, at: int)
    ensures RowsEvolve(rows, RowsOr(Activate(rows, id, at), rows))
  {
  }

  lemma StepKeepsIds(s: State, c: Call)
    requires DistinctBy(IdOf, s.rows)
    ensures DistinctBy(IdOf, Step(s, c).rows)
  {
    StepRowsEvolve(s, c);
    if c.CreateCall? && FindIndex(HasId(c.id), s.rows).None? {
      var after := Step(s, c).rows;
      forall i, j | 0 <= i < j < |after| ensures IdOf(after[i]) != IdOf(after[j]) {
        if j < |s.rows| {
          assert Differ(IdOf)(s.rows[i], s.rows[j]);
          assert IdOf(s.rows[i]) != IdOf(s.rows[j]);
        } else {
          assert s.rows[i] in s.rows && !HasId(c.id)(s.rows[i]);
        }
      }
    } else {
      EvolutionKeepsIds(s.rows, Step(s, c).rows);
    }
  }

  lemma EvolutionKeepsIds(before: seq<StoredVersion>, after: seq<StoredVersion>)
    requires DistinctBy(IdOf, before) && RowsEvolve(before, after) && |before| == |after|
    ensures DistinctBy(IdOf, after)
  {
    forall i, j | 0 <= i < j < |after| ensures IdOf(after[i]) != IdOf(after[j]) {
      assert Evolves(before[i], after[i]) && Evolves(before[j], after[j]);
      assert Differ(IdOf)(before[i], before[j]);
      assert IdOf(before[i]) != IdOf(before[j]);
    }
  }

  lemma StepKeepsOneActive(s: State, c: Call)
    requires AtMostOneActive(s.rows)
    ensures AtMostOneActive(Step(s, c).rows)
  {
  }

  lemma EvolutionKeepsQuote(before: seq<StoredVersion>, after: seq<StoredVersion>, q: QuotedPrice)
    requires RowsEvolve(before, after) && Reproducible(before, q)
    ensures Reproducible(after, q)
  {
    var i :| 0 <= i < |before| && before[i].id == q.pricing.versionId && before[i].status != Draft
      && Calculate(Some(Snapshot(before[i])), q.request) == Ok(q.pricing);
    assert Evolves(before[i], after[i]);
    assert Snapshot(after[i]) == Snapshot(before[i]);
  }

  lemma NewQuoteReproducible(rows: seq<StoredVersion>, request: Request)
    requires QuoteNow(rows, request).Ok?
    ensures Reproducible(rows, QuotedPrice(request, QuoteNow(rows, request).value))
  {
    var active := Filter(IsActive, rows);
    assert |active| == 1;
    assert active[0] in active;
    var i :| 0 <= i < |rows| && rows[i] == active[0];
    CalculatedVersion(Some(Snapshot(rows[i])), request);
  }

  lemma CalculatedVersion(active: Option<Version>, request: Request)
    requires Calculate(active, request).Ok?
    ensures active.Some? && Calculate(active, request).value.versionId == active.value.id
  {
  }

  lemma StepKeepsValid(s: State, c: Call)
    requires Valid(s)
    ensures Valid(Step(s, c))
  {
    StepRowsEvolve(s, c);
    StepKeepsIds(s, c);
    StepKeepsOneActive(s, c);
    var after := Step(s, c);
    forall q | q in after.quotes ensures Reproducible(after.rows, q) {
      if q in s.quotes {
        EvolutionKeepsQuote(s.rows, after.rows, q);
      } else {
        NewQuoteReproducible(s.rows, c.request);
      }
    }
  }

  /**
   * Over every run: at most one version is ACTIVE, versions only move DRAFT -> ACTIVE -> ARCHIVED with
   * frozen prices, and every past quote is reproduced by the version it names.
   */
  lemma {:induction false} RunKeepsValid(s: State, calls: seq<Call>)
    requires Valid(s)
    ensures Valid(Run(s, calls)) && RowsEvolve(s.rows, Run(s, calls).rows)
    ensures s.quotes <= Run(s, calls).quotes
    decreases |calls|
  {
    if calls != [] {
      var next := Step(s, calls[0]);
      StepKeepsValid(s, calls[0]);
      StepRowsEvolve(s, calls[0]);
      RunKeepsValid(next, calls[1..]);
      var last := Run(s, calls);
      forall i | 0 <= i < |s.rows| ensures Evolves(s.rows[i], last.rows[i]) {
        assert Evolves(s.rows[i], next.rows[i]) && Evolves(next.rows[i], last.rows[i]);
      }
    }
  }

  /** From an empty store, the active version lookup never reports a conflict. */
  lemma NeverConflicts(calls: seq<Call>)
    ensures Valid(Run(INITIAL, calls))
    ensures FindActive(Run(INITIAL, calls).rows).Ok?
  {
    RunKeepsValid(INITIAL, calls);
    var rows := Run(INITIAL, calls).rows;
    ActiveFilter(rows);
  }

  lemma {:induction false} ActiveFilter(rows: seq<StoredVersion>)
    requires AtMostOneActive(rows)
    ensures |Filter(IsActive, rows)| <= 1
  {
    if rows != [] {
      var rest := rows[1..];
      assert forall k :: 0 <= k < |rest| ==> rest[k] == rows[k + 1];
      ActiveFilter(rest);
      if IsActive(rows[0]) {
        forall v | v in rest ensures !IsActive(v) {
          var k :| 0 <= k < |rest| && rest[k] == v;
          assert rows[k + 1] == v;
        }
        FilterNone(IsActive, rest);
      }
    }
  }
}
