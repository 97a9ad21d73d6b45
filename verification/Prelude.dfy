/** Success or failure of an operation, and the errors the modelled code throws. */
module Outcomes {
  datatype Option<+T> = None | Some(value: T)

  datatype DomainError =
    | InvalidMoney
    | UnsupportedPricingService
    | PricingVersionNotActive
    | PricingVersionConflict
    | PricingVersionNotFound
    | PricingVersionImmutable
    | PricingVersionIncomplete
    | RankNotPriced
    | RankProgressionInvalid
    | CouponDiscountInvalid
    | PaymentAmountInvalid
    | PaymentHoldReleaseNotAllowed
    | PaymentInvalidTransition
    | WalletInvalidAmount
    | WalletInsufficientBalance
    | OrderInvalidTransition
    | OrderCancellationNotAllowed
    | OrderCredentialsNotAllowed
    | ChatMessageNotFound

  datatype Result<+T> = Ok(value: T) | Err(error: DomainError) {
    predicate IsFailure() { Err? }

    function PropagateFailure<U>(): Result<U>
      requires Err?
    {
      Err(error)
    }

    function Extract(): T
      requires Ok?
    {
      value
    }
  }
}

/** Maps, filters, sums and stable sorting of sequences, and what reordering does to them. */
module Sequences {
  import opened Outcomes

  function Map<T, U>(f: T -> U, s: seq<T>): (r: seq<U>)
    ensures |r| == |s|
    ensures forall i :: 0 <= i < |s| ==> r[i] == f(s[i])
  {
    if s == [] then [] else [f(s[0])] + Map(f, s[1..])
  }

  function Filter<T>(p: T -> bool, s: seq<T>): (r: seq<T>)
    ensures |r| <= |s|
    ensures forall x :: x in r ==> x in s && p(x)
    ensures forall x :: x in s && p(x) ==> x in r
  {
    if s == [] then []
    else if p(s[0]) then [s[0]] + Filter(p, s[1..])
    else Filter(p, s[1..])
  }

  function Sum<T>(f: T -> int, s: seq<T>): int {
    if s == [] then 0 else f(s[0]) + Sum(f, s[1..])
  }

  /** Index of the first element with property `p`. */
  function FindIndex<T>(p: T -> bool, s: seq<T>): (r: Option<nat>)
    ensures r.Some? ==> r.value < |s| && p(s[r.value]) && forall i :: 0 <= i < r.value ==> !p(s[i])
    ensures r.None? ==> forall x :: x in s ==> !p(x)
  {
    if s == [] then None
    else if p(s[0]) then Some(0)
    else
      match FindIndex(p, s[1..])
      case None => None
      case Some(i) => Some(i + 1)
  }

  function Take<T>(n: nat, s: seq<T>): seq<T> {
    if |s| <= n then s else s[..n]
  }

  function Remove<T>(s: seq<T>, i: nat): seq<T>
    requires i < |s|
  {
    s[..i] + s[i + 1..]
  }

  lemma {:induction false} SumConcat<T>(f: T -> int, a: seq<T>, b: seq<T>)
    ensures Sum(f, a + b) == Sum(f, a) + Sum(f, b)
  {
    if a == [] {
      assert a + b == b;
    } else {
      assert (a + b)[1..] == a[1..] + b;
      SumConcat(f, a[1..], b);
    }
  }

  lemma {:induction false} MapConcat<T, U>(f: T -> U, a: seq<T>, b: seq<T>)
    ensures Map(f, a + b) == Map(f, a) + Map(f, b)
  {
    assert forall i :: 0 <= i < |a + b| ==> Map(f, a + b)[i] == (Map(f, a) + Map(f, b))[i];
  }

  lemma {:induction false} FilterConcat<T>(p: T -> bool, a: seq<T>, b: seq<T>)
    ensures Filter(p, a + b) == Filter(p, a) + Filter(p, b)
  {
    if a == [] {
      assert a + b == b;
    } else {
      assert (a + b)[1..] == a[1..] + b;
      FilterConcat(p, a[1..], b);
    }
  }

  lemma {:induction false} FilterNone<T>(p: T -> bool, s: seq<T>)
    requires forall x :: x in s ==> !p(x)
    ensures Filter(p, s) == []
  {
    if s != [] {
      FilterNone(p, s[1..]);
    }
  }

  lemma {:induction false} FilterAll<T>(p: T -> bool, s: seq<T>)
    requires forall x :: x in s ==> p(x)
    ensures Filter(p, s) == s
  {
    if s != [] {
      FilterAll(p, s[1..]);
    }
  }

  lemma FilterMiddle<T>(p: T -> bool, a: seq<T>, x: T, b: seq<T>)
    requires !p(x) && forall y :: y in a || y in b ==> p(y)
    ensures Filter(p, a + [x] + b) == a + b
  {
    FilterNone(p, [x]);
    FilterConcat(p, a + [x], b);
    FilterConcat(p, a, [x]);
    FilterAll(p, a);
    FilterAll(p, b);
    assert a + [] == a;
  }

  function Reverse<T>(s: seq<T>): (r: seq<T>)
    ensures |r| == |s|
    ensures forall i :: 0 <= i < |s| ==> r[i] == s[|s| - 1 - i]
  {
    if s == [] then [] else Reverse(s[1..]) + [s[0]]
  }

  lemma {:induction false} ReverseConcat<T>(a: seq<T>, b: seq<T>)
    ensures Reverse(a + b) == Reverse(b) + Reverse(a)
  {
    if a == [] {
      assert a + b == b;
    } else {
      assert (a + b)[1..] == a[1..] + b;
      ReverseConcat(a[1..], b);
    }
  }

  lemma {:induction false} ReverseMembers<T>(s: seq<T>)
    ensures multiset(Reverse(s)) == multiset(s)
  {
    if s != [] {
      ReverseMembers(s[1..]);
      assert s == [s[0]] + s[1..];
    }
  }

  lemma {:induction false} SumNonNegative<T>(f: T -> int, s: seq<T>)
    requires forall x :: x in s ==> f(x) >= 0
    ensures Sum(f, s) >= 0
  {
    if s != [] {
      SumNonNegative(f, s[1..]);
    }
  }

  /** A non-negative sum is at least each of its terms. */
  lemma TailMembers<T>(s: seq<T>)
    requires s != []
    ensures s == [s[0]] + s[1..]
    ensures multiset(s[1..]) == multiset(s) - multiset{s[0]}
    ensures forall x :: x in s[1..] ==> x in s
  {
    assert s == [s[0]] + s[1..];
  }

  /** The first element of one list can be taken out of any reordering of it. */
  lemma MatchHead<T>(a: seq<T>, b: seq<T>) returns (i: nat)
    requires a != [] && multiset(a) == multiset(b)
    ensures i < |b| && b[i] == a[0]
    ensures b == b[..i] + [a[0]] + b[i + 1..]
    ensures multiset(a[1..]) == multiset(Remove(b, i))
  {
    assert a[0] in multiset(b);
    i :| 0 <= i < |b| && b[i] == a[0];
    assert a == [a[0]] + a[1..];
    assert b == b[..i] + [b[i]] + b[i + 1..];
    assert multiset(a[1..]) == multiset(a) - multiset{a[0]};
    assert multiset(Remove(b, i)) == multiset(b) - multiset{a[0]};
  }

  lemma {:induction false} SumPermutation<T>(f: T -> int, a: seq<T>, b: seq<T>)
    requires multiset(a) == multiset(b)
    ensures Sum(f, a) == Sum(f, b)
  {
    if a == [] {
      assert |multiset(b)| == 0;
      assert b == [];
    } else {
      var i := MatchHead(a, b);
      SumPermutation(f, a[1..], Remove(b, i));
      SumConcat(f, b[..i] + [a[0]], b[i + 1..]);
      SumConcat(f, b[..i], [a[0]]);
      SumConcat(f, b[..i], b[i + 1..]);
    }
  }

  lemma {:induction false} MapPermutation<T, U>(f: T -> U, a: seq<T>, b: seq<T>)
    requires multiset(a) == multiset(b)
    ensures multiset(Map(f, a)) == multiset(Map(f, b))
  {
    if a == [] {
      assert |multiset(b)| == 0;
      assert b == [];
    } else {
      var i := MatchHead(a, b);
      MapPermutation(f, a[1..], Remove(b, i));
      MapConcat(f, b[..i] + [a[0]], b[i + 1..]);
      MapConcat(f, b[..i], [a[0]]);
      MapConcat(f, b[..i], b[i + 1..]);
    }
  }

  lemma {:induction false} FilterPermutation<T>(p: T -> bool, a: seq<T>, b: seq<T>)
    requires multiset(a) == multiset(b)
    ensures multiset(Filter(p, a)) == multiset(Filter(p, b))
  {
    if a == [] {
      assert |multiset(b)| == 0;
      assert b == [];
    } else {
      var i := MatchHead(a, b);
      FilterPermutation(p, a[1..], Remove(b, i));
      FilterConcat(p, b[..i] + [a[0]], b[i + 1..]);
      FilterConcat(p, b[..i], [a[0]]);
      FilterConcat(p, b[..i], b[i + 1..]);
    }
  }

  lemma SameMembers<T>(a: seq<T>, b: seq<T>)
    requires multiset(a) == multiset(b)
    ensures |a| == |b|
    ensures forall x :: x in a <==> x in b
  {
    assert |multiset(a)| == |a| && |multiset(b)| == |b|;
    forall x ensures x in a <==> x in b {
      assert x in a <==> x in multiset(a);
      assert x in b <==> x in multiset(b);
    }
  }

  // ---- stable sorting by a total preorder ----

  ghost predicate TotalPreorder<T(!new)>(le: (T, T) -> bool) {
    && (forall x, y :: le(x, y) || le(y, x))
    && (forall x, y, z :: le(x, y) && le(y, z) ==> le(x, z))
  }

  ghost predicate Sorted<T>(le: (T, T) -> bool, s: seq<T>) {
    forall i, j :: 0 <= i < j < |s| ==> le(s[i], s[j])
  }

  /** Elements with different keys. */
  ghost function Differ<T, K>(key: T -> K): (T, T) -> bool {
    (x, y) => key(x) != key(y)
  }

  /** The elements of `s` have pairwise different keys. */
  ghost predicate DistinctBy<T, K>(key: T -> K, s: seq<T>) {
    Sorted(Differ(key), s)
  }

  lemma {:induction false} DistinctPermutation<T, K>(key: T -> K, a: seq<T>, b: seq<T>)
    requires multiset(a) == multiset(b)
    requires DistinctBy(key, a)
    ensures DistinctBy(key, b)
  {
    if b != [] {
      var i := MatchHead(b, a);
      var rest := Remove(a, i);
      assert forall k :: 0 <= k < |rest| ==> rest[k] == a[if k < i then k else k + 1];
      DistinctPermutation(key, rest, b[1..]);
      SameMembers(rest, b[1..]);
      forall j | 1 <= j < |b| ensures key(b[0]) != key(b[j]) {
        assert b[j] == b[1..][j - 1];
        assert b[j] in rest;
        var k :| 0 <= k < |rest| && rest[k] == b[j];
        assert key(a[i]) != key(a[if k < i then k else k + 1]) by {
          if k < i {
            assert Differ(key)(a[k], a[i]);
          } else {
            assert Differ(key)(a[i], a[k + 1]);
          }
        }
      }
    }
  }

  /** Two members of a list with distinct keys are equal when their keys are. */
  lemma DistinctMembers<T, K>(key: T -> K, s: seq<T>, x: T, y: T)
    requires DistinctBy(key, s)
    requires x in s && y in s && key(x) == key(y)
    ensures x == y
  {
    var i :| 0 <= i < |s| && s[i] == x;
    var j :| 0 <= j < |s| && s[j] == y;
  }

  lemma DistinctMiddle<T, K>(key: T -> K, a: seq<T>, x: T, b: seq<T>)
    requires DistinctBy(key, a + [x] + b)
    ensures forall y :: y in a || y in b ==> key(y) != key(x)
  {
    var s := a + [x] + b;
    assert s[|a|] == x;
    forall i | 0 <= i < |a| ensures key(a[i]) != key(x) {
      assert s[i] == a[i] && Differ(key)(s[i], s[|a|]);
    }
    forall i | 0 <= i < |b| ensures key(b[i]) != key(x) {
      assert s[|a| + 1 + i] == b[i] && Differ(key)(s[|a|], s[|a| + 1 + i]);
    }
  }

  lemma DistinctIndices<T, K>(key: T -> K, s: seq<T>, i: nat, j: nat)
    requires DistinctBy(key, s) && i < |s| && j < |s| && key(s[i]) == key(s[j])
    ensures i == j
  {
  }

  /** Filtering keeps every relation between earlier and later elements. */
  lemma {:induction false} FilterSorted<T>(p: T -> bool, le: (T, T) -> bool, s: seq<T>)
    requires Sorted(le, s)
    ensures Sorted(le, Filter(p, s))
  {
    if s != [] {
      FilterSorted(p, le, s[1..]);
      var rest := Filter(p, s[1..]);
      forall j | 0 <= j < |rest| ensures le(s[0], rest[j]) {
        assert rest[j] in s[1..];
        var k :| 0 <= k < |s[1..]| && s[1..][k] == rest[j];
        assert le(s[0], s[k + 1]);
      }
    }
  }

  function Insert<T>(le: (T, T) -> bool, x: T, s: seq<T>): seq<T> {
    if s == [] || le(x, s[0]) then [x] + s else [s[0]] + Insert(le, x, s[1..])
  }

  lemma {:induction false} InsertMembers<T>(le: (T, T) -> bool, x: T, s: seq<T>)
    ensures multiset(Insert(le, x, s)) == multiset(s) + multiset{x}
    ensures |Insert(le, x, s)| == |s| + 1
  {
    if s != [] && !le(x, s[0]) {
      InsertMembers(le, x, s[1..]);
      assert s == [s[0]] + s[1..];
    }
  }

  /** The stable sort of a list: an element goes before the ones it ties with if it came first. */
  function Sort<T>(le: (T, T) -> bool, s: seq<T>): (r: seq<T>)
    ensures multiset(r) == multiset(s)
  {
    if s == [] then []
    else
      assert s == [s[0]] + s[1..];
      InsertMembers(le, s[0], Sort(le, s[1..]));
      Insert(le, s[0], Sort(le, s[1..]))
  }

  /** Insertion puts the element just before the first one it comes before. */
  lemma {:induction false} InsertAt<T>(le: (T, T) -> bool, x: T, s: seq<T>, p: nat)
    requires p <= |s|
    requires forall i :: 0 <= i < p ==> !le(x, s[i])
    requires p < |s| ==> le(x, s[p])
    ensures Insert(le, x, s) == s[..p] + [x] + s[p..]
  {
    if p > 0 {
      InsertAt(le, x, s[1..], p - 1);
      assert s[..p] == [s[0]] + s[1..][..p - 1] && s[p..] == s[1..][p - 1..];
    }
  }

  /** Where insertion puts an element. */
  function Place<T>(le: (T, T) -> bool, x: T, s: seq<T>): (p: nat)
    ensures p <= |s|
    ensures forall i :: 0 <= i < p ==> !le(x, s[i])
    ensures p < |s| ==> le(x, s[p])
  {
    if s == [] || le(x, s[0]) then 0 else Place(le, x, s[1..]) + 1
  }

  /** The first `k` of an insertion only depend on the first `k` before it. */
  lemma {:induction false} InsertTake<T>(le: (T, T) -> bool, x: T, s: seq<T>, k: nat)
    ensures Take(k, Insert(le, x, s)) == Take(k, Insert(le, x, Take(k, s)))
  {
    if k > 0 && s != [] && !le(x, s[0]) {
      InsertTake(le, x, s[1..], k - 1);
      TakeStep(k, s[0], s[1..]);
      TakeStep(k, s[0], Insert(le, x, s[1..]));
      TakeStep(k, s[0], Insert(le, x, Take(k - 1, s[1..])));
      assert s == [s[0]] + s[1..];
    }
  }

  lemma TakeStep<T>(k: nat, x: T, s: seq<T>)
    requires k > 0
    ensures Take(k, [x] + s) == [x] + Take(k - 1, s)
  {
  }

  /** Inserting above the head of `t` leaves `t` alone. */
  lemma {:induction false} InsertAbove<T>(le: (T, T) -> bool, x: T, s: seq<T>, t: seq<T>)
    requires t != [] && le(x, t[0])
    ensures Insert(le, x, s + t) == Insert(le, x, s) + t
  {
    if s == [] {
      assert s + t == t;
    } else {
      assert (s + t)[1..] == s[1..] + t;
      InsertAbove(le, x, s[1..], t);
    }
  }

  lemma {:induction false} InsertKeepsSorted<T(!new)>(le: (T, T) -> bool, x: T, s: seq<T>)
    requires TotalPreorder(le) && Sorted(le, s)
    ensures Sorted(le, Insert(le, x, s))
  {
    if s != [] && !le(x, s[0]) {
      InsertKeepsSorted(le, x, s[1..]);
      InsertMembers(le, x, s[1..]);
      var rest := Insert(le, x, s[1..]);
      forall y | y in rest ensures le(s[0], y) {
        assert y in multiset(rest);
        assert y == x || y in s[1..];
      }
    }
  }

  lemma {:induction false} SortSorts<T(!new)>(le: (T, T) -> bool, s: seq<T>)
    requires TotalPreorder(le)
    ensures Sorted(le, Sort(le, s))
  {
    if s != [] {
      SortSorts(le, s[1..]);
      InsertKeepsSorted(le, s[0], Sort(le, s[1..]));
    }
  }

  /** `le` tells the members of `s` apart. */
  ghost predicate Antisymmetric<T>(le: (T, T) -> bool, s: seq<T>) {
    forall x, y :: x in s && y in s && le(x, y) && le(y, x) ==> x == y
  }

  /** A list whose members the order tells apart has only one sorted arrangement. */
  lemma {:induction false} SortedUnique<T(!new)>(le: (T, T) -> bool, a: seq<T>, b: seq<T>)
    requires multiset(a) == multiset(b)
    requires Sorted(le, a) && Sorted(le, b) && Antisymmetric(le, a)
    requires forall x :: x in a ==> le(x, x)
    ensures a == b
  {
    SameMembers(a, b);
    if a != [] {
      assert b[0] in a && a[0] in b;
      assert le(a[0], b[0]) && le(b[0], a[0]);
      TailMembers(a);
      TailMembers(b);
      SortedUnique(le, a[1..], b[1..]);
    }
  }
}
