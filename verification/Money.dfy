/** Integer cents with the safe-integer guard of packages/shared/src/money/money.ts. */
module MoneyCents {
  import opened Outcomes

  /** `Number.MAX_SAFE_INTEGER`. */
  const MAX_SAFE: int := 9007199254740991

  predicate SafeInteger(n: int) {
    -MAX_SAFE <= n <= MAX_SAFE
  }

  /** Half away from zero, on exact rationals instead of binary floating point. */
  function Round(x: real): int {
    if x >= 0.0 then (x + 0.5).Floor else -((-x + 0.5).Floor)
  }

  function FromCents(cents: int): Result<int> {
    if SafeInteger(cents) then Ok(cents) else Err(InvalidMoney)
  }

  function FromDecimal(amount: real): Result<int> {
    FromCents(Round(amount * 100.0))
  }

  function Add(a: int, b: int): Result<int> {
    FromCents(a + b)
  }

  function Subtract(a: int, b: int): Result<int> {
    FromCents(a - b)
  }

  function Percentage(cents: int, rate: real): Result<int> {
    FromCents(Round(cents as real * rate))
  }

  function Min(a: int, b: int): int {
    if a <= b then a else b
  }

  function Max(a: int, b: int): int {
    if a >= b then a else b
  }

  /** The guard lets through what a double holds exactly, up to 2^53 - 1 either way. */
  lemma GuardIs(cents: int)
    ensures FromCents(cents) ==
            if -0x1F_FFFF_FFFF_FFFF <= cents <= 0x1F_FFFF_FFFF_FFFF then Ok(cents) else Err(InvalidMoney)
  {
  }

  /** Rounding moves a value by at most half a cent, exactly half a cent away from zero, and keeps the sign. */
  lemma RoundNearest(x: real)
    ensures -0.5 <= Round(x) as real - x <= 0.5
    ensures x > 0.0 ==> Round(x) as real - x > -0.5
    ensures x < 0.0 ==> Round(x) as real - x < 0.5
    ensures x >= 0.0 ==> Round(x) >= 0
    ensures x <= 0.0 ==> Round(x) <= 0
    ensures Round(-x) == -Round(x)
  {
    if x < 0.0 {
      assert (-x + 0.5).Floor as real <= -x + 0.5;
    }
  }

  lemma RoundMonotone(x: real, y: real)
    requires x <= y
    ensures Round(x) <= Round(y)
  {
    RoundNearest(x);
    RoundNearest(y);
    if x >= 0.0 {
      assert x + 0.5 <= y + 0.5;
      assert (x + 0.5).Floor <= (y + 0.5).Floor;
    } else if y < 0.0 {
      assert (-y + 0.5).Floor <= (-x + 0.5).Floor;
    }
  }

  lemma RoundWhole(n: int)
    ensures Round(n as real) == n
  {
    RoundNearest(n as real);
  }

  lemma ScaleMonotone(a: real, x: real, y: real)
    requires a >= 0.0 && x <= y
    ensures a * x <= a * y
  {
  }

  lemma Distribute(a: real, x: real, y: real)
    ensures a * (x + y) == a * x + a * y
  {
  }

  /** A percentage is within half a cent of the exact product, and of its sign. */
  lemma PercentageNear(cents: int, rate: real)
    requires Percentage(cents, rate).Ok?
    ensures -0.5 <= Percentage(cents, rate).value as real - cents as real * rate <= 0.5
    ensures cents >= 0 && rate >= 0.0 ==> Percentage(cents, rate).value >= 0
  {
    RoundNearest(cents as real * rate);
    if cents >= 0 && rate >= 0.0 {
      ScaleMonotone(cents as real, 0.0, rate);
    }
  }

  lemma FractionBounds(a: real, x: real)
    requires a >= 0.0 && 0.0 <= x <= 1.0
    ensures 0.0 <= a * x
    ensures a * x <= a
  {
    ScaleMonotone(a, 0.0, x);
    ScaleMonotone(a, x, 1.0);
  }

  lemma PartRounds(cents: int, rate: real)
    requires 0 <= cents && 0.0 <= rate <= 1.0
    ensures 0 <= Round(cents as real * rate) <= cents
  {
    var x := cents as real * rate;
    assert 0.0 <= x <= cents as real by { FractionBounds(cents as real, rate); }
    RoundWithin(x, cents);
  }

  /** A part of an amount is never refused, and never more than the amount. */
  lemma PartOfAmount(cents: int, rate: real)
    requires 0 <= cents <= MAX_SAFE && 0.0 <= rate <= 1.0
    ensures Percentage(cents, rate).Ok? && 0 <= Percentage(cents, rate).value <= cents
  {
    PartRounds(cents, rate);
  }

  lemma RoundWithin(x: real, n: int)
    requires 0.0 <= x <= n as real
    ensures 0 <= Round(x) <= n
  {
    RoundMonotone(x, n as real);
    RoundWhole(n);
  }
}
