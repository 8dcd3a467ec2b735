/**
 * Discounts as a percentage and as an amount (apps/api/src/lib/discount.ts), in
 * exact integers: money in cents, percentages in 1/10,000 of a percent.
 */
module Discounts {
  import opened Rounding

  datatype DiscountType = Normal | Merchant | Special
  datatype DiscountMode = Percentage | Amount

  datatype DiscountFields =
    DiscountFields(discountType: DiscountType, discountMode: DiscountMode, discountPct: int, discountAmount: int)

  datatype LineItem = LineItem(unitPrice: int, quantity: int) {
    function Value(): int {
      unitPrice * quantity
    }
  }

  datatype Result<+T> = Ok(value: T) | ValidationError(discountAmount: int, lineValue: int) | ExceedsLimit

  /** One hundred percent. */
  const WHOLE: int := 1000000

  /** a/b rounded to the nearest integer, halves upwards, as Math.round does. */
  function RoundHalfUp(a: int, b: int): int
    requires b != 0
  {
    if b < 0 then (-2 * a - b) / (-2 * b) else (2 * a + b) / (2 * b)
  }

  function AmountFromPct(lineValue: int, pct: int): int {
    RoundHalfUp(lineValue * pct, WHOLE)
  }

  function Clamp(x: int): int {
    if x < 0 then 0 else if x > WHOLE then WHOLE else x
  }

  function PctFromAmount(lineValue: int, amount: int): int {
    if lineValue == 0 then 0 else Clamp(RoundHalfUp(amount * WHOLE, lineValue))
  }

  function ResolveDiscountFields(item: LineItem, mode: DiscountMode, value: int, discountType: DiscountType)
    : Result<DiscountFields>
  {
    var lineValue := item.Value();
    var pct := match mode
               case Percentage => Clamp(value)
               case Amount => PctFromAmount(lineValue, if value < 0 then 0 else value);
    var amount := match mode
                  case Percentage => AmountFromPct(lineValue, pct)
                  case Amount => if value < 0 then 0 else value;
    // The tolerance is a tenth of a cent.
    if 10 * amount > 10 * lineValue + 1 then ValidationError(amount, lineValue)
    else Ok(DiscountFields(discountType, mode, pct, amount))
  }

  function EnforceDiscountCap(pct: int, maxPct: int): Result<()> {
    if pct > maxPct then ExceedsLimit else Ok(())
  }

  // ── Scaling and scaling back ──────────────────────────────────────────────

  /** `x` out of `d` expressed out of `n`. */
  function Scale(x: int, n: int, d: int): int
    requires d > 0
  {
    RoundHalfUp(x * n, d)
  }

  lemma RoundHalfUpIs(a: int, b: int, q: int)
    requires b > 0
    ensures q == RoundHalfUp(a, b) <==> 2 * (q * b) <= 2 * a + b < 2 * (q * b) + 2 * b
  {
    var r := (2 * a + b) / (2 * b);
    assert r * (2 * b) <= 2 * a + b < r * (2 * b) + 2 * b;
    assert r * (2 * b) == 2 * (r * b);
    if q < r {
      MulApart(q, r, b);
    } else if r < q {
      MulApart(r, q, b);
    }
  }

  lemma ScaleLossless(x: int, n: int, d: int)
    requires 0 < d <= n
    ensures Scale(Scale(x, n, d), d, n) == x
  {
    hide RoundHalfUp;
    var p := Scale(x, n, d);
    RoundHalfUpIs(x * n, d, p);
    if d == n {
      RoundHalfUpIs(x * n, d, x);
    }
    RoundHalfUpIs(p * d, n, x);
  }

  lemma ScaleMonotone(x: int, y: int, n: int, d: int)
    requires d > 0 && n > 0 && x <= y
    ensures Scale(x, n, d) <= Scale(y, n, d)
  {
    hide RoundHalfUp;
    var p, q := Scale(x, n, d), Scale(y, n, d);
    RoundHalfUpIs(x * n, d, p);
    RoundHalfUpIs(y * n, d, q);
    MulOrder(x, y, n);
    if q < p {
      MulApart(q, p, d);
    }
  }

  lemma ScaleEnds(n: int, d: int)
    requires d > 0
    ensures Scale(0, n, d) == 0 && Scale(d, n, d) == n
  {
    hide RoundHalfUp;
    RoundHalfUpIs(0 * n, d, 0);
    RoundHalfUpIs(d * n, d, n);
  }

  ghost predicate Lossless(n: int, d: int)
    requires n > 0 && d > 0
  {
    forall x :: 0 <= x <= d ==> Scale(Scale(x, n, d), d, n) == x
  }

  /** Without loss, different values stay different, so there is room for all of them. */
  lemma {:induction false} LosslessClimbs(x: int, n: int, d: int)
    requires n > 0 && d > 0 && Lossless(n, d) && 0 <= x <= d
    ensures Scale(x, n, d) >= x
  {
    hide RoundHalfUp, Scale;
    if x == 0 {
      ScaleEnds(n, d);
    } else {
      LosslessClimbs(x - 1, n, d);
      ScaleMonotone(x - 1, x, n, d);
      assert Scale(Scale(x, n, d), d, n) == x && Scale(Scale(x - 1, n, d), d, n) == x - 1;
    }
  }

  /** Scaling from d to n and back loses nothing exactly when d is at most n. */
  lemma LosslessIff(n: int, d: int)
    requires n > 0 && d > 0
    ensures Lossless(n, d) <==> d <= n
  {
    hide Scale;
    if d <= n {
      forall x | 0 <= x <= d
        ensures Scale(Scale(x, n, d), d, n) == x
      {
        ScaleLossless(x, n, d);
      }
    } else if Lossless(n, d) {
      LosslessClimbs(d, n, d);
      ScaleEnds(n, d);
    }
  }

  // ── Amounts and percentages ───────────────────────────────────────────────

  lemma PctInRange(lineValue: int, amount: int)
    requires lineValue > 0 && 0 <= amount <= lineValue
    ensures PctFromAmount(lineValue, amount) == Scale(amount, WHOLE, lineValue)
    ensures 0 <= PctFromAmount(lineValue, amount) <= WHOLE
  {
    hide RoundHalfUp;
    ScaleEnds(WHOLE, lineValue);
    ScaleMonotone(0, amount, WHOLE, lineValue);
    ScaleMonotone(amount, lineValue, WHOLE, lineValue);
  }

  lemma AmountInRange(lineValue: int, pct: int)
    requires lineValue > 0 && 0 <= pct <= WHOLE
    ensures AmountFromPct(lineValue, pct) == Scale(pct, lineValue, WHOLE)
    ensures 0 <= AmountFromPct(lineValue, pct) <= lineValue
  {
    hide RoundHalfUp;
    assert lineValue * pct == pct * lineValue;
    ScaleEnds(lineValue, WHOLE);
    ScaleMonotone(0, pct, lineValue, WHOLE);
    ScaleMonotone(pct, WHOLE, lineValue, WHOLE);
  }

  /** Every amount survives the way through a percentage exactly when the line is worth at most 10,000.00. */
  lemma AmountsSurvive(lineValue: int)
    requires lineValue > 0
    ensures (forall amount :: 0 <= amount <= lineValue ==>
               AmountFromPct(lineValue, PctFromAmount(lineValue, amount)) == amount)
            <==> lineValue <= 1000000
  {
    hide Scale, AmountFromPct, PctFromAmount;
    LosslessIff(WHOLE, lineValue);
    forall amount | 0 <= amount <= lineValue
      ensures AmountFromPct(lineValue, PctFromAmount(lineValue, amount))
           == Scale(Scale(amount, WHOLE, lineValue), lineValue, WHOLE)
    {
      PctInRange(lineValue, amount);
      AmountInRange(lineValue, PctFromAmount(lineValue, amount));
    }
  }

  /** Every percentage survives the way through an amount exactly when the line is worth at least 10,000.00. */
  lemma PercentagesSurvive(lineValue: int)
    requires lineValue > 0
    ensures (forall pct :: 0 <= pct <= WHOLE ==>
               PctFromAmount(lineValue, AmountFromPct(lineValue, pct)) == pct)
            <==> lineValue >= 1000000
  {
    hide Scale, AmountFromPct, PctFromAmount;
    LosslessIff(lineValue, WHOLE);
    forall pct | 0 <= pct <= WHOLE
      ensures PctFromAmount(lineValue, AmountFromPct(lineValue, pct))
           == Scale(Scale(pct, lineValue, WHOLE), WHOLE, lineValue)
    {
      AmountInRange(lineValue, pct);
      PctInRange(lineValue, AmountFromPct(lineValue, pct));
    }
  }

  /**
   * A discount is refused exactly when it is an amount above the value of the
   * line; both fields are in range otherwise. A line of negative value takes
   * none but a percentage so near the whole that it rounds to all of it.
   */
  lemma ResolveAccepts(item: LineItem, mode: DiscountMode, value: int, discountType: DiscountType)
    ensures var (r, lineValue) := (ResolveDiscountFields(item, mode, value, discountType), item.Value());
            && (r.Ok? <==>
                  if lineValue >= 0 then mode.Percentage? || value <= lineValue
                  else mode.Percentage? && 2 * (-lineValue * (WHOLE - Clamp(value))) < WHOLE)
            && (r.Ok? ==> 0 <= r.value.discountPct <= WHOLE)
            && (r.Ok? ==> if lineValue >= 0 then 0 <= r.value.discountAmount <= lineValue else r.value.discountAmount == lineValue)
  {
    hide AmountFromPct, PctFromAmount;
    var lineValue := item.Value();
    if lineValue < 0 {
      NegativeLine(lineValue, Clamp(value));
    } else if lineValue == 0 {
      NothingToDiscount(Clamp(value));
      NothingToDiscount(0);
    } else {
      AmountInRange(lineValue, Clamp(value));
      if 0 <= value <= lineValue {
        PctInRange(lineValue, value);
      }
      PctInRange(lineValue, 0);
    }
  }

  /** The one integer nearest to a/b, the upper one of two. */
  ghost predicate IsNearest(q: int, a: int, b: int) {
    forall x :: x == q <==> 2 * (x * b) <= 2 * a + b < 2 * (x * b) + 2 * b
  }

  lemma RoundedIsNearest(a: int, b: int)
    requires b > 0
    ensures IsNearest(RoundHalfUp(a, b), a, b)
  {
    forall x
      ensures x == RoundHalfUp(a, b) <==> 2 * (x * b) <= 2 * a + b < 2 * (x * b) + 2 * b
    {
      RoundHalfUpIs(a, b, x);
    }
  }

  /** A value below zero counts as none, and a percentage above the whole as the whole. */
  ghost predicate IsAsked(asked: int, value: int, mode: DiscountMode) {
    asked == if value < 0 then 0 else if mode.Percentage? && value > WHOLE then WHOLE else value
  }

  /**
   * What a discount resolves to: in its own mode what was asked for, and in the
   * other the nearest to it, a percentage of the line or an amount in cents. A
   * refusal names the amount and the line's value.
   */
  lemma ResolveGives(item: LineItem, mode: DiscountMode, value: int, discountType: DiscountType)
    ensures var lineValue := item.unitPrice * item.quantity;
            match ResolveDiscountFields(item, mode, value, discountType)
            case Ok(fields) =>
              && fields.discountType == discountType && fields.discountMode == mode
              && IsAsked(if mode.Percentage? then fields.discountPct else fields.discountAmount, value, mode)
              && (mode.Percentage? ==> IsNearest(fields.discountAmount, lineValue * fields.discountPct, WHOLE))
              && (mode.Amount? && lineValue > 0 ==> IsNearest(fields.discountPct, fields.discountAmount * WHOLE, lineValue))
              && (mode.Amount? && lineValue == 0 ==> fields.discountPct == fields.discountAmount == 0)
            case ValidationError(amount, refused) =>
              && refused == lineValue
              && (mode.Amount? ==> IsAsked(amount, value, mode))
              && (mode.Percentage? ==> exists pct :: IsAsked(pct, value, mode) && IsNearest(amount, lineValue * pct, WHOLE))
            case ExceedsLimit => false
  {
    hide RoundHalfUp, IsNearest;
    var lineValue := item.Value();
    ResolveAccepts(item, mode, value, discountType);
    match mode
    case Percentage =>
      assert IsAsked(Clamp(value), value, mode);
      RoundedIsNearest(lineValue * Clamp(value), WHOLE);
    case Amount =>
      var amount := if value < 0 then 0 else value;
      if 0 < lineValue && amount <= lineValue {
        PctInRange(lineValue, amount);
        RoundedIsNearest(amount * WHOLE, lineValue);
      }
  }

  /** The amount of a percentage of a negative value is never below it, and is it only near the whole. */
  lemma NegativeLine(lineValue: int, pct: int)
    requires lineValue < 0 && 0 <= pct <= WHOLE
    ensures AmountFromPct(lineValue, pct) >= lineValue
    ensures AmountFromPct(lineValue, pct) == lineValue <==> 2 * (-lineValue * (WHOLE - pct)) < WHOLE
  {
    hide RoundHalfUp;
    var missing := -lineValue * (WHOLE - pct);
    assert lineValue * pct == lineValue * WHOLE + missing;
    RoundHalfUpIs(lineValue * pct, WHOLE, lineValue);
    var amount := AmountFromPct(lineValue, pct);
    RoundHalfUpIs(lineValue * pct, WHOLE, amount);
    assert missing >= 0;
  }

  lemma NothingToDiscount(pct: int)
    ensures AmountFromPct(0, pct) == 0
    ensures PctFromAmount(0, 0) == 0
  {
    RoundHalfUpIs(0 * pct, WHOLE, 0);
  }

  /** Up to 10,000.00, an amount resolved to a percentage resolves back to the same discount. */
  lemma ResolveTwice(item: LineItem, value: int, discountType: DiscountType)
    requires 0 < item.Value() <= 1000000
    requires ResolveDiscountFields(item, Amount, value, discountType).Ok?
    ensures var fields := ResolveDiscountFields(item, Amount, value, discountType).value;
            ResolveDiscountFields(item, Percentage, fields.discountPct, discountType) ==
            Ok(fields.(discountMode := Percentage))
  {
    hide AmountFromPct, PctFromAmount;
    ResolveAccepts(item, Amount, value, discountType);
    AmountsSurvive(item.Value());
  }

  /** A cap on the percentage, in terms of the amount: rounding lets through less than half a unit more. */
  lemma CapOnAmounts(lineValue: int, amount: int, maxPct: int)
    requires lineValue > 0 && 0 <= amount <= lineValue
    ensures EnforceDiscountCap(PctFromAmount(lineValue, amount), maxPct).Ok? <==>
            2 * (amount * WHOLE) < (2 * maxPct + 1) * lineValue
  {
    hide RoundHalfUp, PctFromAmount;
    PctInRange(lineValue, amount);
    var p := PctFromAmount(lineValue, amount);
    RoundHalfUpIs(amount * WHOLE, lineValue, p);
    assert (2 * maxPct + 1) * lineValue == 2 * (maxPct * lineValue) + lineValue;
    if p < maxPct {
      MulApart(p, maxPct, lineValue);
    } else if p > maxPct {
      MulApart(maxPct, p, lineValue);
    }
  }
}
