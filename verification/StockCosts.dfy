/** Costs of stock that the amounts are used for (apps/api/src/modules/inventory/inventory.policy.ts). */
module StockCosts {
  import opened Rounding
  import opened MoneyAmounts
  import opened MoneyLaws

  /** The average cost after copies arrive; the received quantity is positive. */
  function AverageCostAfterReceipt(quantity: int, averageCost: Money, received: int, unitCost: Money): Outcome<Money>
    requires received > 0
  {
    if quantity <= 0 then Round(unitCost, 4)
    else
      match (Times(averageCost, Whole(quantity)), Times(unitCost, Whole(received)))
      case (Done(onHand), Done(arrived)) =>
        (match DividedBy(Money(onHand.units + arrived.units), Whole(quantity + received))
         case Done(average) => Round(average, 4)
         case RangeError => RangeError)
      case _ => RangeError
  }

  lemma RoundToFour(m: Money)
    ensures Round(m, 4) == Done(m)
  {
    hide DivRound;
    assert Decimals.Pow10(0) == 1;
    DivRoundExact(m.units, 1);
  }

  lemma AverageIs(quantity: int, averageCost: Money, received: int, unitCost: Money)
    requires received > 0
    ensures AverageCostAfterReceipt(quantity, averageCost, received, unitCost) ==
            Done(if quantity <= 0 then unitCost
                 else Money(DivRound(averageCost.units * quantity + unitCost.units * received, quantity + received)))
  {
    hide DivRound, Round;
    RoundToFour(unitCost);
    if quantity > 0 {
      WeightedAverageIs(quantity, averageCost, received, unitCost);
    }
  }

  lemma WeightedAverageIs(quantity: int, averageCost: Money, received: int, unitCost: Money)
    requires received > 0 && quantity > 0
    ensures AverageCostAfterReceipt(quantity, averageCost, received, unitCost) ==
            Done(Money(DivRound(averageCost.units * quantity + unitCost.units * received, quantity + received)))
  {
    hide DivRound, Round;
    TimesWhole(averageCost, averageCost, quantity);
    TimesWhole(unitCost, unitCost, received);
    var value := averageCost.units * quantity + unitCost.units * received;
    DivRoundScales(value, quantity + received, FACTOR);
    RoundToFour(Money(DivRound(value, quantity + received)));
  }

  /**
   * The average stays between the cost on hand and the cost that arrives, and
   * values the copies within half a ten-thousandth each of what they cost; an
   * empty shelf, or one below zero, takes the cost that arrives.
   */
  lemma AverageBetween(quantity: int, averageCost: Money, received: int, unitCost: Money)
    requires received > 0
    ensures var r := AverageCostAfterReceipt(quantity, averageCost, received, unitCost);
            && r.Done?
            && (averageCost.units <= unitCost.units ==> averageCost.units <= r.value.units <= unitCost.units)
            && (unitCost.units <= averageCost.units ==> unitCost.units <= r.value.units <= averageCost.units)
            && (if quantity <= 0 then r.value == unitCost
                else 2 * Abs(r.value.units * (quantity + received)
                             - (averageCost.units * quantity + unitCost.units * received)) <= quantity + received)
  {
    AverageIs(quantity, averageCost, received, unitCost);
    if quantity > 0 {
      WeightedBetweenCosts(quantity, averageCost, received, unitCost);
    }
  }

  lemma WeightedBetweenCosts(quantity: int, averageCost: Money, received: int, unitCost: Money)
    requires received > 0 && quantity > 0
    ensures var value := averageCost.units * quantity + unitCost.units * received;
            var units := DivRound(value, quantity + received);
            && (averageCost.units <= unitCost.units ==> averageCost.units <= units <= unitCost.units)
            && (unitCost.units <= averageCost.units ==> unitCost.units <= units <= averageCost.units)
            && 2 * Abs(units * (quantity + received) - value) <= quantity + received
  {
    hide DivRound;
    var a, c, n := averageCost.units, unitCost.units, quantity + received;
    var value := a * quantity + c * received;
    DivRoundError(value, n);
    WeightedBetween(a, quantity, c, received);
    DivRoundExact(a, n);
    DivRoundExact(c, n);
    if a <= c {
      DivRoundMonotone(a * n, value, n);
      DivRoundMonotone(value, c * n, n);
    } else {
      DivRoundMonotone(c * n, value, n);
      DivRoundMonotone(value, a * n, n);
    }
  }

  lemma WeightedBetween(a: int, p: int, c: int, q: int)
    requires p > 0 && q > 0
    ensures a <= c ==> a * (p + q) <= a * p + c * q <= c * (p + q)
    ensures c <= a ==> c * (p + q) <= a * p + c * q <= a * (p + q)
  {
    MulOrder(a, c, p);
    MulOrder(a, c, q);
    assert a * (p + q) == a * p + a * q && c * (p + q) == c * p + c * q;
  }

  // ── Damaged copies ────────────────────────────────────────────────────────

  /** A share, or a refusal: of more copies than are damaged, or of a quantity or a cost that is none. */
  datatype Taken = Share(worth: Outcome<Money>) | InsufficientStock | Invalid

  /** What `quantity` damaged copies are worth; the last ones take what is left. */
  function DamagedShare(damaged: int, damagedValue: Money, quantity: int): Taken
    requires quantity > 0
  {
    if quantity > damaged then InsufficientStock
    else if quantity == damaged then Share(Done(damagedValue))
    else
      match Times(damagedValue, Whole(quantity))
      case RangeError => Share(RangeError)
      case Done(part) =>
        match DividedBy(part, Whole(damaged))
        case RangeError => Share(RangeError)
        case Done(share) => Share(Round(share, 2))
  }

  /** A damaged value is kept in whole cents, and is nothing when no copy is left. */
  predicate DamagedValid(damaged: int, value: Money) {
    damaged >= 0 && value.units >= 0 && value.units % 100 == 0 && (damaged == 0 ==> value.units == 0)
  }

  lemma ShareIs(damaged: int, value: Money, quantity: int)
    requires 0 < quantity < damaged
    ensures DamagedShare(damaged, value, quantity) ==
            Share(Done(Money(DivRound(DivRound(value.units * quantity, damaged), 100) * 100)))
  {
    hide DivRound;
    TimesWhole(value, value, quantity);
    DivRoundScales(value.units * quantity, damaged, FACTOR);
    assert Decimals.Pow10(2) == 10 * Decimals.Pow10(1) == 100;
  }

  /**
   * A share is given whenever enough copies are damaged. It is a part of the
   * value in whole cents, so what stays behind is valid too.
   */
  lemma ShareKeepsValid(damaged: int, value: Money, quantity: int)
    requires DamagedValid(damaged, value) && quantity > 0
    ensures var taken := DamagedShare(damaged, value, quantity);
            && (taken.Share? <==> quantity <= damaged)
            && (taken.Share? ==>
                  && taken.worth.Done? && 0 <= taken.worth.value.units <= value.units
                  && DamagedValid(damaged - quantity, Money(value.units - taken.worth.value.units)))
  {
    hide DivRound;
    if quantity < damaged {
      ShareIs(damaged, value, quantity);
      var v := value.units;
      DivRoundExact(0, damaged);
      DivRoundExact(v, damaged);
      DivRoundExact(0, 100);
      DivRoundExact(v / 100, 100);
      assert 0 <= v * quantity <= v * damaged by {
        if v > 0 {
          MulOrder(quantity, damaged, v);
          MulSign(quantity, v);
        }
      }
      DivRoundMonotone(0, v * quantity, damaged);
      DivRoundMonotone(v * quantity, v * damaged, damaged);
      var part := DivRound(v * quantity, damaged);
      DivRoundMonotone(0, part, 100);
      DivRoundMonotone(part, v, 100);
    }
  }

  // ── Damaged copies coming and leaving ─────────────────────────────────────

  datatype Damaged = Damaged(copies: int, value: Money)

  /** Copies that come in at a cost, from a return or from the shelf, or leave: written off, repaired or sent back. */
  datatype Movement = Arrival(quantity: int, unitCost: Money) | Removal(quantity: int)

  /** What arriving copies are kept at, in whole cents. */
  function ArrivalValue(unitCost: Money, quantity: int): Outcome<Money> {
    match Times(unitCost, Whole(quantity))
    case RangeError => RangeError
    case Done(value) => Round(value, 2)
  }

  lemma ArrivalValueIs(unitCost: Money, quantity: int)
    requires unitCost.units >= 0 && quantity > 0
    ensures ArrivalValue(unitCost, quantity) == Done(Money(DivRound(unitCost.units * quantity, 100) * 100))
    ensures DivRound(unitCost.units * quantity, 100) >= 0
  {
    hide DivRound;
    TimesWhole(unitCost, unitCost, quantity);
    assert Decimals.Pow10(2) == 10 * Decimals.Pow10(1) == 100;
    MulOrder(0, unitCost.units, quantity);
    DivRoundExact(0, 100);
    DivRoundMonotone(0, unitCost.units * quantity, 100);
  }

  /** What a movement brings in or takes out, or a refusal. */
  function WorthOf(d: Damaged, m: Movement): Taken {
    if m.quantity <= 0 then Invalid
    else
      match m
      case Arrival(quantity, unitCost) =>
        if unitCost.units < 0 then Invalid else Share(ArrivalValue(unitCost, quantity))
      case Removal(quantity) => DamagedShare(d.copies, d.value, quantity)
  }

  /** The copies and the value a movement adds, negative for what leaves; nothing when it is refused. */
  function Flow(d: Damaged, m: Movement): Damaged {
    match WorthOf(d, m)
    case Share(Done(worth)) =>
      if m.Arrival? then Damaged(m.quantity, worth) else Damaged(-m.quantity, Money(-worth.units))
    case _ => Damaged(0, Money(0))
  }

  function Plus(d: Damaged, flow: Damaged): Damaged {
    Damaged(d.copies + flow.copies, Money(d.value.units + flow.value.units))
  }

  function AfterMovements(d: Damaged, ms: seq<Movement>): Damaged
    decreases |ms|
  {
    if ms == [] then d else AfterMovements(Plus(d, Flow(d, ms[0])), ms[1..])
  }

  /** What the accepted arrivals brought. */
  function CameIn(d: Damaged, ms: seq<Movement>): Damaged
    decreases |ms|
  {
    if ms == [] then Damaged(0, Money(0))
    else
      var rest := CameIn(Plus(d, Flow(d, ms[0])), ms[1..]);
      if ms[0].Arrival? then Plus(rest, Flow(d, ms[0])) else rest
  }

  /** What the accepted removals took. */
  function WentOut(d: Damaged, ms: seq<Movement>): Damaged
    decreases |ms|
  {
    if ms == [] then Damaged(0, Money(0))
    else
      var rest := WentOut(Plus(d, Flow(d, ms[0])), ms[1..]);
      var flow := Flow(d, ms[0]);
      if ms[0].Removal? then Plus(rest, Damaged(-flow.copies, Money(-flow.value.units))) else rest
  }

  predicate Stocked(d: Damaged) {
    DamagedValid(d.copies, d.value)
  }

  /** A movement is refused only for what it asks, and leaves a valid value. */
  lemma MovementKeepsValid(d: Damaged, m: Movement)
    requires Stocked(d)
    ensures Stocked(Plus(d, Flow(d, m)))
    ensures WorthOf(d, m).Share? <==>
            m.quantity > 0 && (if m.Arrival? then m.unitCost.units >= 0 else m.quantity <= d.copies)
    ensures WorthOf(d, m).Share? ==> WorthOf(d, m).worth.Done?
    ensures if m.Arrival? then Flow(d, m).copies >= 0 && Flow(d, m).value.units >= 0
            else Flow(d, m).copies <= 0 && Flow(d, m).value.units <= 0
  {
    hide ArrivalValue, DamagedShare, DivRound;
    if m.quantity > 0 {
      match m
      case Arrival(quantity, unitCost) =>
        if unitCost.units >= 0 {
          ArrivalValueIs(unitCost, quantity);
          MoreKept(d, quantity, DivRound(unitCost.units * quantity, 100));
        }
      case Removal(quantity) => ShareKeepsValid(d.copies, d.value, quantity);
    }
  }

  lemma MoreKept(d: Damaged, quantity: int, cents: int)
    requires Stocked(d) && quantity > 0 && cents >= 0
    ensures Stocked(Plus(d, Damaged(quantity, Money(cents * 100))))
  {
    assert (d.value.units + cents * 100) % 100 == 0;
  }

  /**
   * Whatever comes in and leaves, in any order, refused or not: the copies and
   * the value are what was there and came in, less what left, the value is
   * valid, and when no copy is left all that came in has left with them.
   */
  lemma {:induction false} DamagedValueConserved(d: Damaged, ms: seq<Movement>)
    requires Stocked(d)
    ensures var (end, came, left) := (AfterMovements(d, ms), CameIn(d, ms), WentOut(d, ms));
            && Stocked(end)
            && end.copies == d.copies + came.copies - left.copies
            && end.value.units == d.value.units + came.value.units - left.value.units
            && came.copies >= 0 && left.copies >= 0 && came.value.units >= 0 && left.value.units >= 0
            && (end.copies == 0 ==> left.value.units == d.value.units + came.value.units)
    decreases |ms|
  {
    hide WorthOf, Flow, DamagedValid, Stocked;
    if ms != [] {
      MovementKeepsValid(d, ms[0]);
      DamagedValueConserved(Plus(d, Flow(d, ms[0])), ms[1..]);
    }
    if AfterMovements(d, ms).copies == 0 {
      NothingKept(AfterMovements(d, ms));
    }
  }

  lemma NothingKept(d: Damaged)
    requires Stocked(d) && d.copies == 0
    ensures d.value.units == 0
  {
  }
}
