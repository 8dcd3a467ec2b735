/** What a note does to the shelves: at which cost copies leave and arrive, where, and that nothing else changes. */
module TransferStock {
  import opened MoneyAmounts
  import opened Transfers
  import opened TransferRuns
  import opened TransferValues
  import opened Options
  import Rounding
  import StockCosts
  import Text

  // ── Sending ───────────────────────────────────────────────────────────────

  /** The same shelves, of which only the copies for sale may be others. */
  ghost predicate OnlyCopiesDiffer(before: Shelves, after: Shelves) {
    && after.Keys == before.Keys
    && forall shelf :: shelf in before ==> after[shelf] == before[shelf].(quantity := after[shelf].quantity)
  }

  /** The copies of sent lines are off their shelves, and all others are where they were. */
  ghost predicate CopiesLeft(before: Shelves, after: Shelves, sent: seq<Line>, locationId: int) {
    && after.Keys == before.Keys
    && (forall j :: 0 <= j < |sent| ==>
          var shelf := Shelf(locationId, sent[j].bookId);
          shelf in before && after[shelf].quantity == before[shelf].quantity - sent[j].quantity)
    && (forall shelf :: shelf in before && (forall j :: 0 <= j < |sent| ==> shelf != Shelf(locationId, sent[j].bookId)) ==>
          after[shelf] == before[shelf])
  }

  /** A line as it was, or costed as a sent line of its id left. */
  ghost predicate CostedAs(before: Shelves, locationId: int, l: Line, l': Line, sent: seq<Line>) {
    || (l' == l && forall j :: 0 <= j < |sent| ==> sent[j].id != l.id)
    || exists j :: 0 <= j < |sent| && sent[j].id == l.id && Shelf(locationId, sent[j].bookId) in before
                   && l' == l.(unitCost := Some(before[Shelf(locationId, sent[j].bookId)].averageCost))
  }

  ghost predicate AllCostedAs(s: State, s': State, sent: seq<Line>) {
    && |s'.note.lines| == |s.note.lines|
    && forall i :: 0 <= i < |s.note.lines| ==>
         CostedAs(s.shelves, s.note.fromLocationId, s.note.lines[i], s'.note.lines[i], sent)
  }

  lemma SentOneMore(s: State, s1: State, l: Line, sent: seq<Line>)
    requires SendLine(s1, l).Ok? && l.quantity > 0 && s1.note.fromLocationId == s.note.fromLocationId
    requires OnlyCopiesDiffer(s.shelves, s1.shelves) && CopiesLeft(s.shelves, s1.shelves, sent, s.note.fromLocationId)
    requires forall j :: 0 <= j < |sent| ==> sent[j].bookId != l.bookId
    ensures var s' := SendLine(s1, l).value;
            OnlyCopiesDiffer(s.shelves, s'.shelves) && CopiesLeft(s.shelves, s'.shelves, sent + [l], s.note.fromLocationId)
  {
    var more, at := sent + [l], s.note.fromLocationId;
    var after := SendLine(s1, l).value.shelves;
    assert forall j :: 0 <= j < |sent| ==> more[j] == sent[j];
    assert more[|sent|] == l;
    forall shelf | shelf in s.shelves && forall j :: 0 <= j < |more| ==> shelf != Shelf(at, more[j].bookId)
      ensures after[shelf] == s.shelves[shelf]
    {
      assert forall j :: 0 <= j < |sent| ==> shelf != Shelf(at, more[j].bookId);
      assert shelf != Shelf(at, more[|sent|].bookId);
    }
  }

  lemma CostedOneMore(s: State, s1: State, l: Line, sent: seq<Line>)
    requires SendLine(s1, l).Ok? && l.quantity > 0 && s1.note.fromLocationId == s.note.fromLocationId
    requires OnlyCopiesDiffer(s.shelves, s1.shelves) && AllCostedAs(s, s1, sent)
    ensures AllCostedAs(s, SendLine(s1, l).value, sent + [l])
  {
    var more, at := sent + [l], s.note.fromLocationId;
    var s' := SendLine(s1, l).value;
    assert forall j :: 0 <= j < |sent| ==> more[j] == sent[j];
    assert more[|sent|] == l;
    forall i: nat | i < |s.note.lines|
      ensures CostedAs(s.shelves, at, s.note.lines[i], s'.note.lines[i], more)
    {
      var before, now := s.note.lines[i], s1.note.lines[i];
      assert CostedAs(s.shelves, at, before, now, sent);
      if l.id == now.id {
        assert more[|sent|].id == before.id;
      } else if now != before || exists j :: 0 <= j < |sent| && sent[j].id == before.id {
        var j :| 0 <= j < |sent| && sent[j].id == before.id && Shelf(at, sent[j].bookId) in s.shelves
                 && now == before.(unitCost := Some(s.shelves[Shelf(at, sent[j].bookId)].averageCost));
        assert more[j] == sent[j];
      }
    }
  }

  lemma {:induction false} SendsAtAverage(s: State, sent: seq<Line>)
    requires SendLines(s, sent).Ok? && DistinctLines(sent) && forall j :: 0 <= j < |sent| ==> sent[j].quantity > 0
    ensures var s' := SendLines(s, sent).value;
            && OnlyCopiesDiffer(s.shelves, s'.shelves)
            && CopiesLeft(s.shelves, s'.shelves, sent, s.note.fromLocationId)
            && AllCostedAs(s, s', sent)
            && s'.note.fromLocationId == s.note.fromLocationId
  {
    if sent != [] {
      var n := |sent| - 1;
      var first, l := sent[..n], sent[n];
      SendsAtAverage(s, first);
      hide OnlyCopiesDiffer, CopiesLeft, AllCostedAs;
      var s1 := SendLines(s, first).value;
      assert first + [l] == sent;
      SentOneMore(s, s1, l, first);
      CostedOneMore(s, s1, l, first);
    }
  }

  /** Every line is costed at the average its book has on the source shelf, and is otherwise as it was. */
  ghost predicate LeftAtAverage(s: State, lines: seq<Line>) {
    && |lines| == |s.note.lines|
    && forall k :: 0 <= k < |lines| ==>
         var shelf := Shelf(s.note.fromLocationId, s.note.lines[k].bookId);
         shelf in s.shelves && lines[k] == s.note.lines[k].(unitCost := Some(s.shelves[shelf].averageCost))
  }

  /**
   * A dispatch takes the copies of each line off the source shelf, at the average
   * the shelf has, and changes nothing else on any shelf: no average cost, no
   * damaged copies, no other book or location.
   */
  lemma DispatchedAtAverage(s: State, before: Shelves, actor: Actor)
    requires Valid(s, before) && Dispatch(s, actor).Ok?
    ensures var s' := Dispatch(s, actor).value;
            && LeftAtAverage(s, s'.note.lines)
            && OnlyCopiesDiffer(s.shelves, s'.shelves)
            && CopiesLeft(s.shelves, s'.shelves, s.note.lines, s.note.fromLocationId)
            && s'.note == s.note.(lines := s'.note.lines, status := InTransit)
            && s'.history == s.history + OutMovements(InBookOrder(s.note.lines), s.note.fromLocationId)
  {
    hide SendLines, OnlyCopiesDiffer, LinesMatchEvents, ShelvesMatch, NotSent, LinesSent, CostedAs, CopiesLeft;
    var lines, sorted := s.note.lines, InBookOrder(s.note.lines);
    SortedDistinct(lines, sorted);
    forall j | 0 <= j < |sorted|
      ensures sorted[j].quantity > 0
    {
      assert sorted[j] in lines;
    }
    SendsAtAverage(s, sorted);
    SendShape(s, sorted);
    var s' := SendLines(s, sorted).value;
    SortedLeft(s.shelves, s'.shelves, lines, sorted, s.note.fromLocationId);
    forall k: nat | k < |lines|
      ensures var shelf := Shelf(s.note.fromLocationId, lines[k].bookId);
              shelf in s.shelves && s'.note.lines[k] == lines[k].(unitCost := Some(s.shelves[shelf].averageCost))
    {
      assert lines[k] in sorted;
      CostedOnce(s, s'.note.lines[k], sorted, k);
    }
  }

  /** Which copies left does not depend on the order of the lines. */
  lemma SortedLeft(before: Shelves, after: Shelves, lines: seq<Line>, sorted: seq<Line>, locationId: int)
    requires CopiesLeft(before, after, sorted, locationId) && forall l :: l in sorted <==> l in lines
    ensures CopiesLeft(before, after, lines, locationId)
  {
    forall k: nat | k < |lines|
      ensures var shelf := Shelf(locationId, lines[k].bookId);
              shelf in before && after[shelf].quantity == before[shelf].quantity - lines[k].quantity
    {
      assert lines[k] in sorted;
      var j :| 0 <= j < |sorted| && sorted[j] == lines[k];
    }
    forall shelf | shelf in before && forall k :: 0 <= k < |lines| ==> shelf != Shelf(locationId, lines[k].bookId)
      ensures after[shelf] == before[shelf]
    {
      forall j | 0 <= j < |sorted|
        ensures shelf != Shelf(locationId, sorted[j].bookId)
      {
        assert sorted[j] in lines;
        var k :| 0 <= k < |lines| && lines[k] == sorted[j];
      }
    }
  }

  lemma CostedOnce(s: State, l': Line, sorted: seq<Line>, k: nat)
    requires LinesOk(s.note.lines) && k < |s.note.lines| && s.note.lines[k] in sorted
    requires forall l :: l in sorted <==> l in s.note.lines
    requires CostedAs(s.shelves, s.note.fromLocationId, s.note.lines[k], l', sorted)
    ensures var shelf := Shelf(s.note.fromLocationId, s.note.lines[k].bookId);
            shelf in s.shelves && l' == s.note.lines[k].(unitCost := Some(s.shelves[shelf].averageCost))
  {
    var lines, at := s.note.lines, s.note.fromLocationId;
    var own :| 0 <= own < |sorted| && sorted[own] == lines[k];
    var j :| 0 <= j < |sorted| && sorted[j].id == lines[k].id && Shelf(at, sorted[j].bookId) in s.shelves
             && l' == lines[k].(unitCost := Some(s.shelves[Shelf(at, sorted[j].bookId)].averageCost));
    assert sorted[j] in lines;
    var i :| 0 <= i < |lines| && lines[i] == sorted[j];
    assert i == k;
  }

  // ── Receiving ─────────────────────────────────────────────────────────────

  /**
   * Copies came onto a shelf at a cost: they are for sale, the average is the
   * weighted mean rounded to the nearest, or their cost on an empty shelf, and
   * damaged copies are as they were.
   */
  ghost predicate CameAt(level: Level, level': Level, quantity: int, unitCost: Money) {
    && level'.quantity == level.quantity + quantity
    && level'.damaged == level.damaged && level'.damagedValue == level.damagedValue
    && (if level.quantity <= 0 then level'.averageCost == unitCost
        else Rounding.Nearest(level.averageCost.units * level.quantity + unitCost.units * quantity,
                              level.quantity + quantity, level'.averageCost.units))
  }

  /** Damaged copies came in: counted apart, at their cost in whole cents; those for sale are as they were. */
  ghost predicate CameDamaged(level: Level, level': Level, quantity: int, unitCost: Money) {
    && level'.quantity == level.quantity && level'.averageCost == level.averageCost
    && level'.damaged == level.damaged + quantity
    && exists cents :: level'.damagedValue.units == level.damagedValue.units + cents * 100
                       && Rounding.Nearest(unitCost.units * quantity, 100, cents)
  }

  lemma ReceivedOnShelf(s: State, shelf: Shelf, quantity: int, unitCost: Money, reason: Reason)
    requires quantity > 0
    ensures var s' := ReceiveStock(s, shelf, quantity, unitCost, reason);
            && s'.note == s.note
            && CameAt(LevelAt(s.shelves, shelf), LevelAt(s'.shelves, shelf), quantity, unitCost)
            && (forall other :: other != shelf ==> LevelAt(s'.shelves, other) == LevelAt(s.shelves, other))
            && s'.history == s.history + [Movement(shelf.bookId, shelf.locationId, quantity, TransferIn, reason)]
  {
    hide StockCosts.AverageCostAfterReceipt, Rounding.DivRound, Rounding.Nearest;
    var level := LevelAt(s.shelves, shelf);
    StockCosts.AverageIs(level.quantity, level.averageCost, quantity, unitCost);
    if level.quantity > 0 {
      var value := level.averageCost.units * level.quantity + unitCost.units * quantity;
      Rounding.DivRoundIsNearest(value, level.quantity + quantity, Rounding.DivRound(value, level.quantity + quantity));
    }
  }

  lemma DamagedOnShelf(s: State, shelf: Shelf, quantity: int, unitCost: Money)
    ensures var s' := ReceiveDamaged(s, shelf, quantity, unitCost);
            && s'.note == s.note
            && CameDamaged(LevelAt(s.shelves, shelf), LevelAt(s'.shelves, shelf), quantity, unitCost)
            && (forall other :: other != shelf ==> LevelAt(s'.shelves, other) == LevelAt(s.shelves, other))
            && s'.history == s.history + [Movement(shelf.bookId, shelf.locationId, 0, StockIn, ForDamage)]
  {
    hide Rounding.DivRound, Rounding.Nearest;
    var value := unitCost.units * quantity;
    Rounding.DivRoundIsNearest(value, 100, Rounding.DivRound(value, 100));
  }

  /** The line an item names. */
  ghost function Named(s: State, item: Item): Line
    requires FindLine(s.note.lines, item.lineId) < |s.note.lines|
  {
    s.note.lines[FindLine(s.note.lines, item.lineId)]
  }

  ghost predicate AllNamed(s: State, items: seq<Item>) {
    forall i :: 0 <= i < |items| ==> FindLine(s.note.lines, items[i].lineId) < |s.note.lines|
  }

  ghost predicate NoneOf(s: State, locationId: int, items: seq<Item>, shelf: Shelf)
    requires AllNamed(s, items)
  {
    forall i :: 0 <= i < |items| ==> shelf != Shelf(locationId, Named(s, items[i]).bookId)
  }

  ghost predicate ItemCame(s: State, s': State, locationId: int, item: Item)
    requires FindLine(s.note.lines, item.lineId) < |s.note.lines|
  {
    var shelf := Shelf(locationId, Named(s, item).bookId);
    CameAt(LevelAt(s.shelves, shelf), LevelAt(s'.shelves, shelf), item.quantity, CostOf(Named(s, item)))
  }

  /** What a receipt writes for an item: an event of the line, and a movement onto the shelf. */
  ghost predicate ItemWritten(s: State, e: Event, m: Movement, locationId: int, item: Item)
    requires FindLine(s.note.lines, item.lineId) < |s.note.lines|
  {
    && e == Event(item.lineId, Arrived, item.quantity, Some(locationId))
    && m == Movement(Named(s, item).bookId, locationId, item.quantity, TransferIn, ForTransferIn)
  }

  /** The items on their shelves, other shelves as they were, and one event and one movement for each item in turn. */
  ghost predicate ItemsCame(s: State, s': State, locationId: int, items: seq<Item>) {
    && AllNamed(s, items)
    && (forall i :: 0 <= i < |items| ==> ItemCame(s, s', locationId, items[i]))
    && (forall shelf :: NoneOf(s, locationId, items, shelf) ==> LevelAt(s'.shelves, shelf) == LevelAt(s.shelves, shelf))
    && |s'.note.events| == |s.note.events| + |items| && s'.note.events[..|s.note.events|] == s.note.events
    && |s'.history| == |s.history| + |items| && s'.history[..|s.history|] == s.history
    && (forall i :: 0 <= i < |items| ==>
          ItemWritten(s, s'.note.events[|s.note.events| + i], s'.history[|s.history| + i], locationId, items[i]))
  }

  /** Lines that differ in their counts only. */
  ghost predicate SameBooks(a: seq<Line>, b: seq<Line>) {
    |a| == |b| && forall k :: 0 <= k < |a| ==> a[k].id == b[k].id && a[k].bookId == b[k].bookId && a[k].unitCost == b[k].unitCost
  }

  lemma ItemOnShelf(s: State, s1: State, locationId: int, item: Item)
    requires SameBooks(s.note.lines, s1.note.lines) && item.quantity > 0 && ReceiveItem(s1, locationId, item).Ok?
    ensures FindLine(s.note.lines, item.lineId) < |s.note.lines|
    ensures var s' := ReceiveItem(s1, locationId, item).value;
            var l, shelf := Named(s, item), Shelf(locationId, Named(s, item).bookId);
            && SameBooks(s.note.lines, s'.note.lines)
            && CameAt(LevelAt(s1.shelves, shelf), LevelAt(s'.shelves, shelf), item.quantity, CostOf(l))
            && (forall other :: other != shelf ==> LevelAt(s'.shelves, other) == LevelAt(s1.shelves, other))
            && s'.note.events == s1.note.events + [Event(item.lineId, Arrived, item.quantity, Some(locationId))]
            && s'.history == s1.history + [Movement(l.bookId, locationId, item.quantity, TransferIn, ForTransferIn)]
  {
    hide ReceiveStock, LevelAt, CameAt;
    FindSame(s.note.lines, s1.note.lines, item.lineId);
    var k := CheckLine(s1, item.lineId, item.quantity).value;
    ReceivedOnShelf(s1, Shelf(locationId, s1.note.lines[k].bookId), item.quantity, CostOf(s1.note.lines[k]), ForTransferIn);
  }

  lemma OneMoreCame(s: State, s1: State, s': State, locationId: int, items: seq<Item>, item: Item, e: Event, m: Movement)
    requires ItemsCame(s, s1, locationId, items) && FindLine(s.note.lines, item.lineId) < |s.note.lines|
    requires var shelf := Shelf(locationId, Named(s, item).bookId);
             && NoneOf(s, locationId, items, shelf)
             && CameAt(LevelAt(s1.shelves, shelf), LevelAt(s'.shelves, shelf), item.quantity, CostOf(Named(s, item)))
             && (forall other :: other != shelf ==> LevelAt(s'.shelves, other) == LevelAt(s1.shelves, other))
    requires s'.note.events == s1.note.events + [e] && s'.history == s1.history + [m]
    requires ItemWritten(s, e, m, locationId, item)
    ensures ItemsCame(s, s', locationId, items + [item])
  {
    hide CameAt, LevelAt, FindLine;
    var more := items + [item];
    assert more[|items|] == item && forall i :: 0 <= i < |items| ==> more[i] == items[i];
    forall shelf | NoneOf(s, locationId, more, shelf)
      ensures LevelAt(s'.shelves, shelf) == LevelAt(s.shelves, shelf)
    {
      assert shelf != Shelf(locationId, Named(s, more[|items|]).bookId);
      assert NoneOf(s, locationId, items, shelf) by {
        assert forall i :: 0 <= i < |items| ==> items[i] == more[i];
      }
    }
    forall i: nat | i < |items|
      ensures ItemCame(s, s', locationId, more[i])
    {
      assert ItemCame(s, s1, locationId, items[i]);
      assert Shelf(locationId, Named(s, item).bookId) != Shelf(locationId, Named(s, items[i]).bookId);
    }
    forall i: nat | i < |more|
      ensures ItemWritten(s, s'.note.events[|s.note.events| + i], s'.history[|s.history| + i], locationId, more[i])
    {
      if i < |items| {
        assert ItemWritten(s, s1.note.events[|s.note.events| + i], s1.history[|s.history| + i], locationId, items[i]);
      }
    }
  }

  /** An item of another line goes to another shelf. */
  lemma OtherShelf(s: State, locationId: int, items: seq<Item>, item: Item)
    requires LinesOk(s.note.lines) && AllNamed(s, items) && FindLine(s.note.lines, item.lineId) < |s.note.lines|
    requires forall i :: 0 <= i < |items| ==> items[i].lineId != item.lineId
    ensures NoneOf(s, locationId, items, Shelf(locationId, Named(s, item).bookId))
  {
    forall i: nat | i < |items|
      ensures Named(s, items[i]).bookId != Named(s, item).bookId
    {
      var j, k := FindLine(s.note.lines, items[i].lineId), FindLine(s.note.lines, item.lineId);
      assert j != k;
    }
  }

  lemma {:induction false} ItemsOnShelves(s: State, locationId: int, items: seq<Item>)
    requires LinesOk(s.note.lines) && ReceiveItems.requires(s, locationId, items) && ReceiveItems(s, locationId, items).Ok?
    requires forall i, j :: 0 <= i < j < |items| ==> items[i].lineId != items[j].lineId
    ensures ItemsCame(s, ReceiveItems(s, locationId, items).value, locationId, items)
    ensures SameBooks(s.note.lines, ReceiveItems(s, locationId, items).value.note.lines)
  {
    hide LinesOk, ItemsCame, CameAt, ReceiveItem, FindLine;
    if items == [] {
      NothingCame(s, locationId);
    } else {
      var n := |items| - 1;
      var first, item := items[..n], items[n];
      ItemsOnShelves(s, locationId, first);
      var s1 := ReceiveItems(s, locationId, first).value;
      ItemOnShelf(s, s1, locationId, item);
      CameNamed(s, s1, locationId, first);
      OtherShelf(s, locationId, first, item);
      OneMoreCame(s, s1, ReceiveItem(s1, locationId, item).value, locationId, first, item,
                  Event(item.lineId, Arrived, item.quantity, Some(locationId)),
                  Movement(Named(s, item).bookId, locationId, item.quantity, TransferIn, ForTransferIn));
      assert first + [item] == items;
    }
  }

  lemma NothingCame(s: State, locationId: int)
    ensures ItemsCame(s, s, locationId, [])
  {
  }

  lemma CameNamed(s: State, s': State, locationId: int, items: seq<Item>)
    requires ItemsCame(s, s', locationId, items)
    ensures AllNamed(s, items)
  {
  }

  /**
   * A receipt puts the copies of each item on the shelf of its book at the
   * location of the receipt, at the cost their line left at, and changes no
   * other shelf; each item is one event of its line and one movement.
   */
  lemma ReceivedAtCost(s: State, before: Shelves, d: Directory, actor: Actor, r: Receipt)
    requires Valid(s, before) && Receive(s, d, actor, r).Ok?
    ensures ItemsCame(s, Receive(s, d, actor, r).value, r.locationId, r.items)
    ensures SameBooks(s.note.lines, Receive(s, d, actor, r).value.note.lines)
  {
    hide LinesMatchEvents, ShelvesMatch, LinesSent, LinesOk, ReceiveItems;
    ItemsOnShelves(s, r.locationId, r.items);
    var s1 := ReceiveItems(s, r.locationId, r.items).value;
    SettledCame(s, s1, r.locationId, r.items);
  }

  lemma SettledCame(s: State, s1: State, locationId: int, items: seq<Item>)
    requires ItemsCame(s, s1, locationId, items)
    ensures ItemsCame(s, Settle(s1), locationId, items)
  {
    hide CameAt, LevelAt, FindLine, StatusAfter;
    forall i: nat | i < |items|
      ensures ItemCame(s, Settle(s1), locationId, items[i])
    {
      assert ItemCame(s, s1, locationId, items[i]);
    }
  }

  // ── Resolving ─────────────────────────────────────────────────────────────

  /**
   * A resolution is accepted exactly when it is well formed and comes from the
   * branch concerned, the sender for returned copies and the receiver for
   * others, for a line with that many copies on the way; copies that are not
   * lost need a location of that branch the actor may use.
   */
  lemma ResolveAccepts(s: State, d: Directory, actor: Actor, r: Resolution)
    ensures Resolve(s, d, actor, r).Ok? <==>
              var branch := if r.outcome == Returned then s.note.fromBranchId else s.note.toBranchId;
              && r.outcome != Arrived && r.quantity > 0 && 1 <= |Text.Trim(r.reason)| <= 500
              && (r.outcome == Lost <==> r.locationId == None)
              && actor.branchId == branch && (s.note.status == InTransit || s.note.status == PartiallyReceived)
              && (var k := FindLine(s.note.lines, r.lineId);
                  && k < |s.note.lines| && r.quantity <= Outstanding(s.note.lines[k])
                  && (r.outcome == Lost || CostOf(s.note.lines[k]).units >= 0))
              && (r.outcome != Lost ==>
                    && r.locationId.value in d.locations && d.locations[r.locationId.value] == branch
                    && (actor.limitedTo == {} || r.locationId.value in actor.limitedTo))
  {
    hide ReceiveStock, ReceiveDamaged, StatusAfter;
  }

  /** Where resolved copies are, and what is written for them. */
  ghost predicate ResolvedOnShelves(s: State, s': State, r: Resolution, l: Line) {
    var shelf := Shelf(if r.locationId.Some? then r.locationId.value else 0, l.bookId);
    && (r.outcome != Lost ==>
          forall other :: other != shelf ==> LevelAt(s'.shelves, other) == LevelAt(s.shelves, other))
    && match r.outcome
       case Damaged =>
         && CameDamaged(LevelAt(s.shelves, shelf), LevelAt(s'.shelves, shelf), r.quantity, CostOf(l))
         && s'.history == s.history + [Movement(l.bookId, shelf.locationId, 0, StockIn, ForDamage)]
       case Returned =>
         && CameAt(LevelAt(s.shelves, shelf), LevelAt(s'.shelves, shelf), r.quantity, CostOf(l))
         && s'.history == s.history + [Movement(l.bookId, shelf.locationId, r.quantity, TransferIn, ForTransferReturned)]
       case _ => s'.shelves == s.shelves && s'.history == s.history
  }

  /**
   * A resolution puts damaged copies with the damaged ones of the receiver and
   * returned ones on a shelf of the sender, at the cost their line left at; lost
   * copies are nowhere. It is one event of its line.
   */
  lemma ResolvedAtCost(s: State, d: Directory, actor: Actor, r: Resolution)
    requires Resolve(s, d, actor, r).Ok?
    ensures FindLine(s.note.lines, r.lineId) < |s.note.lines|
    ensures var s' := Resolve(s, d, actor, r).value;
            && ResolvedOnShelves(s, s', r, s.note.lines[FindLine(s.note.lines, r.lineId)])
            && s'.note.events == s.note.events + [Event(r.lineId, r.outcome, r.quantity, r.locationId)]
            && SameBooks(s.note.lines, s'.note.lines)
  {
    hide ReceiveStock, ReceiveDamaged, StatusAfter, LevelAt, CameAt, CameDamaged, FindLine;
    var l := s.note.lines[CheckLine(s, r.lineId, r.quantity).value];
    if r.outcome == Damaged {
      DamagedOnShelf(s, Shelf(r.locationId.value, l.bookId), r.quantity, CostOf(l));
    } else if r.outcome == Returned {
      ReceivedOnShelf(s, Shelf(r.locationId.value, l.bookId), r.quantity, CostOf(l), ForTransferReturned);
    }
  }

  // ── Runs ──────────────────────────────────────────────────────────────────

  /** The books and copies of a draft, each line at the average of its book on the source shelf. */
  ghost predicate CostedFrom(at: State, lines: seq<Line>) {
    && |lines| == |at.note.lines|
    && forall k :: 0 <= k < |lines| ==>
         var l, shelf := at.note.lines[k], Shelf(at.note.fromLocationId, at.note.lines[k].bookId);
         && lines[k].id == l.id && lines[k].bookId == l.bookId && lines[k].quantity == l.quantity
         && shelf in at.shelves && lines[k].unitCost == Some(at.shelves[shelf].averageCost)
  }

  lemma DispatchIsTheWayOut(s: State, before: Shelves, d: Directory, op: Operation)
    requires Valid(s, before) && s.note.status == Draft && Do(s, d, op).Ok?
    requires var status := Do(s, d, op).value.note.status; status != Draft && status != Cancelled
    ensures op.DoDispatch? && CostedFrom(s, Do(s, d, op).value.note.lines)
  {
    hide Valid, Dispatch, CheckDraft;
    if op.DoDispatch? {
      DispatchedAtAverage(s, before, op.actor);
    }
  }

  lemma SameSentCosted(at: State, a: seq<Line>, b: seq<Line>)
    requires CostedFrom(at, a) && SameSent(a, b)
    ensures CostedFrom(at, b)
  {
  }

  /**
   * In every run, whatever else moves stock and changes costs: the copies and
   * costs of a note that was dispatched are those of its draft at the moment of
   * the dispatch, each at the average its book then had on the source shelf.
   */
  lemma {:induction false} CostsOfTheDispatch(s: State, before: Shelves, steps: seq<Step>) returns (i: nat)
    requires Valid(s, before) && s.note.status == Draft
    requires Run(s, steps).note.status != Draft && Run(s, steps).note.status != Cancelled
    ensures i < |steps| && steps[i].Act? && steps[i].op.DoDispatch?
    ensures Run(s, steps[..i]).note.status == Draft && CostedFrom(Run(s, steps[..i]), Run(s, steps).note.lines)
  {
    hide Valid, Do, CostedFrom;
    var first, last := steps[..|steps| - 1], steps[|steps| - 1];
    var s1 := Run(s, first);
    if s1.note.status == Draft {
      var base := RunKeepsValid(s, before, first);
      DispatchIsTheWayOut(s1, base, last.d, last.op);
      i := |first|;
    } else {
      if s1.note.status == Cancelled {
        EndedForGood(s1, [last]);
        OneStep(s1, last);
      }
      i := CostsOfTheDispatch(s, before, first);
      assert first[..i] == steps[..i];
      OneStep(s1, last);
      SentIsSettled(s1, [last]);
      SameSentCosted(Run(s, steps[..i]), s1.note.lines, Run(s, steps).note.lines);
    }
  }

  lemma OneStep(s: State, last: Step)
    ensures Run(s, [last]) ==
            if last.Elsewhere? then s.(shelves := last.shelves)
            else if Do(s, last.d, last.op).Ok? then Do(s, last.d, last.op).value
            else s
  {
    assert [last][..0] == [];
    assert Run(s, []) == s;
  }
}
