/** What is on the way is worth: the rounded sum the code shows, and the exact amounts it stands for. */
module TransferValues {
  import opened MoneyAmounts
  import opened Transfers
  import opened TransferRuns
  import opened Options
  import Decimals
  import MoneyLaws
  import Rounding

  /** What the copies of a line on the way are worth; nothing before dispatch. */
  function LineWorth(l: Line): (m: Money)
    ensures m.units == CostOf(l).units * Outstanding(l)
  {
    if l.unitCost.Some? then
      MoneyLaws.TimesWhole(l.unitCost.value, l.unitCost.value, Outstanding(l));
      Times(l.unitCost.value, Whole(Outstanding(l))).value
    else Money(0)
  }

  function WorthUnits(l: Line): int {
    LineWorth(l).units
  }

  /** What is on the way, at the cost it left at, in whole cents. */
  function InTransitValue(lines: seq<Line>): Outcome<Money> {
    Round(Money(SumOver(lines, WorthUnits)), 2)
  }

  function SentUnits(l: Line): int {
    CostOf(l).units * l.quantity
  }

  function AccountedUnits(l: Line): int {
    CostOf(l).units * Accounted(l)
  }

  /** The cost at which the line of that id left; nothing for no line. */
  function CostAt(lines: seq<Line>, id: nat): int {
    if lines == [] then 0
    else
      var l := lines[|lines| - 1];
      if l.id == id then CostOf(l).units else CostAt(lines[..|lines| - 1], id)
  }

  /** What was received and resolved, receipt by receipt and resolution by resolution. */
  function EventsValue(lines: seq<Line>, events: seq<Event>): int {
    if events == [] then 0
    else
      var e := events[|events| - 1];
      EventsValue(lines, events[..|events| - 1]) + CostAt(lines, e.lineId) * e.quantity
  }

  /** Copies of a line received or resolved, of any kind. */
  function EventCopies(events: seq<Event>, id: nat): int {
    if events == [] then 0
    else
      var e := events[|events| - 1];
      EventCopies(events[..|events| - 1], id) + if e.lineId == id then e.quantity else 0
  }

  lemma {:induction false} CopiesByKind(events: seq<Event>, id: nat)
    ensures EventCopies(events, id) == EventSum(events, id, Arrived) + EventSum(events, id, Lost)
                                       + EventSum(events, id, Damaged) + EventSum(events, id, Returned)
  {
    if events != [] {
      CopiesByKind(events[..|events| - 1], id);
    }
  }

  lemma {:induction false} NoCostAt(lines: seq<Line>, id: nat)
    requires forall k :: 0 <= k < |lines| ==> lines[k].id != id
    ensures CostAt(lines, id) == 0
  {
    if lines != [] {
      NoCostAt(lines[..|lines| - 1], id);
    }
  }

  /** One line more: its own events count as well. */
  lemma {:induction false} EventsOfLine(lines: seq<Line>, events: seq<Event>)
    requires lines != [] && forall k :: 0 <= k < |lines| - 1 ==> lines[k].id != lines[|lines| - 1].id
    ensures var l := lines[|lines| - 1];
            EventsValue(lines, events) ==
            EventsValue(lines[..|lines| - 1], events) + CostOf(l).units * EventCopies(events, l.id)
  {
    if events != [] {
      var first, e := events[..|events| - 1], events[|events| - 1];
      var l, c := lines[|lines| - 1], CostOf(lines[|lines| - 1]).units;
      EventsOfLine(lines, first);
      if e.lineId == l.id {
        NoCostAt(lines[..|lines| - 1], l.id);
        assert c * (EventCopies(first, l.id) + e.quantity) == c * EventCopies(first, l.id) + c * e.quantity;
      }
    }
  }

  lemma {:induction false} AccountedIsEvents(lines: seq<Line>, events: seq<Event>)
    requires forall j, k :: 0 <= j < k < |lines| ==> lines[j].id != lines[k].id
    requires forall k :: 0 <= k < |lines| ==> Accounted(lines[k]) == EventCopies(events, lines[k].id)
    ensures SumOver(lines, AccountedUnits) == EventsValue(lines, events)
  {
    if lines == [] {
      NoEventsValue(events);
    } else {
      hide EventCopies;
      AccountedIsEvents(lines[..|lines| - 1], events);
      EventsOfLine(lines, events);
    }
  }

  lemma {:induction false} NoEventsValue(events: seq<Event>)
    ensures EventsValue([], events) == 0
  {
    if events != [] {
      NoEventsValue(events[..|events| - 1]);
    }
  }

  lemma {:induction false} SentIsOnTheWayOrAccounted(lines: seq<Line>)
    ensures SumOver(lines, SentUnits) == SumOver(lines, WorthUnits) + SumOver(lines, AccountedUnits)
  {
    hide SentUnits, WorthUnits, AccountedUnits;
    if lines != [] {
      var l := lines[|lines| - 1];
      SentIsOnTheWayOrAccounted(lines[..|lines| - 1]);
      LineIsOnTheWayOrAccounted(l);
    }
  }

  lemma LineIsOnTheWayOrAccounted(l: Line)
    ensures SentUnits(l) == WorthUnits(l) + AccountedUnits(l)
  {
    var c := CostOf(l).units;
    Distribute(c, Outstanding(l), Accounted(l));
  }

  lemma Distribute(c: int, a: int, b: int)
    ensures c * (a + b) == c * a + c * b
  {
  }

  lemma {:induction false} NothingOnTheWay(lines: seq<Line>)
    requires forall k :: 0 <= k < |lines| ==> Outstanding(lines[k]) == 0 || lines[k].unitCost == None
    ensures SumOver(lines, WorthUnits) == 0
  {
    if lines != [] {
      NothingOnTheWay(lines[..|lines| - 1]);
      assert LineWorth(lines[|lines| - 1]).units == 0;
    }
  }

  /** The copies and costs a note was dispatched with. */
  ghost predicate SameSent(a: seq<Line>, b: seq<Line>) {
    && |a| == |b|
    && forall k :: 0 <= k < |a| ==>
         a[k].id == b[k].id && a[k].bookId == b[k].bookId && a[k].quantity == b[k].quantity && a[k].unitCost == b[k].unitCost
  }

  lemma {:induction false} SameSentValue(a: seq<Line>, b: seq<Line>)
    requires SameSent(a, b)
    ensures SumOver(a, SentUnits) == SumOver(b, SentUnits)
  {
    if a != [] {
      SameSentValue(a[..|a| - 1], b[..|b| - 1]);
    }
  }

  lemma {:induction false} ReceivedSameSent(s: State, locationId: int, items: seq<Item>)
    requires forall i :: 0 <= i < |items| ==> items[i].quantity > 0
    requires ReceiveItems(s, locationId, items).Ok?
    ensures SameSent(s.note.lines, ReceiveItems(s, locationId, items).value.note.lines)
  {
    if items != [] {
      ReceivedSameSent(s, locationId, items[..|items| - 1]);
    }
  }

  lemma DoSameSent(s: State, d: Directory, op: Operation)
    requires s.note.status != Draft && Do(s, d, op).Ok?
    ensures SameSent(s.note.lines, Do(s, d, op).value.note.lines) && Do(s, d, op).value.note.status != Draft
  {
    hide ReceiveItems, AverageAfter, CheckLocation, FindLine, Outstanding;
    match op
    case DoReceive(actor, receipt) => ReceivedSameSent(s, receipt.locationId, receipt.items);
    case _ =>
  }

  /** What a note sent is settled at dispatch: no later step changes copies or costs. */
  lemma {:induction false} SentIsSettled(s: State, steps: seq<Step>)
    requires s.note.status != Draft
    ensures Run(s, steps).note.status != Draft && SameSent(s.note.lines, Run(s, steps).note.lines)
  {
    hide Do;
    if steps != [] {
      var first, last := steps[..|steps| - 1], steps[|steps| - 1];
      SentIsSettled(s, first);
      if last.Act? && Do(Run(s, first), last.d, last.op).Ok? {
        DoSameSent(Run(s, first), last.d, last.op);
      }
    }
  }

  /**
   * In every run the value in transit is nothing for a draft and for a note that
   * ended, and otherwise within half a cent of what was sent minus every
   * receipt and resolution at the cost its line left at.
   */
  lemma InTransitValueIs(d: Directory, actor: Actor, r: Request, firstId: nat, before: Shelves, steps: seq<Step>)
    requires Create(d, actor, r, firstId, before).Ok?
    ensures var n := Run(Create(d, actor, r, firstId, before).value, steps).note;
            var value := InTransitValue(n.lines);
            && value.Done?
            && 2 * Rounding.Abs(value.value.units - (SumOver(n.lines, SentUnits) - EventsValue(n.lines, n.events))) <= 100
            && (n.status == Draft || Final(n.status) ==> value.value.units == 0)
  {
    hide Create, SumOver, EventsValue, EventCopies, EventSum, ShelvesMatch, LinesSent, WorthUnits, StatusAfter, Round;
    CreateValid(d, actor, r, firstId, before);
    var created := Create(d, actor, r, firstId, before).value;
    var base := RunKeepsValid(created, before, steps);
    var s := Run(created, steps);
    var lines := s.note.lines;
    forall k | 0 <= k < |lines|
      ensures Accounted(lines[k]) == EventCopies(s.note.events, lines[k].id)
    {
      CopiesByKind(s.note.events, lines[k].id);
      assert CountOf(lines[k], Arrived) == EventSum(s.note.events, lines[k].id, Arrived);
      assert CountOf(lines[k], Lost) == EventSum(s.note.events, lines[k].id, Lost);
      assert CountOf(lines[k], Damaged) == EventSum(s.note.events, lines[k].id, Damaged);
      assert CountOf(lines[k], Returned) == EventSum(s.note.events, lines[k].id, Returned);
    }
    AccountedIsEvents(lines, s.note.events);
    SentIsOnTheWayOrAccounted(lines);
    var exact := Money(SumOver(lines, WorthUnits));
    MoneyLaws.RoundingLaws(exact, exact, 2);
    MoneyLaws.RoundedZero(2);
    assert Decimals.Pow10(2) == 10 * Decimals.Pow10(1) == 100;
    if s.note.status == Draft || Final(s.note.status) {
      NoneLeft(s, base);
    }
  }

  lemma NoneLeft(s: State, before: Shelves)
    requires Valid(s, before) && (s.note.status == Draft || Final(s.note.status))
    ensures SumOver(s.note.lines, WorthUnits) == 0
  {
    hide SumOver, LinesMatchEvents, ShelvesMatch, WorthUnits;
    var lines := s.note.lines;
    assert forall k :: 0 <= k < |lines| ==> LineOk(lines[k]);
    NothingOnTheWay(lines);
  }
}
