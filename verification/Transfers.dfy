/**
 * Transfer notes between branches: drafted, dispatched, received line by line
 * and resolved (apps/api/src/modules/transfers/transfers.service.ts and
 * transfers.policy.ts). Each operation is one transaction: it succeeds as a
 * whole or changes nothing.
 */
module Transfers {
  import Rounding
  import Text
  import opened MoneyAmounts
  import opened StockCosts
  import opened Options

  datatype Status = Draft | InTransit | PartiallyReceived | Received | Closed | Cancelled

  datatype Kind = Arrived | Lost | Damaged | Returned

  datatype Line = Line(
    id: nat, bookId: int, quantity: int, unitCost: Option<Money>,
    received: int, lost: int, damaged: int, returned: int
  )

  datatype Event = Event(lineId: nat, kind: Kind, quantity: int, locationId: Option<int>)

  datatype Note = Note(
    fromBranchId: int, fromLocationId: int, toBranchId: int,
    status: Status, lines: seq<Line>, events: seq<Event>
  )

  datatype MovementType = TransferOut | TransferIn | StockIn

  datatype Reason = ForTransferOut | ForTransferIn | ForTransferReturned | ForDamage

  /** A row of the stock history that names the note. */
  datatype Movement = Movement(bookId: int, locationId: int, delta: int, movementType: MovementType, reason: Reason)

  datatype Shelf = Shelf(locationId: int, bookId: int)

  /** Copies for sale at their average cost, and damaged copies with their value. */
  datatype Level = Level(quantity: int, averageCost: Money, damaged: int, damagedValue: Money)

  type Shelves = map<Shelf, Level>

  /** A note with the stock it moves. */
  datatype State = State(note: Note, shelves: Shelves, history: seq<Movement>)

  /** Who acts: from a branch, and limited to some of its locations unless there are none. */
  datatype Actor = Actor(branchId: int, limitedTo: set<int>)

  /** Branches (active or not), the branch of each location, and the active books. */
  datatype Directory = Directory(branches: map<int, bool>, locations: map<int, int>, books: set<int>)

  datatype LineInput = LineInput(bookId: int, quantity: int)

  datatype Request = Request(fromLocationId: int, toBranchId: int, lines: seq<LineInput>)

  datatype Item = Item(lineId: nat, quantity: int)

  datatype Receipt = Receipt(locationId: int, items: seq<Item>)

  datatype Resolution = Resolution(lineId: nat, outcome: Kind, quantity: int, reason: string, locationId: Option<int>)

  datatype Error =
    | BadRequest
    | SameBranch
    | NotFound
    | BranchInactive
    | BranchAccessDenied
    | LocationForbidden
    | InvalidStatus
    | InsufficientStock
    | NegativeCost
    | OverOutstanding(outstanding: int, requested: int)

  datatype Result<+T> = Ok(value: T) | Err(error: Error)

  // ── Rules of a note ───────────────────────────────────────────────────────

  function Accounted(l: Line): int {
    l.received + l.lost + l.damaged + l.returned
  }

  /** What is still on the way of a line: sent, but neither taken in nor settled otherwise. */
  function Outstanding(l: Line): int {
    l.quantity - l.received - l.lost - l.damaged - l.returned
  }

  function StatusAfter(lines: seq<Line>): Status {
    if forall i :: 0 <= i < |lines| ==> lines[i].received == lines[i].quantity then Received
    else if forall i :: 0 <= i < |lines| ==> Outstanding(lines[i]) == 0 then Closed
    else if exists i :: 0 <= i < |lines| && Outstanding(lines[i]) < lines[i].quantity then PartiallyReceived
    else InTransit
  }

  predicate OnTheWay(s: Status) {
    s == InTransit || s == PartiallyReceived
  }

  predicate MayUse(actor: Actor, locationId: int) {
    actor.limitedTo == {} || locationId in actor.limitedTo
  }

  /** Refuses a location that is unknown, of another branch, or not the actor's. */
  function CheckLocation(d: Directory, actor: Actor, locationId: int, branchId: int): Result<()> {
    if locationId !in d.locations then Err(NotFound)
    else if d.locations[locationId] != branchId then Err(BranchAccessDenied)
    else if !MayUse(actor, locationId) then Err(LocationForbidden)
    else Ok(())
  }

  // ── Drafting ──────────────────────────────────────────────────────────────

  predicate DistinctBooks(lines: seq<LineInput>) {
    forall i, j :: 0 <= i < j < |lines| ==> lines[i].bookId != lines[j].bookId
  }

  predicate WellFormedRequest(r: Request) {
    && 1 <= |r.lines| <= 200
    && DistinctBooks(r.lines)
    && forall i :: 0 <= i < |r.lines| ==> r.lines[i].quantity > 0
  }

  function CheckDraft(d: Directory, actor: Actor, r: Request): Result<()> {
    if r.toBranchId == actor.branchId then Err(SameBranch)
    else if r.toBranchId !in d.branches then Err(NotFound)
    else if !d.branches[r.toBranchId] then Err(BranchInactive)
    else if r.fromLocationId !in d.locations || d.locations[r.fromLocationId] != actor.branchId then Err(BranchAccessDenied)
    else if exists i :: 0 <= i < |r.lines| && r.lines[i].bookId !in d.books then Err(NotFound)
    else Ok(())
  }

  /** Fresh lines, numbered from `firstId`. */
  function NewLines(inputs: seq<LineInput>, firstId: nat): (lines: seq<Line>)
    ensures |lines| == |inputs|
    ensures forall i :: 0 <= i < |lines| ==> lines[i] == Line(firstId + i, inputs[i].bookId, inputs[i].quantity, None, 0, 0, 0, 0)
  {
    seq(|inputs|, i requires 0 <= i < |inputs| => Line(firstId + i, inputs[i].bookId, inputs[i].quantity, None, 0, 0, 0, 0))
  }

  function Create(d: Directory, actor: Actor, r: Request, firstId: nat, shelves: Shelves): Result<State> {
    if !WellFormedRequest(r) then Err(BadRequest)
    else match CheckDraft(d, actor, r)
      case Err(e) => Err(e)
      case Ok(_) =>
        Ok(State(Note(actor.branchId, r.fromLocationId, r.toBranchId, Draft, NewLines(r.lines, firstId), []), shelves, []))
  }

  /** A draft, replaced whole. */
  function Update(s: State, d: Directory, actor: Actor, r: Request, firstId: nat): Result<State> {
    if !WellFormedRequest(r) then Err(BadRequest)
    else if s.note.fromBranchId != actor.branchId then Err(BranchAccessDenied)
    else if s.note.status != Draft then Err(InvalidStatus)
    else match CheckDraft(d, actor, r)
      case Err(e) => Err(e)
      case Ok(_) =>
        Ok(s.(note := s.note.(fromLocationId := r.fromLocationId, toBranchId := r.toBranchId, lines := NewLines(r.lines, firstId))))
  }

  function Cancel(s: State, actor: Actor): Result<State> {
    if s.note.fromBranchId != actor.branchId then Err(BranchAccessDenied)
    else if s.note.status != Draft then Err(InvalidStatus)
    else Ok(s.(note := s.note.(status := Cancelled)))
  }

  // ── Stock ─────────────────────────────────────────────────────────────────

  /** A shelf's level; a shelf without the book holds none. */
  function LevelAt(shelves: Shelves, shelf: Shelf): Level {
    if shelf in shelves then shelves[shelf] else Level(0, Money(0), 0, Money(0))
  }

  function AverageAfter(level: Level, quantity: int, unitCost: Money): Money
    requires quantity > 0
  {
    match AverageCostAfterReceipt(level.quantity, level.averageCost, quantity, unitCost)
    case Done(average) => average
    case RangeError => level.averageCost
  }

  /** Copies come onto a shelf at a cost that is weighed into its average. */
  function ReceiveStock(s: State, shelf: Shelf, quantity: int, unitCost: Money, reason: Reason): State
    requires quantity > 0
  {
    var level := LevelAt(s.shelves, shelf);
    s.(shelves := s.shelves[shelf := level.(quantity := level.quantity + quantity,
                                            averageCost := AverageAfter(level, quantity, unitCost))],
       history := s.history + [Movement(shelf.bookId, shelf.locationId, quantity, TransferIn, reason)])
  }

  /** Damaged copies are counted apart with their value; the copies for sale stay as they are. */
  function ReceiveDamaged(s: State, shelf: Shelf, quantity: int, unitCost: Money): State {
    var level := LevelAt(s.shelves, shelf);
    var value := Rounding.DivRound(unitCost.units * quantity, 100) * 100;
    s.(shelves := s.shelves[shelf := level.(damaged := level.damaged + quantity,
                                            damagedValue := Money(level.damagedValue.units + value))],
       history := s.history + [Movement(shelf.bookId, shelf.locationId, 0, StockIn, ForDamage)])
  }

  // ── Sending ───────────────────────────────────────────────────────────────

  function SetCost(lines: seq<Line>, id: nat, unitCost: Money): (r: seq<Line>)
    ensures |r| == |lines|
    ensures forall i :: 0 <= i < |r| ==> r[i] == if lines[i].id == id then lines[i].(unitCost := Some(unitCost)) else lines[i]
  {
    seq(|lines|, i requires 0 <= i < |lines| =>
      if lines[i].id == id then lines[i].(unitCost := Some(unitCost)) else lines[i])
  }

  /** One line leaves the source shelf at its average cost, never below zero. */
  function SendLine(s: State, l: Line): Result<State> {
    var shelf := Shelf(s.note.fromLocationId, l.bookId);
    var level := LevelAt(s.shelves, shelf);
    var available := if level.quantity < 0 then 0 else level.quantity;
    if available < l.quantity then Err(Error.InsufficientStock)
    else
      Ok(State(s.note.(lines := SetCost(s.note.lines, l.id, level.averageCost)),
               s.shelves[shelf := level.(quantity := level.quantity - l.quantity)],
               s.history + [Movement(l.bookId, s.note.fromLocationId, -l.quantity, TransferOut, ForTransferOut)]))
  }

  function SendLines(s: State, lines: seq<Line>): Result<State> {
    if lines == [] then Ok(s)
    else match SendLines(s, lines[..|lines| - 1])
      case Err(e) => Err(e)
      case Ok(s') => SendLine(s', lines[|lines| - 1])
  }

  function InsertByBook(l: Line, lines: seq<Line>): (r: seq<Line>)
    ensures multiset(r) == multiset(lines) + multiset{l}
  {
    if lines == [] || l.bookId < lines[0].bookId then [l] + lines
    else
      assert lines == [lines[0]] + lines[1..];
      [lines[0]] + InsertByBook(l, lines[1..])
  }

  /** The lines in book order, so that notes from one shelf lock its rows in one order. */
  function InBookOrder(lines: seq<Line>): (r: seq<Line>)
    ensures multiset(r) == multiset(lines)
  {
    if lines == [] then []
    else
      assert lines == lines[..|lines| - 1] + [lines[|lines| - 1]];
      InsertByBook(lines[|lines| - 1], InBookOrder(lines[..|lines| - 1]))
  }

  function Dispatch(s: State, actor: Actor): Result<State> {
    if s.note.fromBranchId != actor.branchId then Err(BranchAccessDenied)
    else if s.note.status != Draft then Err(InvalidStatus)
    else if !MayUse(actor, s.note.fromLocationId) then Err(LocationForbidden)
    else match SendLines(s, InBookOrder(s.note.lines))
      case Err(e) => Err(e)
      case Ok(sent) => Ok(sent.(note := sent.note.(status := InTransit)))
  }

  // ── Receiving and resolving ───────────────────────────────────────────────

  /** The position of the line, or the number of lines. */
  function FindLine(lines: seq<Line>, id: nat): (k: nat)
    ensures k <= |lines| && (k < |lines| ==> lines[k].id == id)
    ensures forall i :: 0 <= i < k ==> lines[i].id != id
  {
    if lines == [] || lines[0].id == id then 0 else 1 + FindLine(lines[1..], id)
  }

  function Counted(l: Line, kind: Kind, quantity: int): Line {
    match kind
    case Arrived => l.(received := l.received + quantity)
    case Lost => l.(lost := l.lost + quantity)
    case Damaged => l.(damaged := l.damaged + quantity)
    case Returned => l.(returned := l.returned + quantity)
  }

  /** An event, and the line's count of its kind. */
  function Record(s: State, k: nat, kind: Kind, quantity: int, locationId: Option<int>): State
    requires k < |s.note.lines|
  {
    var l := s.note.lines[k];
    s.(note := s.note.(lines := s.note.lines[k := Counted(l, kind, quantity)],
                       events := s.note.events + [Event(l.id, kind, quantity, locationId)]))
  }

  function CostOf(l: Line): Money {
    if l.unitCost.Some? then l.unitCost.value else Money(0)
  }

  /** Refuses an unknown line, and more copies than are on the way. */
  function CheckLine(s: State, lineId: nat, quantity: int): (r: Result<nat>)
    ensures r.Ok? ==> r.value < |s.note.lines| && s.note.lines[r.value].id == lineId
                      && quantity <= Outstanding(s.note.lines[r.value])
  {
    var k := FindLine(s.note.lines, lineId);
    if k == |s.note.lines| then Err(NotFound)
    else if quantity > Outstanding(s.note.lines[k]) then Err(OverOutstanding(Outstanding(s.note.lines[k]), quantity))
    else Ok(k)
  }

  function ReceiveItem(s: State, locationId: int, item: Item): Result<State>
    requires item.quantity > 0
  {
    match CheckLine(s, item.lineId, item.quantity)
    case Err(e) => Err(e)
    case Ok(k) =>
      var l := s.note.lines[k];
      if CostOf(l).units < 0 then Err(NegativeCost)
      else
        var s' := ReceiveStock(s, Shelf(locationId, l.bookId), item.quantity, CostOf(l), ForTransferIn);
        Ok(Record(s', k, Arrived, item.quantity, Some(locationId)))
  }

  function ReceiveItems(s: State, locationId: int, items: seq<Item>): Result<State>
    requires forall i :: 0 <= i < |items| ==> items[i].quantity > 0
  {
    if items == [] then Ok(s)
    else match ReceiveItems(s, locationId, items[..|items| - 1])
      case Err(e) => Err(e)
      case Ok(s') => ReceiveItem(s', locationId, items[|items| - 1])
  }

  /** The status from the lines, after a receipt or a resolution. */
  function Settle(s: State): State {
    s.(note := s.note.(status := StatusAfter(s.note.lines)))
  }

  predicate WellFormedReceipt(r: Receipt) {
    && |r.items| >= 1
    && (forall i :: 0 <= i < |r.items| ==> r.items[i].quantity > 0)
    && (forall i, j :: 0 <= i < j < |r.items| ==> r.items[i].lineId != r.items[j].lineId)
  }

  function Receive(s: State, d: Directory, actor: Actor, r: Receipt): Result<State> {
    if !WellFormedReceipt(r) then Err(BadRequest)
    else if s.note.toBranchId != actor.branchId then Err(BranchAccessDenied)
    else if !OnTheWay(s.note.status) then Err(InvalidStatus)
    else match CheckLocation(d, actor, r.locationId, s.note.toBranchId)
      case Err(e) => Err(e)
      case Ok(_) =>
        match ReceiveItems(s, r.locationId, r.items)
        case Err(e) => Err(e)
        case Ok(s') => Ok(Settle(s'))
  }

  /** A reason of at most 500 characters once trimmed, and a location except for lost copies. */
  predicate WellFormedResolution(r: Resolution) {
    && r.outcome != Arrived && r.quantity > 0
    && 1 <= |Text.Trim(r.reason)| <= 500
    && (r.outcome == Lost <==> r.locationId == None)
  }

  function Resolve(s: State, d: Directory, actor: Actor, r: Resolution): Result<State> {
    if !WellFormedResolution(r) then Err(BadRequest)
    else if actor.branchId != (if r.outcome == Returned then s.note.fromBranchId else s.note.toBranchId) then
      Err(BranchAccessDenied)
    else if !OnTheWay(s.note.status) then Err(InvalidStatus)
    else match CheckLine(s, r.lineId, r.quantity)
      case Err(e) => Err(e)
      case Ok(k) =>
        match PutResolved(s, d, actor, r, s.note.lines[k])
        case Err(e) => Err(e)
        case Ok(s') => Ok(Settle(Record(s', k, r.outcome, r.quantity, r.locationId)))
  }

  /** Where resolved copies go: damaged stock, a shelf of the sender, or nowhere. */
  function PutResolved(s: State, d: Directory, actor: Actor, r: Resolution, l: Line): (r': Result<State>)
    requires WellFormedResolution(r)
    ensures r'.Ok? ==> r'.value.note == s.note
  {
    match r.outcome
    case Damaged =>
      (match CheckLocation(d, actor, r.locationId.value, s.note.toBranchId)
       case Err(e) => Err(e)
       case Ok(_) =>
         if CostOf(l).units < 0 then Err(NegativeCost)
         else Ok(ReceiveDamaged(s, Shelf(r.locationId.value, l.bookId), r.quantity, CostOf(l))))
    case Returned =>
      (match CheckLocation(d, actor, r.locationId.value, s.note.fromBranchId)
       case Err(e) => Err(e)
       case Ok(_) =>
         if CostOf(l).units < 0 then Err(NegativeCost)
         else Ok(ReceiveStock(s, Shelf(r.locationId.value, l.bookId), r.quantity, CostOf(l), ForTransferReturned)))
    case _ => Ok(s)
  }
}
