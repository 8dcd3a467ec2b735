/** The operations on a note as transactions over the tables they write. */
module TransferDesk {
  import opened MoneyAmounts
  import opened Transfers
  import opened Options

  class Desk {
    var note: Note
    var shelves: Shelves
    var history: seq<Movement>

    ghost function Tables(): State
      reads this
    {
      State(note, shelves, history)
    }

    constructor (s: State)
      ensures Tables() == s
    {
      note, shelves, history := s.note, s.shelves, s.history;
    }

    /** Every line leaves the source in book order; a shelf too short undoes those before. */
    method DispatchNote(actor: Actor) returns (r: Result<()>)
      modifies this
      ensures match Dispatch(old(Tables()), actor)
              case Ok(s) => r == Ok(()) && Tables() == s
              case Err(e) => r == Err(e) && Tables() == old(Tables())
    {
      if note.fromBranchId != actor.branchId {
        return Err(BranchAccessDenied);
      }
      if note.status != Draft {
        return Err(InvalidStatus);
      }
      if !MayUse(actor, note.fromLocationId) {
        return Err(LocationForbidden);
      }
      var lines := InBookOrder(note.lines);
      var savedNote, savedShelves, savedHistory := note, shelves, history;
      var i := 0;
      while i < |lines|
        invariant 0 <= i <= |lines|
        invariant SendLines(old(Tables()), lines[..i]) == Ok(Tables())
        invariant savedNote == old(note) && savedShelves == old(shelves) && savedHistory == old(history)
      {
        SendNext(old(Tables()), lines, i);
        var sent := SendOne(lines[i]);
        if sent.Err? {
          SendFails(old(Tables()), lines, i + 1);
          note, shelves, history := savedNote, savedShelves, savedHistory;
          return sent;
        }
        i := i + 1;
      }
      assert lines[..|lines|] == lines;
      note := note.(status := InTransit);
      return Ok(());
    }

    /** Copies of a line off the source shelf at its average cost, or the refusal of too few. */
    method SendOne(line: Line) returns (r: Result<()>)
      modifies this
      ensures match SendLine(old(Tables()), line)
              case Ok(s) => r == Ok(()) && Tables() == s
              case Err(e) => r == Err(e) && Tables() == old(Tables())
    {
      var shelf := Shelf(note.fromLocationId, line.bookId);
      var level := LevelAt(shelves, shelf);
      var available := if level.quantity < 0 then 0 else level.quantity;
      if available < line.quantity {
        return Err(Error.InsufficientStock);
      }
      shelves := shelves[shelf := level.(quantity := level.quantity - line.quantity)];
      history := history + [Movement(line.bookId, note.fromLocationId, -line.quantity, TransferOut, ForTransferOut)];
      note := note.(lines := SetCost(note.lines, line.id, level.averageCost));
      return Ok(());
    }

    /** Every item is booked in turn; one that is refused undoes those before. */
    method ReceiveNote(d: Directory, actor: Actor, receipt: Receipt) returns (r: Result<()>)
      modifies this
      ensures match Receive(old(Tables()), d, actor, receipt)
              case Ok(s) => r == Ok(()) && Tables() == s
              case Err(e) => r == Err(e) && Tables() == old(Tables())
    {
      if !WellFormedReceipt(receipt) {
        return Err(BadRequest);
      }
      if note.toBranchId != actor.branchId {
        return Err(BranchAccessDenied);
      }
      if !OnTheWay(note.status) {
        return Err(InvalidStatus);
      }
      var allowed := CheckLocation(d, actor, receipt.locationId, note.toBranchId);
      if allowed.Err? {
        return Err(allowed.error);
      }
      var savedNote, savedShelves, savedHistory := note, shelves, history;
      var i := 0;
      while i < |receipt.items|
        invariant 0 <= i <= |receipt.items|
        invariant ReceiveItems(old(Tables()), receipt.locationId, receipt.items[..i]) == Ok(Tables())
        invariant savedNote == old(note) && savedShelves == old(shelves) && savedHistory == old(history)
      {
        ReceiveNext(old(Tables()), receipt.locationId, receipt.items, i);
        var booked := BookItem(receipt.locationId, receipt.items[i]);
        if booked.Err? {
          ReceiveFails(old(Tables()), receipt.locationId, receipt.items, i + 1);
          note, shelves, history := savedNote, savedShelves, savedHistory;
          return booked;
        }
        i := i + 1;
      }
      assert receipt.items[..|receipt.items|] == receipt.items;
      note := note.(status := StatusAfter(note.lines));
      return Ok(());
    }

    /** One item of a receipt, or why it is refused. */
    method BookItem(locationId: int, item: Item) returns (r: Result<()>)
      requires item.quantity > 0
      modifies this
      ensures match ReceiveItem(old(Tables()), locationId, item)
              case Ok(s) => r == Ok(()) && Tables() == s
              case Err(e) => r == Err(e) && Tables() == old(Tables())
    {
      var found := CheckLine(State(note, shelves, history), item.lineId, item.quantity);
      if found.Err? {
        return Err(found.error);
      }
      if CostOf(note.lines[found.value]).units < 0 {
        return Err(NegativeCost);
      }
      Book(locationId, found.value, item.quantity);
      return Ok(());
    }

    /** Copies of a line onto a shelf, its event and its count. */
    method Book(locationId: int, k: nat, quantity: int)
      requires k < |note.lines| && quantity > 0
      modifies this
      ensures Tables() ==
              var l := old(note).lines[k];
              var stocked := ReceiveStock(old(Tables()), Shelf(locationId, l.bookId), quantity, CostOf(l), ForTransferIn);
              Record(stocked, k, Arrived, quantity, Some(locationId))
    {
      var line := note.lines[k];
      var shelf := Shelf(locationId, line.bookId);
      var level := LevelAt(shelves, shelf);
      shelves := shelves[shelf := level.(quantity := level.quantity + quantity,
                                         averageCost := AverageAfter(level, quantity, CostOf(line)))];
      history := history + [Movement(line.bookId, locationId, quantity, TransferIn, ForTransferIn)];
      note := note.(lines := note.lines[k := line.(received := line.received + quantity)],
                    events := note.events + [Event(line.id, Arrived, quantity, Some(locationId))]);
    }
  }

  lemma SendNext(s: State, lines: seq<Line>, i: nat)
    requires i < |lines|
    ensures SendLines(s, lines[..i + 1]) ==
            match SendLines(s, lines[..i])
            case Err(e) => Err(e)
            case Ok(s') => SendLine(s', lines[i])
  {
    assert lines[..i + 1][..i] == lines[..i];
  }

  lemma {:induction false} SendFails(s: State, lines: seq<Line>, i: nat)
    requires i <= |lines| && SendLines(s, lines[..i]).Err?
    ensures SendLines(s, lines) == SendLines(s, lines[..i])
    decreases |lines| - i
  {
    if i < |lines| {
      SendNext(s, lines, i);
      SendFails(s, lines, i + 1);
    } else {
      assert lines[..i] == lines;
    }
  }

  lemma ReceiveNext(s: State, locationId: int, items: seq<Item>, i: nat)
    requires i < |items| && forall j :: 0 <= j < |items| ==> items[j].quantity > 0
    ensures ReceiveItems(s, locationId, items[..i + 1]) ==
            match ReceiveItems(s, locationId, items[..i])
            case Err(e) => Err(e)
            case Ok(s') => ReceiveItem(s', locationId, items[i])
  {
    assert items[..i + 1][..i] == items[..i];
  }

  lemma {:induction false} ReceiveFails(s: State, locationId: int, items: seq<Item>, i: nat)
    requires i <= |items| && forall j :: 0 <= j < |items| ==> items[j].quantity > 0
    requires ReceiveItems(s, locationId, items[..i]).Err?
    ensures ReceiveItems(s, locationId, items) == ReceiveItems(s, locationId, items[..i])
    decreases |items| - i
  {
    if i < |items| {
      ReceiveNext(s, locationId, items, i);
      ReceiveFails(s, locationId, items, i + 1);
    } else {
      assert items[..i] == items;
    }
  }
}
