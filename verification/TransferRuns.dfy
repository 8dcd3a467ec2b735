/** The consistency rules of transfers (apps/api/src/db/checks/rules.ts), kept by every operation on a note. */
module TransferRuns {
  import opened MoneyAmounts
  import opened Transfers
  import opened Options

  // ── The three rules ───────────────────────────────────────────────────────

  function CountOf(l: Line, kind: Kind): int {
    match kind
    case Arrived => l.received
    case Lost => l.lost
    case Damaged => l.damaged
    case Returned => l.returned
  }

  function EventSum(events: seq<Event>, lineId: nat, kind: Kind): int {
    if events == [] then 0
    else
      var e := events[|events| - 1];
      EventSum(events[..|events| - 1], lineId, kind) + if e.lineId == lineId && e.kind == kind then e.quantity else 0
  }

  /** transfers.lines-match-events: each count is the sum of its receipts or resolutions. */
  ghost predicate LinesMatchEvents(n: Note) {
    forall k, kind :: 0 <= k < |n.lines| ==> CountOf(n.lines[k], kind) == EventSum(n.events, n.lines[k].id, kind)
  }

  function SumOver(lines: seq<Line>, f: Line -> int): int {
    if lines == [] then 0 else SumOver(lines[..|lines| - 1], f) + f(lines[|lines| - 1])
  }

  function Quantity(l: Line): int {
    l.quantity
  }

  function ReceivedOf(l: Line): int {
    l.received
  }

  /** transfers.status-matches-lines: no clause of the rule finds the note. */
  ghost predicate StatusMatchesLines(n: Note) {
    var sent, accounted, received := SumOver(n.lines, Quantity), SumOver(n.lines, Accounted), SumOver(n.lines, ReceivedOf);
    var allCosted := forall k :: 0 <= k < |n.lines| ==> n.lines[k].unitCost.Some?;
    var anyCosted := exists k :: 0 <= k < |n.lines| && n.lines[k].unitCost.Some?;
    && !((n.status == Draft || n.status == Cancelled) && (accounted > 0 || anyCosted))
    && !((n.status != Draft && n.status != Cancelled) && !allCosted)
    && !(n.status == InTransit && accounted > 0)
    && !(n.status == PartiallyReceived && (accounted == 0 || accounted == sent))
    && !(n.status == Received && received != sent)
    && !(n.status == Closed && (accounted != sent || received == sent))
  }

  function HistorySent(history: seq<Movement>, bookId: int): int {
    if history == [] then 0
    else
      var m := history[|history| - 1];
      HistorySent(history[..|history| - 1], bookId)
      - if m.bookId == bookId && m.movementType == TransferOut then m.delta else 0
  }

  function HistoryReceived(history: seq<Movement>, bookId: int): int {
    if history == [] then 0
    else
      var m := history[|history| - 1];
      HistoryReceived(history[..|history| - 1], bookId)
      + if m.bookId == bookId && m.movementType == TransferIn && m.reason == ForTransferIn then m.delta else 0
  }

  /** transfers.stock-history: what was sent and received is in the stock history. */
  ghost predicate StockHistoryMatches(s: State) {
    s.note.status != Draft && s.note.status != Cancelled ==>
      forall k :: 0 <= k < |s.note.lines| ==>
        && HistorySent(s.history, s.note.lines[k].bookId) == s.note.lines[k].quantity
        && HistoryReceived(s.history, s.note.lines[k].bookId) == s.note.lines[k].received
  }

  // ── Conservation ──────────────────────────────────────────────────────────

  /** What the history put on shelves of a book, in all. */
  function BookDelta(history: seq<Movement>, bookId: int): int {
    if history == [] then 0
    else
      var m := history[|history| - 1];
      BookDelta(history[..|history| - 1], bookId) + if m.bookId == bookId then m.delta else 0
  }

  /** What the history put on one shelf. */
  function ShelfDelta(history: seq<Movement>, shelf: Shelf): int {
    if history == [] then 0
    else
      var m := history[|history| - 1];
      ShelfDelta(history[..|history| - 1], shelf)
      + if m.bookId == shelf.bookId && m.locationId == shelf.locationId then m.delta else 0
  }

  /** Copies missing from shelves are on the way, lost, or counted damaged. */
  ghost predicate CopiesConserved(s: State) {
    s.note.status != Draft && s.note.status != Cancelled ==>
      forall k :: 0 <= k < |s.note.lines| ==>
        var l := s.note.lines[k];
        BookDelta(s.history, l.bookId) + Outstanding(l) + l.lost + l.damaged == 0
  }

  /** Each shelf holds what it held before the note, and what the history adds. */
  ghost predicate ShelvesMatch(s: State, before: Shelves) {
    forall shelf :: LevelAt(s.shelves, shelf).quantity == LevelAt(before, shelf).quantity + ShelfDelta(s.history, shelf)
  }

  // ── The invariant ─────────────────────────────────────────────────────────

  ghost predicate LineOk(l: Line) {
    l.quantity > 0 && l.received >= 0 && l.lost >= 0 && l.damaged >= 0 && l.returned >= 0 && Outstanding(l) >= 0
  }

  ghost predicate LinesOk(lines: seq<Line>) {
    && |lines| > 0
    && (forall k :: 0 <= k < |lines| ==> LineOk(lines[k]))
    && (forall j, k :: 0 <= j < k < |lines| ==> lines[j].id != lines[k].id)
    && (forall j, k :: 0 <= j < k < |lines| ==> lines[j].bookId != lines[k].bookId)
  }

  ghost predicate NotSent(s: State) {
    && s.note.events == [] && s.history == []
    && forall k :: 0 <= k < |s.note.lines| ==> s.note.lines[k].unitCost == None && Accounted(s.note.lines[k]) == 0
  }

  /** A line of a dispatched note: costed, and its movements are in the history. */
  ghost predicate LineSent(history: seq<Movement>, l: Line) {
    && l.unitCost.Some?
    && HistorySent(history, l.bookId) == l.quantity
    && HistoryReceived(history, l.bookId) == l.received
    && BookDelta(history, l.bookId) + Outstanding(l) + l.lost + l.damaged == 0
  }

  ghost predicate LinesSent(s: State) {
    forall k :: 0 <= k < |s.note.lines| ==> LineSent(s.history, s.note.lines[k])
  }

  ghost predicate Valid(s: State, before: Shelves) {
    && LinesOk(s.note.lines)
    && LinesMatchEvents(s.note)
    && ShelvesMatch(s, before)
    && (if s.note.status == Draft || s.note.status == Cancelled then NotSent(s)
        else LinesSent(s) && s.note.status == StatusAfter(s.note.lines))
  }

  // ── Valid notes obey the rules ────────────────────────────────────────────

  lemma {:induction false} SumBounds(lines: seq<Line>)
    requires forall k :: 0 <= k < |lines| ==> LineOk(lines[k])
    ensures SumOver(lines, Quantity) == SumOver(lines, Accounted) + SumOver(lines, Outstanding)
    ensures SumOver(lines, Outstanding) >= 0
    ensures SumOver(lines, Outstanding) == 0 <==> forall k :: 0 <= k < |lines| ==> Outstanding(lines[k]) == 0
    ensures SumOver(lines, Accounted) >= 0
    ensures SumOver(lines, Accounted) == 0 <==> forall k :: 0 <= k < |lines| ==> Accounted(lines[k]) == 0
    ensures SumOver(lines, ReceivedOf) <= SumOver(lines, Quantity)
    ensures SumOver(lines, ReceivedOf) == SumOver(lines, Quantity) <==> forall k :: 0 <= k < |lines| ==> lines[k].received == lines[k].quantity
  {
    if lines != [] {
      var n := |lines| - 1;
      SumBounds(lines[..n]);
      assert LineOk(lines[n]);
      assert forall k :: 0 <= k < n ==> lines[..n][k] == lines[k];
    }
  }

  lemma ValidObeysRules(s: State, before: Shelves)
    requires Valid(s, before)
    ensures LinesMatchEvents(s.note) && StatusMatchesLines(s.note) && StockHistoryMatches(s) && CopiesConserved(s)
  {
    hide EventSum, HistorySent, HistoryReceived, BookDelta, ShelfDelta, SumOver, LinesMatchEvents, ShelvesMatch;
    var lines := s.note.lines;
    SumBounds(lines);
    assert LineOk(lines[0]);
    if s.note.status != Draft && s.note.status != Cancelled {
      assert forall k :: 0 <= k < |lines| ==> LineSent(s.history, lines[k]) && LineOk(lines[k]);
    }
  }

  // ── Drafting ──────────────────────────────────────────────────────────────

  lemma NewLinesOk(inputs: seq<LineInput>, firstId: nat)
    requires |inputs| >= 1 && DistinctBooks(inputs) && forall i :: 0 <= i < |inputs| ==> inputs[i].quantity > 0
    ensures LinesOk(NewLines(inputs, firstId))
  {
  }

  lemma CreateValid(d: Directory, actor: Actor, r: Request, firstId: nat, shelves: Shelves)
    requires Create(d, actor, r, firstId, shelves).Ok?
    ensures Valid(Create(d, actor, r, firstId, shelves).value, shelves)
  {
    NewLinesOk(r.lines, firstId);
  }

  lemma UpdateKeepsValid(s: State, before: Shelves, d: Directory, actor: Actor, r: Request, firstId: nat)
    requires Valid(s, before) && Update(s, d, actor, r, firstId).Ok?
    ensures Valid(Update(s, d, actor, r, firstId).value, before)
  {
    NewLinesOk(r.lines, firstId);
  }

  // ── Sending ───────────────────────────────────────────────────────────────

  function OutMovements(lines: seq<Line>, locationId: int): (r: seq<Movement>)
    ensures |r| == |lines|
  {
    if lines == [] then []
    else
      var l := lines[|lines| - 1];
      OutMovements(lines[..|lines| - 1], locationId) + [Movement(l.bookId, locationId, -l.quantity, TransferOut, ForTransferOut)]
  }

  /** What sending lines does: their movements, and a cost on each; nothing else of the note changes. */
  lemma {:induction false} SendShape(s: State, sent: seq<Line>)
    requires SendLines(s, sent).Ok?
    ensures var s' := SendLines(s, sent).value;
            && s'.note == s.note.(lines := s'.note.lines)
            && s'.history == s.history + OutMovements(sent, s.note.fromLocationId)
            && |s'.note.lines| == |s.note.lines|
            && forall i :: 0 <= i < |s.note.lines| ==>
                 && s'.note.lines[i] == s.note.lines[i].(unitCost := s'.note.lines[i].unitCost)
                 && ((exists j :: 0 <= j < |sent| && sent[j].id == s.note.lines[i].id) ==> s'.note.lines[i].unitCost.Some?)
  {
    if sent == [] {
      assert s.history + [] == s.history;
    } else {
      var n := |sent| - 1;
      SendShape(s, sent[..n]);
      assert forall j :: 0 <= j < n ==> sent[..n][j] == sent[j];
    }
  }

  lemma ShelfAppend(s: State, s': State, before: Shelves, m: Movement)
    requires ShelvesMatch(s, before) && s'.history == s.history + [m]
    requires forall shelf :: LevelAt(s'.shelves, shelf).quantity == LevelAt(s.shelves, shelf).quantity
               + if m.bookId == shelf.bookId && m.locationId == shelf.locationId then m.delta else 0
    ensures ShelvesMatch(s', before)
  {
    assert s'.history[..|s.history|] == s.history;
  }

  lemma {:induction false} SendKeepsShelves(s: State, sent: seq<Line>, before: Shelves)
    requires SendLines(s, sent).Ok? && ShelvesMatch(s, before)
    ensures ShelvesMatch(SendLines(s, sent).value, before)
  {
    hide ShelvesMatch;
    if sent != [] {
      var n := |sent| - 1;
      SendKeepsShelves(s, sent[..n], before);
      SendShape(s, sent[..n]);
      var s1, l := SendLines(s, sent[..n]).value, sent[n];
      ShelfAppend(s1, SendLines(s, sent).value, before,
                  Movement(l.bookId, s1.note.fromLocationId, -l.quantity, TransferOut, ForTransferOut));
    }
  }

  ghost predicate DistinctLines(lines: seq<Line>) {
    forall j, k :: 0 <= j < k < |lines| ==> lines[j].bookId != lines[k].bookId
  }

  /** What lines sent say of one book: all of its line's copies, and nothing of other books. */
  lemma {:induction false} SentOfBook(sent: seq<Line>, locationId: int, bookId: int)
    requires DistinctLines(sent)
    ensures var out := OutMovements(sent, locationId);
            && HistoryReceived(out, bookId) == 0
            && BookDelta(out, bookId) == -HistorySent(out, bookId)
            && (forall k :: 0 <= k < |sent| && sent[k].bookId == bookId ==> HistorySent(out, bookId) == sent[k].quantity)
            && ((forall k :: 0 <= k < |sent| ==> sent[k].bookId != bookId) ==> HistorySent(out, bookId) == 0)
  {
    if sent != [] {
      var n := |sent| - 1;
      SentOfBook(sent[..n], locationId, bookId);
      var out := OutMovements(sent, locationId);
      assert out[..n] == OutMovements(sent[..n], locationId);
      assert forall k :: 0 <= k < n ==> sent[..n][k] == sent[k];
    }
  }

  /** Sorting keeps lines of different books apart. */
  lemma SortedDistinct(lines: seq<Line>, sorted: seq<Line>)
    requires DistinctLines(lines) && multiset(sorted) == multiset(lines)
    ensures DistinctLines(sorted)
    ensures forall l :: l in sorted <==> l in lines
  {
    assert forall l :: l in sorted <==> l in multiset(sorted);
    assert forall l :: l in lines <==> l in multiset(lines);
    forall j, k | 0 <= j < k < |sorted|
      ensures sorted[j].bookId != sorted[k].bookId
    {
      assert sorted[j] in lines && sorted[k] in lines;
      if sorted[j].bookId == sorted[k].bookId {
        assert sorted[j] == sorted[k];
        TwiceInMultiset(sorted, j, k);
        OnceInMultiset(lines, sorted[j]);
      }
    }
  }

  lemma TwiceInMultiset(lines: seq<Line>, j: nat, k: nat)
    requires j < k < |lines| && lines[j] == lines[k]
    ensures multiset(lines)[lines[j]] >= 2
  {
    assert lines == lines[..j] + [lines[j]] + lines[j + 1..k] + [lines[k]] + lines[k + 1..];
  }

  lemma {:induction false} OnceInMultiset(lines: seq<Line>, l: Line)
    requires DistinctLines(lines)
    ensures multiset(lines)[l] <= 1
  {
    if lines != [] {
      var n := |lines| - 1;
      OnceInMultiset(lines[..n], l);
      assert lines == lines[..n] + [lines[n]];
      if lines[n] == l {
        assert l !in lines[..n];
        assert l !in multiset(lines[..n]);
      }
    }
  }

  /** A line after all lines were sent from a note without history. */
  lemma DispatchedLine(s: State, sorted: seq<Line>, k: nat)
    requires SendLines(s, sorted).Ok? && NotSent(s) && LinesOk(s.note.lines)
    requires DistinctLines(sorted) && k < |s.note.lines| && s.note.lines[k] in sorted
    ensures var sent := SendLines(s, sorted).value;
            && k < |sent.note.lines| && sent.note.lines[k] == s.note.lines[k].(unitCost := sent.note.lines[k].unitCost)
            && LineSent(sent.history, sent.note.lines[k])
  {
    hide HistorySent, HistoryReceived, BookDelta, SendLines;
    var l := s.note.lines[k];
    var sent := SendLines(s, sorted).value;
    SendShape(s, sorted);
    assert sent.history == OutMovements(sorted, s.note.fromLocationId);
    assert LineOk(l) && Accounted(l) == 0;
    var j :| 0 <= j < |sorted| && sorted[j] == l;
    assert sorted[j].id == l.id;
    SentOfBook(sorted, s.note.fromLocationId, l.bookId);
  }

  lemma CostsKeepLines(lines: seq<Line>, costed: seq<Line>)
    requires LinesOk(lines) && |costed| == |lines|
    requires forall k :: 0 <= k < |lines| ==> costed[k] == lines[k].(unitCost := costed[k].unitCost)
    ensures LinesOk(costed)
  {
    forall k | 0 <= k < |lines|
      ensures LineOk(costed[k])
    {
      assert LineOk(lines[k]);
    }
  }

  lemma DispatchKeepsValid(s: State, before: Shelves, actor: Actor)
    requires Valid(s, before) && Dispatch(s, actor).Ok?
    ensures Valid(Dispatch(s, actor).value, before)
  {
    hide EventSum, SendLines, LineSent, ShelfDelta;
    var lines, sorted := s.note.lines, InBookOrder(s.note.lines);
    var sent := SendLines(s, sorted).value;
    SendShape(s, sorted);
    SendKeepsShelves(s, sorted, before);
    SortedDistinct(lines, sorted);
    forall k | 0 <= k < |lines|
      ensures LineSent(sent.history, sent.note.lines[k]) && LineOk(sent.note.lines[k])
      ensures Accounted(sent.note.lines[k]) == 0
    {
      assert LineOk(lines[k]) && Accounted(lines[k]) == 0;
      DispatchedLine(s, sorted, k);
    }
    CostsKeepLines(lines, sent.note.lines);
    DispatchedStatus(sent.note.lines);
    var after := Dispatch(s, actor).value;
    assert ShelvesMatch(after, before);
    forall k, kind | 0 <= k < |lines|
      ensures CountOf(after.note.lines[k], kind) == EventSum(after.note.events, after.note.lines[k].id, kind)
    {
      assert CountOf(lines[k], kind) == EventSum(s.note.events, lines[k].id, kind);
    }
  }

  lemma DispatchedStatus(lines: seq<Line>)
    requires |lines| > 0 && forall k :: 0 <= k < |lines| ==> LineOk(lines[k]) && Accounted(lines[k]) == 0
    ensures StatusAfter(lines) == InTransit
  {
    assert LineOk(lines[0]) && Accounted(lines[0]) == 0;
  }

  /** Enough copies of a line's book on the source shelf. */
  predicate InStock(s: State, l: Line) {
    l.quantity <= LevelAt(s.shelves, Shelf(s.note.fromLocationId, l.bookId)).quantity
  }

  ghost predicate AllInStock(s: State, lines: seq<Line>) {
    forall k :: 0 <= k < |lines| ==> InStock(s, lines[k])
  }

  lemma {:induction false} SentLeavesOthers(s: State, sent: seq<Line>, other: Line)
    requires SendLines(s, sent).Ok? && forall k :: 0 <= k < |sent| ==> sent[k].bookId != other.bookId
    ensures InStock(SendLines(s, sent).value, other) <==> InStock(s, other)
    ensures SendLines(s, sent).value.note.fromLocationId == s.note.fromLocationId
  {
    if sent != [] {
      SentLeavesOthers(s, sent[..|sent| - 1], other);
    }
  }

  lemma AllInStockLast(s: State, lines: seq<Line>)
    requires lines != []
    ensures var n := |lines| - 1; AllInStock(s, lines) <==> AllInStock(s, lines[..n]) && InStock(s, lines[n])
  {
    hide InStock;
  }

  lemma {:induction false} SendAccepted(s: State, sent: seq<Line>)
    requires DistinctLines(sent) && forall k :: 0 <= k < |sent| ==> sent[k].quantity > 0
    ensures SendLines(s, sent).Ok? <==> AllInStock(s, sent)
  {
    if sent != [] {
      var n := |sent| - 1;
      AllInStockLast(s, sent);
      SendAccepted(s, sent[..n]);
      hide AllInStock, InStock, SendLine;
      if SendLines(s, sent[..n]).Ok? {
        SentLeavesOthers(s, sent[..n], sent[n]);
        SentAlone(SendLines(s, sent[..n]).value, sent[n]);
      }
    }
  }

  lemma SentAlone(s: State, l: Line)
    requires l.quantity > 0
    ensures SendLine(s, l).Ok? <==> InStock(s, l)
  {
  }

  /**
   * A draft is dispatched exactly when its sending branch asks, through someone
   * who may use the source location, and the shelf has enough of every book.
   */
  lemma DispatchAccepts(s: State, before: Shelves, actor: Actor)
    requires Valid(s, before)
    ensures Dispatch(s, actor).Ok? <==>
              && s.note.fromBranchId == actor.branchId && s.note.status == Draft
              && (actor.limitedTo == {} || s.note.fromLocationId in actor.limitedTo)
              && AllInStock(s, s.note.lines)
  {
    hide InStock, LinesMatchEvents, ShelvesMatch, NotSent, LinesSent;
    var lines, sorted := s.note.lines, InBookOrder(s.note.lines);
    SortedDistinct(lines, sorted);
    forall k | 0 <= k < |sorted|
      ensures sorted[k].quantity > 0
    {
      assert sorted[k] in lines;
    }
    forall k | 0 <= k < |lines|
      ensures lines[k] in sorted
    {
      assert lines[k] in lines;
    }
    forall k | 0 <= k < |sorted|
      ensures sorted[k] in lines
    {
      assert sorted[k] in sorted;
    }
    SendAccepted(s, sorted);
  }

  ghost predicate ByBook(lines: seq<Line>) {
    forall j, k :: 0 <= j < k < |lines| ==> lines[j].bookId <= lines[k].bookId
  }

  lemma {:induction false} InsertKeepsOrder(l: Line, lines: seq<Line>)
    requires ByBook(lines)
    ensures ByBook(InsertByBook(l, lines))
  {
    if lines != [] && l.bookId >= lines[0].bookId {
      InsertKeepsOrder(l, lines[1..]);
      var rest := InsertByBook(l, lines[1..]);
      forall k | 0 <= k < |rest|
        ensures lines[0].bookId <= rest[k].bookId
      {
        assert rest[k] in multiset(rest);
        assert rest[k] in multiset(lines[1..]) + multiset{l};
      }
    }
  }

  /** Copies leave in the order of their books, so two notes that share a shelf lock its rows in one order. */
  lemma {:induction false} SentInBookOrder(lines: seq<Line>)
    ensures ByBook(InBookOrder(lines)) && multiset(InBookOrder(lines)) == multiset(lines)
  {
    if lines != [] {
      var n := |lines| - 1;
      SentInBookOrder(lines[..n]);
      InsertKeepsOrder(lines[n], InBookOrder(lines[..n]));
    }
  }

  /** Stock sent never takes a shelf below zero. */
  lemma SendNeverBelowZero(s: State, l: Line)
    requires SendLine(s, l).Ok? && l.quantity > 0
    ensures LevelAt(SendLine(s, l).value.shelves, Shelf(s.note.fromLocationId, l.bookId)).quantity >= 0
  {
  }

  // ── Receiving and resolving ───────────────────────────────────────────────

  /** What holds of a dispatched note between two of its lines being booked. */
  ghost predicate Booking(s: State, before: Shelves) {
    LinesOk(s.note.lines) && LinesMatchEvents(s.note) && ShelvesMatch(s, before) && LinesSent(s)
  }

  lemma RecordKeepsLines(s: State, k: nat, kind: Kind, quantity: int, locationId: Option<int>)
    requires LinesOk(s.note.lines) && LinesMatchEvents(s.note)
    requires k < |s.note.lines| && 0 < quantity <= Outstanding(s.note.lines[k])
    ensures var n := Record(s, k, kind, quantity, locationId).note; LinesOk(n.lines) && LinesMatchEvents(n)
  {
    var n := Record(s, k, kind, quantity, locationId).note;
    assert LineOk(s.note.lines[k]);
    assert n.events[..|s.note.events|] == s.note.events;
    forall j, other | 0 <= j < |n.lines|
      ensures CountOf(n.lines[j], other) == EventSum(n.events, n.lines[j].id, other)
    {
      assert CountOf(s.note.lines[j], other) == EventSum(s.note.events, s.note.lines[j].id, other);
      assert j != k ==> s.note.lines[j].id != s.note.lines[k].id;
    }
  }

  lemma HistoryAppend(history: seq<Movement>, m: Movement, bookId: int)
    ensures var more := history + [m];
            && HistorySent(more, bookId) ==
               HistorySent(history, bookId) - (if m.bookId == bookId && m.movementType == TransferOut then m.delta else 0)
            && HistoryReceived(more, bookId) ==
               HistoryReceived(history, bookId)
               + (if m.bookId == bookId && m.movementType == TransferIn && m.reason == ForTransferIn then m.delta else 0)
            && BookDelta(more, bookId) == BookDelta(history, bookId) + if m.bookId == bookId then m.delta else 0
  {
    assert (history + [m])[..|history|] == history;
  }

  /** A booked line agrees with the history that the booking added to, and other lines are untouched. */
  lemma BookedLines(s: State, s': State, k: nat, kind: Kind, quantity: int, locationId: Option<int>, m: seq<Movement>)
    requires LinesOk(s.note.lines) && LinesSent(s) && k < |s.note.lines|
    requires s'.note == Record(s, k, kind, quantity, locationId).note && s'.history == s.history + m
    requires var bookId := s.note.lines[k].bookId;
             match kind
             case Arrived => exists at :: m == [Movement(bookId, at, quantity, TransferIn, ForTransferIn)]
             case Lost => m == []
             case Damaged => exists at :: m == [Movement(bookId, at, 0, StockIn, ForDamage)]
             case Returned => exists at :: m == [Movement(bookId, at, quantity, TransferIn, ForTransferReturned)]
    ensures LinesSent(s')
  {
    hide HistorySent, HistoryReceived, BookDelta;
    forall j | 0 <= j < |s'.note.lines|
      ensures LineSent(s'.history, s'.note.lines[j])
    {
      assert LineSent(s.history, s.note.lines[j]);
      assert j != k ==> s.note.lines[j].bookId != s.note.lines[k].bookId;
      if m == [] {
        assert s.history + m == s.history;
      } else {
        assert m == [m[0]];
        HistoryAppend(s.history, m[0], s.note.lines[j].bookId);
      }
    }
  }

  lemma ReceiveItemKeeps(s: State, before: Shelves, locationId: int, item: Item)
    requires Booking(s, before) && item.quantity > 0 && ReceiveItem(s, locationId, item).Ok?
    ensures Booking(ReceiveItem(s, locationId, item).value, before)
    ensures OutstandingTotal(ReceiveItem(s, locationId, item).value) < OutstandingTotal(s)
    ensures ReceiveItem(s, locationId, item).value.note.toBranchId == s.note.toBranchId
  {
    hide StockCosts.AverageCostAfterReceipt, EventSum, HistorySent, HistoryReceived, BookDelta, ShelfDelta;
    var k := CheckLine(s, item.lineId, item.quantity).value;
    var l := s.note.lines[k];
    var s' := ReceiveItem(s, locationId, item).value;
    var m := Movement(l.bookId, locationId, item.quantity, TransferIn, ForTransferIn);
    RecordKeepsLines(s, k, Arrived, item.quantity, Some(locationId));
    ShelfAppend(s, s', before, m);
    BookedLines(s, s', k, Arrived, item.quantity, Some(locationId), [m]);
    SumUpdate(s.note.lines, k, Counted(l, Arrived, item.quantity));
  }

  function OutstandingTotal(s: State): int {
    SumOver(s.note.lines, Outstanding)
  }

  lemma {:induction false} SumUpdate(lines: seq<Line>, k: nat, l: Line)
    requires k < |lines|
    ensures SumOver(lines[k := l], Outstanding) == SumOver(lines, Outstanding) - Outstanding(lines[k]) + Outstanding(l)
  {
    var n := |lines| - 1;
    if k < n {
      SumUpdate(lines[..n], k, l);
      assert lines[k := l][..n] == lines[..n][k := l];
    } else {
      assert lines[k := l][..n] == lines[..n];
    }
  }

  lemma {:induction false} ReceiveItemsKeep(s: State, before: Shelves, locationId: int, items: seq<Item>)
    requires Booking(s, before) && forall i :: 0 <= i < |items| ==> items[i].quantity > 0
    requires ReceiveItems(s, locationId, items).Ok?
    ensures Booking(ReceiveItems(s, locationId, items).value, before)
    ensures OutstandingTotal(ReceiveItems(s, locationId, items).value) <= OutstandingTotal(s) - |items|
  {
    hide Booking, ReceiveItem, SumOver;
    if items != [] {
      var n := |items| - 1;
      ReceiveItemsKeep(s, before, locationId, items[..n]);
      ReceiveItemKeeps(ReceiveItems(s, locationId, items[..n]).value, before, locationId, items[n]);
    }
  }

  lemma ReceiveKeepsValid(s: State, before: Shelves, d: Directory, actor: Actor, r: Receipt)
    requires Valid(s, before) && Receive(s, d, actor, r).Ok?
    ensures Valid(Receive(s, d, actor, r).value, before)
    ensures OutstandingTotal(Receive(s, d, actor, r).value) < OutstandingTotal(s)
  {
    hide ReceiveItems, SumOver, EventSum, ShelvesMatch;
    ReceiveItemsKeep(s, before, r.locationId, r.items);
    SettledIsValid(ReceiveItems(s, r.locationId, r.items).value, before);
  }

  /** A line of the note has that many copies on the way, at a cost that can be booked. */
  predicate Bookable(lines: seq<Line>, item: Item) {
    var k := FindLine(lines, item.lineId);
    k < |lines| && item.quantity <= Outstanding(lines[k]) && CostOf(lines[k]).units >= 0
  }

  lemma FindSame(a: seq<Line>, b: seq<Line>, id: nat)
    requires |a| == |b| && forall k :: 0 <= k < |a| ==> a[k].id == b[k].id
    ensures FindLine(a, id) == FindLine(b, id)
  {
  }

  /** Booking one item leaves the items of other lines as bookable as before. */
  lemma OthersStayBookable(s: State, locationId: int, item: Item, other: Item)
    requires item.quantity > 0 && ReceiveItem(s, locationId, item).Ok? && other.lineId != item.lineId
    ensures Bookable(ReceiveItem(s, locationId, item).value.note.lines, other) <==> Bookable(s.note.lines, other)
  {
    hide FindLine;
    FindSame(s.note.lines, ReceiveItem(s, locationId, item).value.note.lines, other.lineId);
  }

  lemma {:induction false} AllLeaveBookable(s: State, locationId: int, items: seq<Item>, other: Item)
    requires forall i :: 0 <= i < |items| ==> items[i].quantity > 0 && items[i].lineId != other.lineId
    requires ReceiveItems(s, locationId, items).Ok?
    ensures Bookable(ReceiveItems(s, locationId, items).value.note.lines, other) <==> Bookable(s.note.lines, other)
  {
    hide Bookable, ReceiveItem;
    if items != [] {
      var n := |items| - 1;
      AllLeaveBookable(s, locationId, items[..n], other);
      OthersStayBookable(ReceiveItems(s, locationId, items[..n]).value, locationId, items[n], other);
    }
  }

  ghost predicate AllBookable(lines: seq<Line>, items: seq<Item>) {
    forall i :: 0 <= i < |items| ==> Bookable(lines, items[i])
  }

  lemma AllBookableLast(lines: seq<Line>, items: seq<Item>)
    requires items != []
    ensures var n := |items| - 1;
            AllBookable(lines, items) <==> AllBookable(lines, items[..n]) && Bookable(lines, items[n])
  {
    hide Bookable;
  }

  lemma {:induction false} ItemsAccepted(s: State, locationId: int, items: seq<Item>)
    requires forall i :: 0 <= i < |items| ==> items[i].quantity > 0
    requires forall i, j :: 0 <= i < j < |items| ==> items[i].lineId != items[j].lineId
    ensures ReceiveItems(s, locationId, items).Ok? <==> AllBookable(s.note.lines, items)
  {
    if items != [] {
      var n := |items| - 1;
      AllBookableLast(s.note.lines, items);
      ItemsAccepted(s, locationId, items[..n]);
      hide Bookable, ReceiveItem, AllBookable;
      if ReceiveItems(s, locationId, items[..n]).Ok? {
        AllLeaveBookable(s, locationId, items[..n], items[n]);
        AcceptedAlone(ReceiveItems(s, locationId, items[..n]).value, locationId, items[n]);
      }
    }
  }

  lemma AcceptedAlone(s: State, locationId: int, item: Item)
    requires item.quantity > 0
    ensures ReceiveItem(s, locationId, item).Ok? <==> Bookable(s.note.lines, item)
  {
  }

  /**
   * A receipt is booked exactly when it comes from the receiving branch, for a
   * note on its way, into a location the actor may use there, and each of its
   * items names a line with that many copies on the way: the items do not get
   * in each other's way, and one that is refused refuses them all.
   */
  lemma ReceiveAccepts(s: State, d: Directory, actor: Actor, r: Receipt)
    ensures Receive(s, d, actor, r).Ok? <==>
              && |r.items| >= 1 && (forall i :: 0 <= i < |r.items| ==> r.items[i].quantity > 0)
              && (forall i, j :: 0 <= i < j < |r.items| ==> r.items[i].lineId != r.items[j].lineId)
              && s.note.toBranchId == actor.branchId
              && (s.note.status == InTransit || s.note.status == PartiallyReceived)
              && r.locationId in d.locations && d.locations[r.locationId] == s.note.toBranchId
              && (actor.limitedTo == {} || r.locationId in actor.limitedTo)
              && AllBookable(s.note.lines, r.items)
  {
    hide Bookable, AllBookable, ReceiveItems;
    if WellFormedReceipt(r) {
      ItemsAccepted(s, r.locationId, r.items);
    }
  }

  lemma SettledIsValid(s: State, before: Shelves)
    requires Booking(s, before)
    ensures Valid(Settle(s), before)
  {
    assert LinesMatchEvents(Settle(s).note);
    assert ShelvesMatch(Settle(s), before);
    assert LinesSent(Settle(s));
  }

  lemma ResolveKeepsValid(s: State, before: Shelves, d: Directory, actor: Actor, r: Resolution)
    requires Valid(s, before) && Resolve(s, d, actor, r).Ok?
    ensures Valid(Resolve(s, d, actor, r).value, before)
    ensures OutstandingTotal(Resolve(s, d, actor, r).value) < OutstandingTotal(s)
  {
    hide StockCosts.AverageCostAfterReceipt, EventSum, HistorySent, HistoryReceived, BookDelta, ShelfDelta;
    var k := CheckLine(s, r.lineId, r.quantity).value;
    var l := s.note.lines[k];
    var put := PutResolved(s, d, actor, r, l).value;
    var s' := Record(put, k, r.outcome, r.quantity, r.locationId);
    RecordKeepsLines(s, k, r.outcome, r.quantity, r.locationId);
    if r.outcome == Damaged {
      var m := Movement(l.bookId, r.locationId.value, 0, StockIn, ForDamage);
      ShelfAppend(s, s', before, m);
      BookedLines(s, s', k, r.outcome, r.quantity, r.locationId, [m]);
    } else if r.outcome == Returned {
      var m := Movement(l.bookId, r.locationId.value, r.quantity, TransferIn, ForTransferReturned);
      ShelfAppend(s, s', before, m);
      BookedLines(s, s', k, r.outcome, r.quantity, r.locationId, [m]);
    } else {
      assert s.history + [] == s.history;
      assert ShelvesMatch(s', before);
      BookedLines(s, s', k, r.outcome, r.quantity, r.locationId, []);
    }
    SumUpdate(s.note.lines, k, Counted(l, r.outcome, r.quantity));
    SettledIsValid(s', before);
  }

  // ── Every run of a note ───────────────────────────────────────────────────

  datatype Operation =
    | DoUpdate(actor: Actor, request: Request, firstId: nat)
    | DoCancel(actor: Actor)
    | DoDispatch(actor: Actor)
    | DoReceive(actor: Actor, receipt: Receipt)
    | DoResolve(actor: Actor, resolution: Resolution)

  function Do(s: State, d: Directory, op: Operation): Result<State> {
    match op
    case DoUpdate(actor, request, firstId) => Update(s, d, actor, request, firstId)
    case DoCancel(actor) => Cancel(s, actor)
    case DoDispatch(actor) => Dispatch(s, actor)
    case DoReceive(actor, receipt) => Receive(s, d, actor, receipt)
    case DoResolve(actor, resolution) => Resolve(s, d, actor, resolution)
  }

  /**
   * What happens to a note and to its shelves: an operation on the note, with
   * the branches, locations and books as they are at that moment, or anything
   * else that moves stock (sales, receipts, counts, other notes).
   */
  datatype Step = Act(d: Directory, op: Operation) | Elsewhere(shelves: Shelves)

  /** The note after some steps; a refused operation changes nothing. */
  function Run(s: State, steps: seq<Step>): State {
    if steps == [] then s
    else
      var s' := Run(s, steps[..|steps| - 1]);
      match steps[|steps| - 1]
      case Elsewhere(shelves) => s'.(shelves := shelves)
      case Act(d, op) =>
        match Do(s', d, op)
        case Ok(next) => next
        case Err(_) => s'
  }

  /** What others put on a shelf during a run. */
  function MovedElsewhere(s: State, steps: seq<Step>, shelf: Shelf): int {
    if steps == [] then 0
    else
      var first := steps[..|steps| - 1];
      MovedElsewhere(s, first, shelf)
      + match steps[|steps| - 1]
        case Elsewhere(shelves) => LevelAt(shelves, shelf).quantity - LevelAt(Run(s, first).shelves, shelf).quantity
        case Act(_, _) => 0
  }

  lemma DoKeepsValid(s: State, before: Shelves, d: Directory, op: Operation)
    requires Valid(s, before) && Do(s, d, op).Ok?
    ensures Valid(Do(s, d, op).value, before)
  {
    hide Update, Dispatch, Receive, Resolve, EventSum, ShelfDelta;
    match op
    case DoUpdate(actor, request, firstId) => UpdateKeepsValid(s, before, d, actor, request, firstId);
    case DoCancel(actor) =>
      assert LinesMatchEvents(Cancel(s, actor).value.note);
      assert ShelvesMatch(Cancel(s, actor).value, before);
    case DoDispatch(actor) => DispatchKeepsValid(s, before, actor);
    case DoReceive(actor, receipt) => ReceiveKeepsValid(s, before, d, actor, receipt);
    case DoResolve(actor, resolution) => ResolveKeepsValid(s, before, d, actor, resolution);
  }

  /** Others moved stock: the note is as valid as before, measured from shelves that had moved all along. */
  lemma ElsewhereKeepsValid(s: State, before: Shelves, shelves: Shelves) returns (base: Shelves)
    requires Valid(s, before)
    ensures Valid(s.(shelves := shelves), base)
    ensures forall shelf :: LevelAt(base, shelf).quantity ==
              LevelAt(before, shelf).quantity + LevelAt(shelves, shelf).quantity - LevelAt(s.shelves, shelf).quantity
  {
    base := map shelf | shelf in before.Keys + shelves.Keys + s.shelves.Keys ::
              LevelAt(before, shelf).(quantity := LevelAt(before, shelf).quantity + LevelAt(shelves, shelf).quantity
                                                  - LevelAt(s.shelves, shelf).quantity);
    var s' := s.(shelves := shelves);
    hide EventSum, ShelfDelta, LineSent, StatusAfter;
    assert LinesMatchEvents(s'.note);
    assert ShelvesMatch(s', base);
  }

  lemma {:induction false} RunKeepsValid(s: State, before: Shelves, steps: seq<Step>) returns (base: Shelves)
    requires Valid(s, before)
    ensures Valid(Run(s, steps), base)
    ensures forall shelf :: LevelAt(base, shelf).quantity == LevelAt(before, shelf).quantity + MovedElsewhere(s, steps, shelf)
  {
    hide Valid, Do;
    if steps == [] {
      base := before;
    } else {
      var first, last := steps[..|steps| - 1], steps[|steps| - 1];
      base := RunKeepsValid(s, before, first);
      match last
      case Elsewhere(shelves) => base := ElsewhereKeepsValid(Run(s, first), base, shelves);
      case Act(d, op) =>
        if Do(Run(s, first), d, op).Ok? {
          DoKeepsValid(Run(s, first), base, d, op);
        }
    }
  }

  /**
   * Whatever is done to a note, by whomever and in whatever order, and whatever
   * else moves stock in between: the three rules hold, no copy appears or
   * vanishes, and each shelf holds what it held, what others put there, and
   * what the history of the note says.
   */
  lemma RulesHoldAlways(d: Directory, actor: Actor, r: Request, firstId: nat, before: Shelves, steps: seq<Step>)
    requires Create(d, actor, r, firstId, before).Ok?
    ensures var created := Create(d, actor, r, firstId, before).value;
            var s := Run(created, steps);
            && LinesMatchEvents(s.note) && StatusMatchesLines(s.note) && StockHistoryMatches(s) && CopiesConserved(s)
            && forall shelf :: LevelAt(s.shelves, shelf).quantity ==
                 LevelAt(before, shelf).quantity + MovedElsewhere(created, steps, shelf) + ShelfDelta(s.history, shelf)
  {
    hide LinesMatchEvents, StatusMatchesLines, StockHistoryMatches, CopiesConserved, Create, ShelfDelta;
    CreateValid(d, actor, r, firstId, before);
    var created := Create(d, actor, r, firstId, before).value;
    var base := RunKeepsValid(created, before, steps);
    ValidObeysRules(Run(created, steps), base);
    assert ShelvesMatch(Run(created, steps), base);
  }

  function ActorOf(op: Operation): Actor {
    match op
    case DoUpdate(actor, _, _) => actor
    case DoCancel(actor) => actor
    case DoDispatch(actor) => actor
    case DoReceive(actor, _) => actor
    case DoResolve(actor, _) => actor
  }

  /**
   * Which branch acts and when: the sender on its drafts, which it alone edits,
   * cancels and dispatches; on the way the receiver, and the sender for copies
   * that came back.
   */
  lemma WhoActsWhen(s: State, d: Directory, op: Operation)
    requires Do(s, d, op).Ok?
    ensures var (note, note') := (s.note, Do(s, d, op).value.note);
            && note'.fromBranchId == note.fromBranchId
            && (!op.DoUpdate? ==> note'.toBranchId == note.toBranchId && note'.fromLocationId == note.fromLocationId)
            && (op.DoUpdate? || op.DoCancel? || op.DoDispatch? ==>
                  note.status == Draft && ActorOf(op).branchId == note.fromBranchId)
            && (op.DoReceive? || op.DoResolve? ==> note.status == InTransit || note.status == PartiallyReceived)
            && (op.DoReceive? ==> ActorOf(op).branchId == note.toBranchId)
            && (op.DoResolve? ==>
                  ActorOf(op).branchId == if op.resolution.outcome == Returned then note.fromBranchId else note.toBranchId)
            && (op.DoCancel? ==> note' == note.(status := Cancelled) && Do(s, d, op).value == s.(note := note'))
  {
    hide ReceiveItems, SendLines, PutResolved, StatusAfter, CheckLine;
    match op
    case DoDispatch(actor) => SendShape(s, InBookOrder(s.note.lines));
    case DoReceive(actor, receipt) => ReceiptKeepsBranches(s, receipt.locationId, receipt.items);
    case _ =>
  }

  lemma ItemKeepsBranches(s: State, locationId: int, item: Item)
    requires item.quantity > 0 && ReceiveItem(s, locationId, item).Ok?
    ensures SameBranches(s.note, ReceiveItem(s, locationId, item).value.note)
  {
  }

  ghost predicate SameBranches(a: Note, b: Note) {
    b.fromBranchId == a.fromBranchId && b.toBranchId == a.toBranchId && b.fromLocationId == a.fromLocationId
  }

  lemma {:induction false} ReceiptKeepsBranches(s: State, locationId: int, items: seq<Item>)
    requires forall i :: 0 <= i < |items| ==> items[i].quantity > 0
    requires ReceiveItems(s, locationId, items).Ok?
    ensures SameBranches(s.note, ReceiveItems(s, locationId, items).value.note)
  {
    hide ReceiveItem;
    if items != [] {
      var n := |items| - 1;
      ReceiptKeepsBranches(s, locationId, items[..n]);
      ItemKeepsBranches(ReceiveItems(s, locationId, items[..n]).value, locationId, items[n]);
    }
  }

  /** A request a branch may make: to another branch that is open, from a location of its own, of active books, each once. */
  ghost predicate Orderable(d: Directory, branchId: int, r: Request) {
    && r.toBranchId != branchId && r.toBranchId in d.branches && d.branches[r.toBranchId]
    && r.fromLocationId in d.locations && d.locations[r.fromLocationId] == branchId
    && 1 <= |r.lines| <= 200
    && (forall k :: 0 <= k < |r.lines| ==> r.lines[k].quantity > 0 && r.lines[k].bookId in d.books)
    && (forall j, k :: 0 <= j < k < |r.lines| ==> r.lines[j].bookId != r.lines[k].bookId)
  }

  /** A draft of what was asked for, line by line. */
  ghost predicate DraftedAs(n: Note, branchId: int, r: Request) {
    && n.status == Draft && n.events == []
    && n.fromBranchId == branchId && n.fromLocationId == r.fromLocationId && n.toBranchId == r.toBranchId
    && |n.lines| == |r.lines|
    && forall k :: 0 <= k < |n.lines| ==>
         && n.lines[k].bookId == r.lines[k].bookId && n.lines[k].quantity == r.lines[k].quantity
         && n.lines[k].unitCost == None && Accounted(n.lines[k]) == 0
  }

  /**
   * A note is created exactly when its request may be made, and a draft replaced
   * exactly when its sender may make the new one: as the request says, line by
   * line, and without moving stock.
   */
  lemma DraftIsTheRequest(s: State, before: Shelves, d: Directory, actor: Actor, r: Request, firstId: nat)
    requires Valid(s, before)
    ensures var created := Create(d, actor, r, firstId, before);
            && (created.Ok? <==> Orderable(d, actor.branchId, r))
            && (created.Ok? ==>
                  DraftedAs(created.value.note, actor.branchId, r) && created.value == State(created.value.note, before, []))
    ensures var updated := Update(s, d, actor, r, firstId);
            && (updated.Ok? <==>
                  s.note.fromBranchId == actor.branchId && s.note.status == Draft && Orderable(d, actor.branchId, r))
            && (updated.Ok? ==>
                  DraftedAs(updated.value.note, actor.branchId, r) && updated.value == s.(note := updated.value.note))
  {
    hide LinesMatchEvents, ShelvesMatch, LinesSent, LinesOk;
  }

  predicate Final(s: Status) {
    s == Received || s == Closed || s == Cancelled
  }

  lemma EndedIsFinal(s: State, d: Directory, op: Operation)
    requires Final(s.note.status)
    ensures Do(s, d, op).Err?
  {
  }

  /** A note that ended stays as it is, and so does its stock history, whatever is tried. */
  lemma {:induction false} EndedForGood(s: State, steps: seq<Step>)
    requires Final(s.note.status)
    ensures Run(s, steps).note == s.note && Run(s, steps).history == s.history
  {
    hide Do;
    if steps != [] {
      var first, last := steps[..|steps| - 1], steps[|steps| - 1];
      EndedForGood(s, first);
      if last.Act? {
        EndedIsFinal(Run(s, first), last.d, last.op);
      }
    }
  }

  /**
   * A dispatched note is over exactly when nothing is on the way, and then it
   * is Received when every copy arrived and Closed when the rest was resolved.
   */
  lemma EndsWhenNothingIsOnTheWay(s: State, before: Shelves)
    requires Valid(s, before) && s.note.status != Draft && s.note.status != Cancelled
    ensures Final(s.note.status) <==> OutstandingTotal(s) == 0
    ensures s.note.status == Received <==> SumOver(s.note.lines, ReceivedOf) == SumOver(s.note.lines, Quantity)
    ensures s.note.status == Closed <==>
              OutstandingTotal(s) == 0 && SumOver(s.note.lines, ReceivedOf) < SumOver(s.note.lines, Quantity)
  {
    hide SumOver, LinesMatchEvents, ShelvesMatch;
    SumBounds(s.note.lines);
    assert forall k :: 0 <= k < |s.note.lines| ==> LineOk(s.note.lines[k]);
  }
}
