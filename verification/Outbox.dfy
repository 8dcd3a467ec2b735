/**
 * The outbox, its pollers and the loyalty handler as steps that can be cut
 * short anywhere (apps/api/src/workers/outboxPoller.ts, loyaltyWorker.ts). A
 * handler commits on a connection of its own; the statuses of a batch are
 * written in the poller's transaction and commit later, or not at all.
 */
module Outbox {
  import opened Options

  const BATCH_SIZE: nat := 50

  /** An event by what handles it: the loyalty handler, a notification handler, or none. */
  datatype Event =
    | LoyaltyAccrual(customerId: int, transactionRef: string, subtotal: Option<real>)
    | Notification
    | Unhandled

  datatype Status = Pending | Published | Failed

  datatype Row = Row(event: Event, status: Status)

  datatype Account = Account(pointsBalance: real, lifetimePoints: real)

  datatype Reason = ACCRUAL | REDEMPTION | REFUND | VOID_REVERSAL | RETURN_REVERSAL | OPENING_BALANCE

  datatype Entry = Entry(customerId: int, transactionRef: string, pointsDelta: real, reason: Reason)

  /** How a handler came to return. */
  datatype Outcome = Accrued | AlreadyAccrued | NotDue | NoAccount | Notified

  datatype Handler = Starting | Accruing(points: int)

  /** A poller between polls, or in one: its locked rows, the row it is at, and the statuses not yet committed. */
  datatype Poller = Idle | Polling(batch: seq<nat>, next: nat, marks: map<nat, Status>, handler: Handler)

  /** The tables (outbox rows in order of creation, an index as id), the pollers, and a record of handlers that returned. */
  datatype World = World(
    outbox: seq<Row>,
    accounts: map<int, Account>,
    history: seq<Entry>,
    pollers: seq<Poller>,
    returned: map<nat, Outcome>
  )

  datatype Step =
    | NewEvent(event: Event)
    | NewAccount(customerId: int)
    | OtherEntry(entry: Entry)
    | Select(p: nat)
    | Check(p: nat, rate: real, minAmount: real)
    | Accrue(p: nat, acknowledged: bool)
    | Notify(p: nat)
    | Skip(p: nat)
    | HandlerThrows(p: nat)
    | Commit(p: nat)
    | Crash(p: nat)

  // ── Tables ────────────────────────────────────────────────────────────────

  /** Sales are numbered POS-; orders, which earn points without the outbox, are not. */
  predicate IsSaleRef(ref: string) {
    "POS-" <= ref
  }

  predicate HasFields(e: Event)
    requires e.LoyaltyAccrual?
  {
    e.customerId != 0 && e.transactionRef != "" && e.subtotal.Some?
  }

  predicate IsAccrual(entry: Entry, customerId: int, ref: string) {
    entry.customerId == customerId && entry.transactionRef == ref && entry.reason == ACCRUAL
  }

  predicate HasAccrual(history: seq<Entry>, customerId: int, ref: string) {
    exists i :: 0 <= i < |history| && IsAccrual(history[i], customerId, ref)
  }

  /** Points added to an account, and to its lifetime total when they were earned. */
  function Credit(a: Account, entry: Entry): Account {
    Account(a.pointsBalance + entry.pointsDelta,
            if entry.pointsDelta > 0.0 && (entry.reason == ACCRUAL || entry.reason == OPENING_BALANCE)
            then a.lifetimePoints + entry.pointsDelta else a.lifetimePoints)
  }

  predicate IsLocked(pollers: seq<Poller>, id: nat) {
    exists p :: 0 <= p < |pollers| && pollers[p].Polling? && id in pollers[p].batch
  }

  /** The pending rows from `i` on that no poller holds, in order. */
  function Available(outbox: seq<Row>, pollers: seq<Poller>, i: nat): (ids: seq<nat>)
    requires i <= |outbox|
    ensures forall k :: 0 <= k < |ids| ==> i <= ids[k] < |outbox| && outbox[ids[k]].status == Pending && !IsLocked(pollers, ids[k])
    ensures forall j, k :: 0 <= j < k < |ids| ==> ids[j] < ids[k]
    decreases |outbox| - i
  {
    if i == |outbox| then []
    else (if outbox[i].status == Pending && !IsLocked(pollers, i) then [i] else []) + Available(outbox, pollers, i + 1)
  }

  function Batch(w: World): (ids: seq<nat>)
    ensures |ids| <= BATCH_SIZE
  {
    var ids := Available(w.outbox, w.pollers, 0);
    if |ids| <= BATCH_SIZE then ids else ids[..BATCH_SIZE]
  }

  // ── Steps ─────────────────────────────────────────────────────────────────

  predicate At(w: World, p: nat) {
    p < |w.pollers| && w.pollers[p].Polling? && w.pollers[p].next < |w.pollers[p].batch|
    && w.pollers[p].batch[w.pollers[p].next] < |w.outbox|
  }

  function Current(w: World, p: nat): nat
    requires At(w, p)
  {
    w.pollers[p].batch[w.pollers[p].next]
  }

  function CurrentEvent(w: World, p: nat): Event
    requires At(w, p)
  {
    w.outbox[Current(w, p)].event
  }

  predicate Enabled(w: World, step: Step) {
    match step
    case NewEvent(e) => e.LoyaltyAccrual? ==> e.transactionRef == "" || IsSaleRef(e.transactionRef)
    case NewAccount(c) => c !in w.accounts
    case OtherEntry(entry) => entry.customerId in w.accounts && (entry.reason == ACCRUAL ==> !IsSaleRef(entry.transactionRef))
    case Select(p) => p < |w.pollers| && w.pollers[p].Idle?
    case Check(p, _, _) => At(w, p) && w.pollers[p].handler == Starting && CurrentEvent(w, p).LoyaltyAccrual?
    case Accrue(p, _) => At(w, p) && w.pollers[p].handler.Accruing? && CurrentEvent(w, p).LoyaltyAccrual?
    case Notify(p) => At(w, p) && w.pollers[p].handler == Starting && CurrentEvent(w, p).Notification?
    case Skip(p) => At(w, p) && w.pollers[p].handler == Starting && CurrentEvent(w, p).Unhandled?
    case HandlerThrows(p) => At(w, p) && !CurrentEvent(w, p).Unhandled?
    case Commit(p) => p < |w.pollers| && w.pollers[p].Polling? && w.pollers[p].next == |w.pollers[p].batch|
    case Crash(p) => p < |w.pollers| && w.pollers[p].Polling?
  }

  /** The poller marks its row, not yet committed, and moves on. */
  function Mark(w: World, p: nat, status: Status): World
    requires At(w, p)
  {
    var poller := w.pollers[p];
    w.(pollers := w.pollers[p := Polling(poller.batch, poller.next + 1, poller.marks[Current(w, p) := status], Starting)])
  }

  /** The handler returned, so the row is marked published. */
  function Return(w: World, p: nat, outcome: Outcome): World
    requires At(w, p)
  {
    Mark(w.(returned := w.returned[Current(w, p) := outcome]), p, Published)
  }

  function Points(subtotal: real, rate: real): int {
    (subtotal * rate).Floor
  }

  /** The handler up to its transaction: the accrual already there, nothing due, or points to add. */
  function Checked(w: World, p: nat, rate: real, minAmount: real): World
    requires At(w, p) && CurrentEvent(w, p).LoyaltyAccrual?
  {
    var e := CurrentEvent(w, p);
    if !HasFields(e) then Return(w, p, NotDue)
    else if HasAccrual(w.history, e.customerId, e.transactionRef) then Return(w, p, AlreadyAccrued)
    else if e.subtotal.value < minAmount || Points(e.subtotal.value, rate) <= 0 then Return(w, p, NotDue)
    else w.(pollers := w.pollers[p := w.pollers[p].(handler := Accruing(Points(e.subtotal.value, rate)))])
  }

  /** The handler's own transaction; without an acknowledgement the handler throws after the commit. */
  function Credited(w: World, p: nat, acknowledged: bool): World
    requires At(w, p) && CurrentEvent(w, p).LoyaltyAccrual? && w.pollers[p].handler.Accruing?
  {
    var e := CurrentEvent(w, p);
    if e.customerId !in w.accounts then Return(w, p, NoAccount)
    else
      var entry := Entry(e.customerId, e.transactionRef, w.pollers[p].handler.points as real, ACCRUAL);
      var w' := w.(accounts := w.accounts[e.customerId := Credit(w.accounts[e.customerId], entry)],
                   history := w.history + [entry]);
      if acknowledged then Return(w', p, Accrued) else Mark(w', p, Failed)
  }

  function Settle(outbox: seq<Row>, marks: map<nat, Status>): (r: seq<Row>)
    ensures |r| == |outbox|
    ensures forall i :: 0 <= i < |r| ==> r[i] == if i in marks then outbox[i].(status := marks[i]) else outbox[i]
  {
    seq(|outbox|, i requires 0 <= i < |outbox| => if i in marks then outbox[i].(status := marks[i]) else outbox[i])
  }

  function Next(w: World, step: Step): World
    requires Enabled(w, step)
  {
    match step
    case NewEvent(e) => w.(outbox := w.outbox + [Row(e, Pending)])
    case NewAccount(c) => w.(accounts := w.accounts[c := Account(0.0, 0.0)])
    case OtherEntry(entry) =>
      w.(accounts := w.accounts[entry.customerId := Credit(w.accounts[entry.customerId], entry)],
         history := w.history + [entry])
    case Select(p) =>
      if Batch(w) == [] then w else w.(pollers := w.pollers[p := Polling(Batch(w), 0, map[], Starting)])
    case Check(p, rate, minAmount) => Checked(w, p, rate, minAmount)
    case Accrue(p, acknowledged) => Credited(w, p, acknowledged)
    case Notify(p) => Return(w, p, Notified)
    case Skip(p) => Mark(w, p, Published)
    case HandlerThrows(p) => Mark(w, p, Failed)
    case Commit(p) => w.(outbox := Settle(w.outbox, w.pollers[p].marks), pollers := w.pollers[p := Idle])
    case Crash(p) => w.(pollers := w.pollers[p := Idle])
  }

  ghost predicate RunFrom(w: World, steps: seq<Step>)
    decreases |steps|
  {
    steps != [] ==> Enabled(w, steps[0]) && RunFrom(Next(w, steps[0]), steps[1..])
  }

  ghost function End(w: World, steps: seq<Step>): World
    requires RunFrom(w, steps)
    decreases |steps|
  {
    if steps == [] then w else End(Next(w, steps[0]), steps[1..])
  }

  function Pollers(n: nat): (r: seq<Poller>)
    ensures |r| == n && forall p :: 0 <= p < n ==> r[p] == Idle
  {
    seq(n, _ => Idle)
  }

  /** Nothing in the tables, `n` idle pollers. */
  function Start(n: nat): World {
    World([], map[], [], Pollers(n), map[])
  }

  // ── What every step keeps ─────────────────────────────────────────────────

  ghost predicate PollerValid(w: World, p: nat)
    requires p < |w.pollers|
  {
    var poller := w.pollers[p];
    poller.Polling? ==>
      && (forall i :: 0 <= i < |poller.batch| ==> poller.batch[i] < |w.outbox| && w.outbox[poller.batch[i]].status == Pending)
      && (forall i, j :: 0 <= i < j < |poller.batch| ==> poller.batch[i] != poller.batch[j])
      && poller.next <= |poller.batch| && 0 < |poller.batch| <= BATCH_SIZE
      && (forall id :: id in poller.marks <==> id in poller.batch[..poller.next])
      && (forall id :: id in poller.marks ==> poller.marks[id] != Pending)
      && (forall id :: id in poller.marks && id < |w.outbox| && poller.marks[id] == Published && !w.outbox[id].event.Unhandled? ==>
            id in w.returned)
      && (poller.handler.Accruing? ==>
            && poller.next < |poller.batch|
            && w.outbox[poller.batch[poller.next]].event.LoyaltyAccrual?
            && HasFields(w.outbox[poller.batch[poller.next]].event)
            && poller.handler.points > 0)
  }

  /** Pollers that skip each other's locked rows hold different rows. */
  ghost predicate Apart(w: World) {
    forall p, q, id ::
      (0 <= p < |w.pollers| && 0 <= q < |w.pollers| && p != q && w.pollers[p].Polling? && w.pollers[q].Polling?
       && id in w.pollers[p].batch) ==> id !in w.pollers[q].batch
  }

  /** A complete loyalty event whose accrual is in the history. */
  ghost predicate IsAccrued(history: seq<Entry>, e: Event) {
    e.LoyaltyAccrual? && HasFields(e) && HasAccrual(history, e.customerId, e.transactionRef)
  }

  /** A published event that has a handler was handled, and a handler that accrued left its row. */
  ghost predicate Honest(w: World) {
    && (forall id :: 0 <= id < |w.outbox| && w.outbox[id].status == Published && !w.outbox[id].event.Unhandled? ==>
          id in w.returned)
    && (forall id :: id in w.returned ==> id < |w.outbox|)
    && (forall id :: id in w.returned && (w.returned[id] == Accrued || w.returned[id] == AlreadyAccrued) ==>
          IsAccrued(w.history, w.outbox[id].event))
  }

  ghost predicate SaleEvents(w: World) {
    forall id :: 0 <= id < |w.outbox| && w.outbox[id].event.LoyaltyAccrual? ==>
      w.outbox[id].event.transactionRef == "" || IsSaleRef(w.outbox[id].event.transactionRef)
  }

  ghost predicate Valid(w: World) {
    && (forall p :: 0 <= p < |w.pollers| ==> PollerValid(w, p))
    && Apart(w) && Honest(w) && SaleEvents(w)
  }
}
