/** What holds in every run of pollers and handlers, crashes included. */
module OutboxRuns {
  import opened Outbox
  import opened Options

  // ── Every step keeps the tables and the pollers consistent ────────────────

  lemma MarkKeepsValid(w: World, p: nat, status: Status)
    requires Valid(w) && At(w, p) && status != Pending
    requires status == Published && !CurrentEvent(w, p).Unhandled? ==> Current(w, p) in w.returned
    ensures Valid(Mark(w, p, status))
  {
    var w' := Mark(w, p, status);
    var poller, poller' := w.pollers[p], w'.pollers[p];
    assert PollerValid(w, p);
    assert poller.batch[..poller'.next] == poller.batch[..poller.next] + [Current(w, p)];
    forall q | 0 <= q < |w'.pollers|
      ensures PollerValid(w', q)
    {
      assert PollerValid(w, q);
    }
    assert Apart(w');
  }

  lemma ReturnedKeepsValid(w: World, id: nat, outcome: Outcome)
    requires Valid(w) && id < |w.outbox|
    requires outcome == Accrued || outcome == AlreadyAccrued ==>
               IsAccrued(w.history, w.outbox[id].event)
    ensures Valid(w.(returned := w.returned[id := outcome]))
  {
    var w' := w.(returned := w.returned[id := outcome]);
    forall q | 0 <= q < |w'.pollers|
      ensures PollerValid(w', q)
    {
      assert PollerValid(w, q);
    }
  }

  lemma HasAccrualAppend(history: seq<Entry>, entry: Entry, c: int, ref: string)
    ensures HasAccrual(history + [entry], c, ref) <==> HasAccrual(history, c, ref) || IsAccrual(entry, c, ref)
  {
    var more := history + [entry];
    assert more[|history|] == entry;
    assert forall i :: 0 <= i < |history| ==> more[i] == history[i];
  }

  lemma EntryKeepsValid(w: World, accounts: map<int, Account>, entry: Entry)
    requires Valid(w)
    ensures Valid(w.(accounts := accounts, history := w.history + [entry]))
  {
    var w' := w.(accounts := accounts, history := w.history + [entry]);
    forall q | 0 <= q < |w'.pollers|
      ensures PollerValid(w', q)
    {
      assert PollerValid(w, q);
    }
    forall id | id in w'.returned && (w'.returned[id] == Accrued || w'.returned[id] == AlreadyAccrued)
      ensures IsAccrued(w'.history, w'.outbox[id].event)
    {
      assert IsAccrued(w.history, w.outbox[id].event);
      HasAccrualAppend(w.history, entry, w.outbox[id].event.customerId, w.outbox[id].event.transactionRef);
    }
  }

  lemma NewEventKeepsValid(w: World, e: Event)
    requires Valid(w) && Enabled(w, NewEvent(e))
    ensures Valid(Next(w, NewEvent(e)))
  {
    var w' := Next(w, NewEvent(e));
    forall q | 0 <= q < |w'.pollers|
      ensures PollerValid(w', q)
    {
      assert PollerValid(w, q);
    }
  }

  lemma SelectKeepsValid(w: World, p: nat)
    requires Valid(w) && Enabled(w, Select(p))
    ensures Valid(Next(w, Select(p)))
  {
    hide Apart, PollerValid, Batch;
    var w' := Next(w, Select(p));
    SelectKeepsApart(w, p);
    forall q | 0 <= q < |w'.pollers|
      ensures PollerValid(w', q)
    {
      assert PollerValid(w, q);
      if w'.pollers[q] == w.pollers[q] {
        SamePoller(w, w', q);
      } else {
        SelectedIsValid(w, p);
      }
    }
  }

  lemma SamePoller(w: World, w': World, q: nat)
    requires q < |w.pollers| == |w'.pollers| && PollerValid(w, q)
    requires w'.pollers[q] == w.pollers[q] && w'.outbox == w.outbox && w'.returned == w.returned
    ensures PollerValid(w', q)
  {
  }

  lemma SelectedIsValid(w: World, p: nat)
    requires Enabled(w, Select(p)) && Batch(w) != []
    ensures PollerValid(Next(w, Select(p)), p)
  {
    hide Available;
    var batch := Batch(w);
    assert batch[..0] == [];
  }

  /** The rows selected are not locked, so no other poller holds them. */
  lemma SelectKeepsApart(w: World, p: nat)
    requires Valid(w) && Enabled(w, Select(p))
    ensures Apart(Next(w, Select(p)))
  {
    hide PollerValid, Honest, SaleEvents;
    var w', batch := Next(w, Select(p)), Batch(w);
    forall id, q | id in batch && 0 <= q < |w.pollers| && w.pollers[q].Polling?
      ensures id !in w.pollers[q].batch
    {
      assert !IsLocked(w.pollers, id);
    }
    hide Available, IsLocked;
  }

  lemma CommitKeepsValid(w: World, p: nat)
    requires Valid(w) && Enabled(w, Commit(p))
    ensures Valid(Next(w, Commit(p)))
  {
    var w' := Next(w, Commit(p));
    var marks, batch := w.pollers[p].marks, w.pollers[p].batch;
    assert PollerValid(w, p);
    assert batch[..|batch|] == batch;
    forall q | 0 <= q < |w'.pollers|
      ensures PollerValid(w', q)
    {
      assert PollerValid(w, q);
      if q != p && w.pollers[q].Polling? {
        forall i | 0 <= i < |w.pollers[q].batch|
          ensures w.pollers[q].batch[i] !in marks
        {
          assert w.pollers[q].batch[i] in w.pollers[q].batch;
        }
      }
    }
  }

  lemma CrashKeepsValid(w: World, p: nat)
    requires Valid(w) && Enabled(w, Crash(p))
    ensures Valid(Next(w, Crash(p)))
  {
    var w' := Next(w, Crash(p));
    forall q | 0 <= q < |w'.pollers|
      ensures PollerValid(w', q)
    {
      assert PollerValid(w, q);
    }
  }

  lemma ReturnKeepsValid(w: World, p: nat, outcome: Outcome)
    requires Valid(w) && At(w, p)
    requires outcome == Accrued || outcome == AlreadyAccrued ==>
               IsAccrued(w.history, CurrentEvent(w, p))
    ensures Valid(Return(w, p, outcome))
  {
    ReturnedKeepsValid(w, Current(w, p), outcome);
    MarkKeepsValid(w.(returned := w.returned[Current(w, p) := outcome]), p, Published);
  }

  lemma CheckKeepsValid(w: World, p: nat, rate: real, minAmount: real)
    requires Valid(w) && Enabled(w, Check(p, rate, minAmount))
    ensures Valid(Next(w, Check(p, rate, minAmount)))
  {
    var w' := Next(w, Check(p, rate, minAmount));
    if w'.pollers[p].handler.Accruing? && w'.pollers[p].next == w.pollers[p].next {
      forall q | 0 <= q < |w'.pollers|
        ensures PollerValid(w', q)
      {
        assert PollerValid(w, q);
      }
    } else if HasFields(CurrentEvent(w, p))
              && HasAccrual(w.history, CurrentEvent(w, p).customerId, CurrentEvent(w, p).transactionRef) {
      ReturnKeepsValid(w, p, AlreadyAccrued);
    } else {
      ReturnKeepsValid(w, p, NotDue);
    }
  }

  lemma AccrueKeepsValid(w: World, p: nat, acknowledged: bool)
    requires Valid(w) && Enabled(w, Accrue(p, acknowledged))
    ensures Valid(Next(w, Accrue(p, acknowledged)))
  {
    var e := CurrentEvent(w, p);
    assert PollerValid(w, p);
    if e.customerId !in w.accounts {
      ReturnKeepsValid(w, p, NoAccount);
    } else {
      var entry := Entry(e.customerId, e.transactionRef, w.pollers[p].handler.points as real, ACCRUAL);
      var accounts := w.accounts[e.customerId := Credit(w.accounts[e.customerId], entry)];
      var w' := w.(accounts := accounts, history := w.history + [entry]);
      EntryKeepsValid(w, accounts, entry);
      HasAccrualAppend(w.history, entry, e.customerId, e.transactionRef);
      if acknowledged {
        ReturnKeepsValid(w', p, Accrued);
      } else {
        MarkKeepsValid(w', p, Failed);
      }
    }
  }

  lemma StepKeepsValid(w: World, step: Step)
    requires Valid(w) && Enabled(w, step)
    ensures Valid(Next(w, step))
  {
    hide Valid;
    match step
    case NewEvent(e) => NewEventKeepsValid(w, e);
    case NewAccount(c) => NewAccountKeepsValid(w, c);
    case OtherEntry(entry) => EntryKeepsValid(w, Next(w, step).accounts, entry);
    case Select(p) => SelectKeepsValid(w, p);
    case Check(p, rate, minAmount) => CheckKeepsValid(w, p, rate, minAmount);
    case Accrue(p, acknowledged) => AccrueKeepsValid(w, p, acknowledged);
    case Notify(p) => ReturnKeepsValid(w, p, Notified);
    case Skip(p) => MarkKeepsValid(w, p, Published);
    case HandlerThrows(p) => MarkKeepsValid(w, p, Failed);
    case Commit(p) => CommitKeepsValid(w, p);
    case Crash(p) => CrashKeepsValid(w, p);
  }

  lemma NewAccountKeepsValid(w: World, c: int)
    requires Valid(w) && Enabled(w, NewAccount(c))
    ensures Valid(Next(w, NewAccount(c)))
  {
    var w' := Next(w, NewAccount(c));
    forall q | 0 <= q < |w'.pollers|
      ensures PollerValid(w', q)
    {
      assert PollerValid(w, q);
    }
  }

  lemma StartValid(n: nat)
    ensures Valid(Start(n))
  {
  }

  lemma {:induction false} RunKeepsValid(w: World, steps: seq<Step>)
    requires Valid(w) && RunFrom(w, steps)
    ensures Valid(End(w, steps))
    decreases |steps|
  {
    hide Valid, Enabled, Next;
    if steps != [] {
      StepKeepsValid(w, steps[0]);
      RunKeepsValid(Next(w, steps[0]), steps[1..]);
    }
  }

  /**
   * Over any run: pollers never hold one row together; a published event that
   * has a handler was handled to its end; and whenever that handler reported an
   * accrual, new or already there, its row is in the history.
   */
  lemma RunIsHonest(n: nat, steps: seq<Step>)
    requires RunFrom(Start(n), steps)
    ensures Apart(End(Start(n), steps)) && Honest(End(Start(n), steps))
  {
    StartValid(n);
    RunKeepsValid(Start(n), steps);
  }

  // ── Settled events stay settled ───────────────────────────────────────────

  lemma StepKeepsSettled(w: World, step: Step, id: nat)
    requires Valid(w) && Enabled(w, step) && id < |w.outbox|
    ensures id < |Next(w, step).outbox| && Next(w, step).outbox[id].event == w.outbox[id].event
    ensures w.outbox[id].status != Pending ==> Next(w, step).outbox[id] == w.outbox[id]
  {
    if step.Commit? {
      var p := step.p;
      assert PollerValid(w, p);
      if id in w.pollers[p].marks {
        assert id in w.pollers[p].batch[..w.pollers[p].next];
      }
    }
  }

  /** Published and failed are final. */
  lemma {:induction false} SettledIsFinal(w: World, steps: seq<Step>, id: nat)
    requires Valid(w) && RunFrom(w, steps) && id < |w.outbox| && w.outbox[id].status != Pending
    ensures id < |End(w, steps).outbox| && End(w, steps).outbox[id] == w.outbox[id]
    decreases |steps|
  {
    hide Valid, Enabled, Next;
    if steps != [] {
      StepKeepsSettled(w, steps[0], id);
      StepKeepsValid(w, steps[0]);
      SettledIsFinal(Next(w, steps[0]), steps[1..], id);
    }
  }

  // ── One accrual for each sale ─────────────────────────────────────────────

  /** No two accruals of a customer name one sale. */
  ghost predicate AtMostOnce(history: seq<Entry>) {
    forall i, j :: 0 <= i < j < |history| && history[i].reason == ACCRUAL && IsSaleRef(history[i].transactionRef) ==>
      !IsAccrual(history[j], history[i].customerId, history[i].transactionRef)
  }

  /** No two loyalty events name one customer and sale. */
  ghost predicate DistinctSales(outbox: seq<Row>) {
    forall i, j :: 0 <= i < j < |outbox| && outbox[i].event.LoyaltyAccrual? && outbox[j].event.LoyaltyAccrual? ==>
      outbox[i].event.customerId != outbox[j].event.customerId
      || outbox[i].event.transactionRef != outbox[j].event.transactionRef
  }

  /** A handler about to accrue still finds no accrual of its sale. */
  ghost predicate StillDue(w: World, p: nat)
    requires p < |w.pollers|
  {
    At(w, p) && CurrentEvent(w, p).LoyaltyAccrual? && w.pollers[p].handler.Accruing? ==>
      !HasAccrual(w.history, CurrentEvent(w, p).customerId, CurrentEvent(w, p).transactionRef)
  }

  ghost predicate Once(w: World) {
    AtMostOnce(w.history) && forall p :: 0 <= p < |w.pollers| ==> StillDue(w, p)
  }

  /** At most one poller has a poll going on. */
  ghost predicate OneBusy(w: World) {
    forall p, q :: 0 <= p < |w.pollers| && 0 <= q < |w.pollers| && w.pollers[p].Polling? && w.pollers[q].Polling? ==> p == q
  }

  ghost predicate OneAtATime(w: World) {
    OneBusy(w) || DistinctSales(w.outbox)
  }

  lemma AccrualAppend(history: seq<Entry>, entry: Entry)
    requires AtMostOnce(history)
    requires entry.reason == ACCRUAL && IsSaleRef(entry.transactionRef) ==>
               !HasAccrual(history, entry.customerId, entry.transactionRef)
    ensures AtMostOnce(history + [entry])
  {
    var more := history + [entry];
    forall i, j | 0 <= i < j < |more| && more[i].reason == ACCRUAL && IsSaleRef(more[i].transactionRef)
      ensures !IsAccrual(more[j], more[i].customerId, more[i].transactionRef)
    {
      if j == |history| && IsAccrual(entry, more[i].customerId, more[i].transactionRef) {
        assert IsAccrual(history[i], entry.customerId, entry.transactionRef);
      }
    }
  }

  /** Two pollers about to accrue are at different sales. */
  lemma DifferentSales(w: World, p: nat, q: nat)
    requires Valid(w) && OneAtATime(w) && p != q && At(w, p) && At(w, q)
    requires CurrentEvent(w, p).LoyaltyAccrual? && CurrentEvent(w, q).LoyaltyAccrual?
    ensures CurrentEvent(w, p).customerId != CurrentEvent(w, q).customerId
         || CurrentEvent(w, p).transactionRef != CurrentEvent(w, q).transactionRef
  {
    assert Current(w, p) in w.pollers[p].batch && Current(w, q) in w.pollers[q].batch;
    assert Current(w, p) != Current(w, q);
    if Current(w, p) < Current(w, q) {
      assert DistinctSales(w.outbox);
    } else {
      assert DistinctSales(w.outbox);
    }
  }

  lemma AccrueKeepsOnce(w: World, p: nat, acknowledged: bool)
    requires Valid(w) && Once(w) && OneAtATime(w) && Enabled(w, Accrue(p, acknowledged))
    ensures Once(Next(w, Accrue(p, acknowledged)))
  {
    var w' := Next(w, Accrue(p, acknowledged));
    var e := CurrentEvent(w, p);
    assert StillDue(w, p);
    if e.customerId in w.accounts {
      var entry := Entry(e.customerId, e.transactionRef, w.pollers[p].handler.points as real, ACCRUAL);
      AccrualAppend(w.history, entry);
      forall q | 0 <= q < |w'.pollers|
        ensures StillDue(w', q)
      {
        if q != p && At(w, q) && CurrentEvent(w, q).LoyaltyAccrual? && w.pollers[q].handler.Accruing? {
          assert StillDue(w, q);
          DifferentSales(w, p, q);
          HasAccrualAppend(w.history, entry, CurrentEvent(w, q).customerId, CurrentEvent(w, q).transactionRef);
        }
      }
    } else {
      forall q | 0 <= q < |w'.pollers|
        ensures StillDue(w', q)
      {
        assert StillDue(w, q);
      }
    }
  }

  lemma OtherEntryKeepsOnce(w: World, entry: Entry)
    requires Valid(w) && Once(w) && Enabled(w, OtherEntry(entry))
    ensures Once(Next(w, OtherEntry(entry)))
  {
    var w' := Next(w, OtherEntry(entry));
    AccrualAppend(w.history, entry);
    forall q | 0 <= q < |w'.pollers|
      ensures StillDue(w', q)
    {
      assert StillDue(w, q) && PollerValid(w, q);
      if At(w, q) && CurrentEvent(w, q).LoyaltyAccrual? && w.pollers[q].handler.Accruing? {
        HasAccrualAppend(w.history, entry, CurrentEvent(w, q).customerId, CurrentEvent(w, q).transactionRef);
      }
    }
  }

  lemma StepKeepsOnce(w: World, step: Step)
    requires Valid(w) && Once(w) && OneAtATime(w) && Enabled(w, step)
    ensures Once(Next(w, step))
  {
    if step.Accrue? {
      AccrueKeepsOnce(w, step.p, step.acknowledged);
    } else if step.OtherEntry? {
      OtherEntryKeepsOnce(w, step.entry);
    } else {
      hide StillDue, PollerValid, Apart, Honest, SaleEvents, HasAccrual;
      forall q | 0 <= q < |Next(w, step).pollers|
        ensures StillDue(Next(w, step), q)
      {
        QuietStepKeepsDue(w, step, q);
      }
    }
  }

  /** A poller that stays as it is, with the history, is due as before. */
  lemma SameDue(w: World, w': World, q: nat)
    requires q < |w.pollers| == |w'.pollers| && PollerValid(w, q) && StillDue(w, q)
    requires w'.pollers[q] == w.pollers[q] && w'.history == w.history && |w.outbox| <= |w'.outbox|
    requires forall id :: 0 <= id < |w.outbox| ==> w'.outbox[id].event == w.outbox[id].event
    ensures StillDue(w', q)
  {
    hide HasAccrual;
  }

  /** A step that adds no history leaves what is due. */
  lemma QuietStepKeepsDue(w: World, step: Step, q: nat)
    requires q < |w.pollers| && PollerValid(w, q) && StillDue(w, q) && Enabled(w, step)
    requires !step.Accrue? && !step.OtherEntry?
    ensures Next(w, step).history == w.history && |Next(w, step).pollers| == |w.pollers| && StillDue(Next(w, step), q)
  {
    hide HasAccrual, Available, Batch, Settle, Points, PollerValid;
    var w' := Next(w, step);
    if w'.pollers[q] == w.pollers[q] {
      SameDue(w, w', q);
    } else if !step.Check? {
      assert w'.pollers[q].Idle? || w'.pollers[q].handler == Starting;
    }
  }

  lemma StepGrows(w: World, step: Step)
    requires Valid(w) && Enabled(w, step)
    ensures |Next(w, step).pollers| == |w.pollers| && |w.outbox| <= |Next(w, step).outbox|
    ensures forall id :: 0 <= id < |w.outbox| ==> Next(w, step).outbox[id].event == w.outbox[id].event
  {
    hide Valid;
    forall id | 0 <= id < |w.outbox|
      ensures id < |Next(w, step).outbox| && Next(w, step).outbox[id].event == w.outbox[id].event
    {
      StepKeepsSettled(w, step, id);
    }
  }

  /** Events are only added, so sales that differ in the end differed all along. */
  lemma {:induction false} OutboxGrows(w: World, steps: seq<Step>)
    requires Valid(w) && RunFrom(w, steps)
    ensures |End(w, steps).pollers| == |w.pollers| && |w.outbox| <= |End(w, steps).outbox|
    ensures forall id :: 0 <= id < |w.outbox| ==> End(w, steps).outbox[id].event == w.outbox[id].event
    decreases |steps|
  {
    hide Valid, Enabled, Next;
    if steps != [] {
      StepKeepsValid(w, steps[0]);
      StepGrows(w, steps[0]);
      OutboxGrows(Next(w, steps[0]), steps[1..]);
    }
  }

  lemma {:induction false} RunKeepsOnce(w: World, steps: seq<Step>)
    requires Valid(w) && Once(w) && RunFrom(w, steps) && (|w.pollers| <= 1 || DistinctSales(End(w, steps).outbox))
    ensures Once(End(w, steps))
    decreases |steps|
  {
    if steps != [] {
      OutboxGrows(w, steps);
      StepGrows(w, steps[0]);
      assert OneAtATime(w);
      hide Valid, Once, Enabled, Next;
      StepKeepsOnce(w, steps[0]);
      StepKeepsValid(w, steps[0]);
      RunKeepsOnce(Next(w, steps[0]), steps[1..]);
    }
  }

  /**
   * Whatever crashes, and wherever: with one poller, or with events that name
   * different sales, no sale is accrued twice.
   */
  lemma AccruedAtMostOnce(n: nat, steps: seq<Step>)
    requires RunFrom(Start(n), steps)
    requires n <= 1 || DistinctSales(End(Start(n), steps).outbox)
    ensures AtMostOnce(End(Start(n), steps).history)
  {
    StartValid(n);
    OutboxGrows(Start(n), steps);
    RunKeepsOnce(Start(n), steps);
  }

  lemma AccruedIsKnown(n: nat, steps: seq<Step>, id: nat)
    requires RunFrom(Start(n), steps)
    requires var w := End(Start(n), steps);
             id in w.returned && (w.returned[id] == Accrued || w.returned[id] == AlreadyAccrued)
    ensures var w := End(Start(n), steps);
            id < |w.outbox| && IsAccrued(w.history, w.outbox[id].event) && IsSaleRef(w.outbox[id].event.transactionRef)
  {
    hide RunFrom, End, PollerValid, Apart, Start;
    StartValid(n);
    RunKeepsValid(Start(n), steps);
  }

  /** An event handled with an accrual, new or already there, has exactly one accrual of its sale. */
  lemma AccruedExactlyOnce(n: nat, steps: seq<Step>, id: nat)
    requires RunFrom(Start(n), steps)
    requires n <= 1 || DistinctSales(End(Start(n), steps).outbox)
    requires var w := End(Start(n), steps);
             id in w.returned && (w.returned[id] == Accrued || w.returned[id] == AlreadyAccrued)
    ensures var w := End(Start(n), steps);
            && id < |w.outbox| && w.outbox[id].event.LoyaltyAccrual?
            && var e := w.outbox[id].event;
            exists i :: 0 <= i < |w.history| && IsAccrual(w.history[i], e.customerId, e.transactionRef)
              && forall j :: 0 <= j < |w.history| && IsAccrual(w.history[j], e.customerId, e.transactionRef) ==> j == i
  {
    hide RunFrom, End, AtMostOnce, Start, HasAccrual, IsAccrual;
    AccruedIsKnown(n, steps, id);
    AccruedAtMostOnce(n, steps);
    OneAccrual(End(Start(n), steps).history, End(Start(n), steps).outbox[id].event);
  }

  lemma OneAccrual(history: seq<Entry>, e: Event)
    requires AtMostOnce(history) && IsAccrued(history, e) && IsSaleRef(e.transactionRef)
    ensures exists i :: 0 <= i < |history| && IsAccrual(history[i], e.customerId, e.transactionRef)
              && forall j :: 0 <= j < |history| && IsAccrual(history[j], e.customerId, e.transactionRef) ==> j == i
  {
    var i :| 0 <= i < |history| && IsAccrual(history[i], e.customerId, e.transactionRef);
    forall j | 0 <= j < |history| && IsAccrual(history[j], e.customerId, e.transactionRef)
      ensures j == i
    {
      assert IsAccrual(history[j], history[i].customerId, history[i].transactionRef);
      assert IsAccrual(history[i], history[j].customerId, history[j].transactionRef);
    }
  }

  // ── With two pollers it can happen ────────────────────────────────────────

  const SALE := LoyaltyAccrual(7, "POS-1", Some(100.0))

  const SALE_ENTRY := Entry(7, "POS-1", 100.0, ACCRUAL)

  /** Two pollers each take one of two events of one sale; both check before either accrues. */
  const DOUBLE_ACCRUAL: seq<Step> :=
    [NewAccount(7), NewEvent(SALE), Select(0), NewEvent(SALE), Select(1),
     Check(0, 1.0, 0.0), Check(1, 1.0, 0.0), Accrue(0, true), Accrue(1, true)]

  lemma RunStep(w: World, step: Step, rest: seq<Step>)
    requires Enabled(w, step) && RunFrom(Next(w, step), rest)
    ensures RunFrom(w, [step] + rest) && End(w, [step] + rest) == End(Next(w, step), rest)
  {
    assert ([step] + rest)[1..] == rest;
  }

  lemma SelectsOne(w: World, p: nat)
    requires |w.outbox| > 0 && w.outbox[|w.outbox| - 1].status == Pending
    requires forall i :: 0 <= i < |w.outbox| - 1 ==> IsLocked(w.pollers, i)
    requires !IsLocked(w.pollers, |w.outbox| - 1)
    ensures Batch(w) == [|w.outbox| - 1]
  {
    LastAvailable(w.outbox, w.pollers, 0);
  }

  lemma AvailableStep(outbox: seq<Row>, pollers: seq<Poller>, i: nat)
    requires i < |outbox|
    ensures var rest := Available(outbox, pollers, i + 1);
            Available(outbox, pollers, i)
            == if outbox[i].status == Pending && !IsLocked(pollers, i) then [i] + rest else rest
  {
  }

  lemma {:induction false} LastAvailable(outbox: seq<Row>, pollers: seq<Poller>, i: nat)
    requires i < |outbox| && outbox[|outbox| - 1].status == Pending
    requires forall k :: i <= k < |outbox| - 1 ==> IsLocked(pollers, k)
    requires !IsLocked(pollers, |outbox| - 1)
    ensures Available(outbox, pollers, i) == [|outbox| - 1]
    decreases |outbox| - i
  {
    AvailableStep(outbox, pollers, i);
    if i < |outbox| - 1 {
      hide Available, IsLocked;
      LastAvailable(outbox, pollers, i + 1);
    } else {
      assert Available(outbox, pollers, i + 1) == [];
    }
  }

  /** The first event, held by poller 0. */
  lemma FirstHeld(n: nat) returns (w: World)
    requires n >= 2
    ensures w == World([Row(SALE, Pending)], map[7 := Account(0.0, 0.0)], [],
                       Pollers(n)[0 := Polling([0], 0, map[], Starting)], map[])
    ensures RunFrom(Start(n), DOUBLE_ACCRUAL[..3]) && End(Start(n), DOUBLE_ACCRUAL[..3]) == w
  {
    var w0 := Start(n);
    var w1 := Next(w0, NewAccount(7));
    var w2 := Next(w1, NewEvent(SALE));
    SelectsOne(w2, 0);
    w := Next(w2, Select(0));
    hide Next, Batch, IsLocked, Pollers;
    RunStep(w2, Select(0), []);
    RunStep(w1, NewEvent(SALE), [Select(0)]);
    RunStep(w0, NewAccount(7), [NewEvent(SALE)] + [Select(0)]);
    assert [Select(0)] + [] == [Select(0)];
    assert DOUBLE_ACCRUAL[..3] == [NewAccount(7)] + ([NewEvent(SALE)] + [Select(0)]);
  }

  /** The two events, held by pollers 0 and 1. */
  lemma BothHeld(n: nat) returns (w: World)
    requires n >= 2
    ensures |w.pollers| == n && w.outbox == [Row(SALE, Pending), Row(SALE, Pending)]
    ensures w.pollers[0] == Polling([0], 0, map[], Starting) && w.pollers[1] == Polling([1], 0, map[], Starting)
    ensures w.history == [] && 7 in w.accounts
    ensures RunFrom(Start(n), DOUBLE_ACCRUAL[..5]) && End(Start(n), DOUBLE_ACCRUAL[..5]) == w
  {
    var w3 := FirstHeld(n);
    assert w3.pollers[0].batch[0] == 0 && IsLocked(w3.pollers, 0);
    var w4 := Next(w3, NewEvent(SALE));
    SelectsOne(w4, 1);
    w := Next(w4, Select(1));
    hide Next, Batch, IsLocked, Pollers;
    RunStep(w4, Select(1), []);
    assert [Select(1)] + [] == [Select(1)];
    RunStep(w3, NewEvent(SALE), [Select(1)]);
    RunConcat(Start(n), DOUBLE_ACCRUAL[..3], [NewEvent(SALE)] + [Select(1)]);
    assert DOUBLE_ACCRUAL[..5] == DOUBLE_ACCRUAL[..3] + ([NewEvent(SALE)] + [Select(1)]);
  }

  lemma NoAccrualYet(w: World, p: nat)
    requires At(w, p) && CurrentEvent(w, p) == SALE && w.history == []
    ensures Checked(w, p, 1.0, 0.0) == w.(pollers := w.pollers[p := w.pollers[p].(handler := Accruing(100))])
  {
    assert Points(100.0, 1.0) == 100;
  }

  /** From there, both accrue. */
  lemma BothAccrue(w: World)
    requires |w.pollers| >= 2 && w.outbox == [Row(SALE, Pending), Row(SALE, Pending)]
    requires w.pollers[0] == Polling([0], 0, map[], Starting) && w.pollers[1] == Polling([1], 0, map[], Starting)
    requires w.history == [] && 7 in w.accounts
    ensures RunFrom(w, DOUBLE_ACCRUAL[5..]) && End(w, DOUBLE_ACCRUAL[5..]).history == [SALE_ENTRY, SALE_ENTRY]
  {
    var checked := [Check(0, 1.0, 0.0)] + [Check(1, 1.0, 0.0)];
    var accrued := [Accrue(0, true)] + [Accrue(1, true)];
    hide RunFrom, End;
    var w2 := BothCheck(w);
    BothCredit(w2);
    RunConcat(w, checked, accrued);
    assert DOUBLE_ACCRUAL[5..] == checked + accrued;
  }

  lemma BothCheck(w: World) returns (w2: World)
    requires |w.pollers| >= 2 && w.outbox == [Row(SALE, Pending), Row(SALE, Pending)]
    requires w.pollers[0] == Polling([0], 0, map[], Starting) && w.pollers[1] == Polling([1], 0, map[], Starting)
    requires w.history == []
    ensures var steps := [Check(0, 1.0, 0.0)] + [Check(1, 1.0, 0.0)]; RunFrom(w, steps) && End(w, steps) == w2
    ensures w2 == w.(pollers := w2.pollers) && |w2.pollers| == |w.pollers|
    ensures w2.pollers[0] == Polling([0], 0, map[], Accruing(100)) && w2.pollers[1] == Polling([1], 0, map[], Accruing(100))
  {
    NoAccrualYet(w, 0);
    var w1 := Next(w, Check(0, 1.0, 0.0));
    NoAccrualYet(w1, 1);
    w2 := Next(w1, Check(1, 1.0, 0.0));
    assert [Check(1, 1.0, 0.0)] + [] == [Check(1, 1.0, 0.0)];
    RunStep(w1, Check(1, 1.0, 0.0), []);
    RunStep(w, Check(0, 1.0, 0.0), [Check(1, 1.0, 0.0)]);
  }

  lemma BothCredit(w: World)
    requires |w.pollers| >= 2 && w.outbox == [Row(SALE, Pending), Row(SALE, Pending)]
    requires w.pollers[0] == Polling([0], 0, map[], Accruing(100)) && w.pollers[1] == Polling([1], 0, map[], Accruing(100))
    requires w.history == [] && 7 in w.accounts
    ensures var steps := [Accrue(0, true)] + [Accrue(1, true)];
            RunFrom(w, steps) && End(w, steps).history == [SALE_ENTRY, SALE_ENTRY]
  {
    var w1 := Next(w, Accrue(0, true));
    assert w1.history == [SALE_ENTRY] && w1.pollers[1] == w.pollers[1];
    var w2 := Next(w1, Accrue(1, true));
    assert w2.history == [SALE_ENTRY, SALE_ENTRY];
    assert [Accrue(1, true)] + [] == [Accrue(1, true)];
    RunStep(w1, Accrue(1, true), []);
    RunStep(w, Accrue(0, true), [Accrue(1, true)]);
  }

  lemma {:induction false} RunConcat(w: World, a: seq<Step>, b: seq<Step>)
    requires RunFrom(w, a) && RunFrom(End(w, a), b)
    ensures RunFrom(w, a + b) && End(w, a + b) == End(End(w, a), b)
    decreases |a|
  {
    hide Enabled, Next;
    if a == [] {
      assert a + b == b;
    } else {
      assert (a + b)[1..] == a[1..] + b;
      RunConcat(Next(w, a[0]), a[1..], b);
    }
  }

  lemma DoubleAccrualRuns(n: nat)
    requires n >= 2
    ensures RunFrom(Start(n), DOUBLE_ACCRUAL) && !AtMostOnce(End(Start(n), DOUBLE_ACCRUAL).history)
  {
    var w := BothHeld(n);
    BothAccrue(w);
    RunConcat(Start(n), DOUBLE_ACCRUAL[..5], DOUBLE_ACCRUAL[5..]);
    assert DOUBLE_ACCRUAL == DOUBLE_ACCRUAL[..5] + DOUBLE_ACCRUAL[5..];
    var history := End(Start(n), DOUBLE_ACCRUAL).history;
    assert history == [SALE_ENTRY, SALE_ENTRY];
    assert IsAccrual(history[1], history[0].customerId, history[0].transactionRef);
    assert "POS-1"[..4] == "POS-";
  }

  /**
   * The handler reads whether a sale was accrued before it locks the account,
   * so no sale is accrued twice in any run exactly when there is at most one
   * poller, which is how the process starts them.
   */
  lemma OnceExactlyWithOnePoller(n: nat)
    ensures (forall steps :: RunFrom(Start(n), steps) ==> AtMostOnce(End(Start(n), steps).history)) <==> n <= 1
  {
    if n <= 1 {
      forall steps | RunFrom(Start(n), steps)
        ensures AtMostOnce(End(Start(n), steps).history)
      {
        AccruedAtMostOnce(n, steps);
      }
    } else {
      DoubleAccrualRuns(n);
    }
  }

  // ── Balances ──────────────────────────────────────────────────────────────

  function Balance(history: seq<Entry>, c: int): real {
    if history == [] then 0.0
    else
      var e := history[|history| - 1];
      Balance(history[..|history| - 1], c) + if e.customerId == c then e.pointsDelta else 0.0
  }

  /** Points earned: accruals and opening balances, when positive. */
  function Earned(history: seq<Entry>, c: int): real {
    if history == [] then 0.0
    else
      var e := history[|history| - 1];
      Earned(history[..|history| - 1], c)
      + if e.customerId == c && e.pointsDelta > 0.0 && (e.reason == ACCRUAL || e.reason == OPENING_BALANCE)
        then e.pointsDelta else 0.0
  }

  /** Each account is the sum of its history, and history is only of accounts. */
  ghost predicate BooksAgree(w: World) {
    && (forall c :: c in w.accounts ==> w.accounts[c] == Account(Balance(w.history, c), Earned(w.history, c)))
    && (forall i :: 0 <= i < |w.history| ==> w.history[i].customerId in w.accounts)
  }

  lemma {:induction false} NothingFor(history: seq<Entry>, c: int)
    requires forall i :: 0 <= i < |history| ==> history[i].customerId != c
    ensures Balance(history, c) == 0.0 && Earned(history, c) == 0.0
  {
    if history != [] {
      NothingFor(history[..|history| - 1], c);
    }
  }

  lemma CreditAgrees(w: World, entry: Entry)
    requires BooksAgree(w) && entry.customerId in w.accounts
    ensures BooksAgree(w.(accounts := w.accounts[entry.customerId := Credit(w.accounts[entry.customerId], entry)],
                          history := w.history + [entry]))
  {
    var history := w.history + [entry];
    assert history[..|w.history|] == w.history;
  }

  lemma StepKeepsBooks(w: World, step: Step)
    requires BooksAgree(w) && Enabled(w, step)
    ensures BooksAgree(Next(w, step))
  {
    if step.NewAccount? {
      NothingFor(w.history, step.customerId);
    } else if step.OtherEntry? {
      CreditAgrees(w, step.entry);
    } else if step.Accrue? {
      var e := CurrentEvent(w, step.p);
      if e.customerId in w.accounts {
        CreditAgrees(w, Entry(e.customerId, e.transactionRef, w.pollers[step.p].handler.points as real, ACCRUAL));
      }
    }
  }

  lemma {:induction false} RunKeepsBooks(w: World, steps: seq<Step>)
    requires BooksAgree(w) && RunFrom(w, steps)
    ensures BooksAgree(End(w, steps))
    decreases |steps|
  {
    hide BooksAgree, Enabled, Next;
    if steps != [] {
      StepKeepsBooks(w, steps[0]);
      RunKeepsBooks(Next(w, steps[0]), steps[1..]);
    }
  }

  /** In every run each balance is the sum of its history, and each lifetime total the sum of what was earned. */
  lemma BalancesMatchHistory(n: nat, steps: seq<Step>)
    requires RunFrom(Start(n), steps)
    ensures BooksAgree(End(Start(n), steps))
  {
    RunKeepsBooks(Start(n), steps);
  }
}
