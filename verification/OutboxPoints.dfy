/** How many points a sale earns, over runs of pollers and handlers (apps/api/src/workers/loyaltyWorker.ts). */
module OutboxPoints {
  import opened Outbox
  import opened OutboxRuns
  import opened Options

  /** A handler looked at an event, with the rate and the minimum as they were then. */
  datatype Look = Look(event: Event, rate: real, minAmount: real)

  /** A complete event whose subtotal reaches the minimum and earns this many whole points, at least one. */
  ghost predicate Earns(look: Look, points: real) {
    && look.event.LoyaltyAccrual?
    && look.event.customerId != 0 && look.event.transactionRef != "" && look.event.subtotal.Some?
    && look.event.subtotal.value >= look.minAmount
    && points == points.Floor as real && points > 0.0
    && points <= look.event.subtotal.value * look.rate < points + 1.0
  }

  function Looked(w: World, step: Step): seq<Look>
    requires Enabled(w, step)
  {
    if step.Check? then [Look(CurrentEvent(w, step.p), step.rate, step.minAmount)] else []
  }

  /** Every look of a run, in order. */
  ghost function Looks(w: World, steps: seq<Step>): seq<Look>
    requires RunFrom(w, steps)
    decreases |steps|
  {
    if steps == [] then [] else Looked(w, steps[0]) + Looks(Next(w, steps[0]), steps[1..])
  }

  /** One of the looks was at an event of that sale and found that it earns these points. */
  ghost predicate EarnedAt(looks: seq<Look>, customerId: int, ref: string, points: real) {
    exists k :: 0 <= k < |looks| && Earns(looks[k], points)
                && looks[k].event.customerId == customerId && looks[k].event.transactionRef == ref
  }

  ghost predicate EntryEarned(looks: seq<Look>, entry: Entry) {
    entry.reason == ACCRUAL && IsSaleRef(entry.transactionRef) ==>
      EarnedAt(looks, entry.customerId, entry.transactionRef, entry.pointsDelta)
  }

  ghost predicate HistoryEarned(history: seq<Entry>, looks: seq<Look>) {
    forall i :: 0 <= i < |history| ==> EntryEarned(looks, history[i])
  }

  ghost predicate PollerEarned(w: World, p: nat, looks: seq<Look>)
    requires p < |w.pollers|
  {
    At(w, p) && CurrentEvent(w, p).LoyaltyAccrual? && w.pollers[p].handler.Accruing? ==>
      EarnedAt(looks, CurrentEvent(w, p).customerId, CurrentEvent(w, p).transactionRef, w.pollers[p].handler.points as real)
  }

  ghost predicate AllEarned(w: World, looks: seq<Look>) {
    HistoryEarned(w.history, looks) && forall p :: 0 <= p < |w.pollers| ==> PollerEarned(w, p, looks)
  }

  lemma MoreLooks(looks: seq<Look>, more: seq<Look>, customerId: int, ref: string, points: real)
    requires EarnedAt(looks, customerId, ref, points)
    ensures EarnedAt(looks + more, customerId, ref, points)
  {
    var k :| 0 <= k < |looks| && Earns(looks[k], points)
             && looks[k].event.customerId == customerId && looks[k].event.transactionRef == ref;
    assert (looks + more)[k] == looks[k];
  }

  lemma MoreLooksKeep(w: World, looks: seq<Look>, more: seq<Look>)
    requires AllEarned(w, looks)
    ensures AllEarned(w, looks + more)
  {
    hide EarnedAt;
    forall i: nat | i < |w.history|
      ensures EntryEarned(looks + more, w.history[i])
    {
      var entry := w.history[i];
      assert EntryEarned(looks, entry);
      if entry.reason == ACCRUAL && IsSaleRef(entry.transactionRef) {
        MoreLooks(looks, more, entry.customerId, entry.transactionRef, entry.pointsDelta);
      }
    }
    forall p: nat | p < |w.pollers|
      ensures PollerEarned(w, p, looks + more)
    {
      assert PollerEarned(w, p, looks);
      if At(w, p) && CurrentEvent(w, p).LoyaltyAccrual? && w.pollers[p].handler.Accruing? {
        MoreLooks(looks, more, CurrentEvent(w, p).customerId, CurrentEvent(w, p).transactionRef,
                  w.pollers[p].handler.points as real);
      }
    }
  }

  /**
   * A look at a complete event whose sale is in the history as accrued goes no
   * further. Otherwise it goes on to add points exactly when the event is
   * complete, its subtotal reaches the minimum and is worth a point. In every
   * other case the event is done with, and nothing else changes.
   */
  lemma LookDecides(w: World, p: nat, rate: real, minAmount: real)
    requires Enabled(w, Check(p, rate, minAmount))
    ensures var (e, w') := (CurrentEvent(w, p), Next(w, Check(p, rate, minAmount)));
            var complete := e.customerId != 0 && e.transactionRef != "" && e.subtotal.Some?;
            var accrued := exists i :: 0 <= i < |w.history| && w.history[i].reason == ACCRUAL
                             && w.history[i].customerId == e.customerId && w.history[i].transactionRef == e.transactionRef;
            && w'.history == w.history && w'.accounts == w.accounts && w'.outbox == w.outbox && |w'.pollers| == |w.pollers|
            && if complete && accrued then w' == Return(w, p, AlreadyAccrued)
               else if complete && e.subtotal.value >= minAmount && e.subtotal.value * rate >= 1.0 then
                 && At(w', p) && CurrentEvent(w', p) == e && w'.pollers[p].handler.Accruing?
                 && Earns(Look(e, rate, minAmount), w'.pollers[p].handler.points as real)
               else w' == Return(w, p, NotDue)
  {
    var e := CurrentEvent(w, p);
    assert HasAccrual(w.history, e.customerId, e.transactionRef) <==>
           exists i :: 0 <= i < |w.history| && IsAccrual(w.history[i], e.customerId, e.transactionRef);
    if HasFields(e) {
      FloorIsWhole(e.subtotal.value * rate);
    }
  }

  lemma FloorIsWhole(x: real)
    ensures x.Floor as real <= x < x.Floor as real + 1.0
    ensures x.Floor <= 0 <==> x < 1.0
    ensures (x.Floor as real).Floor as real == x.Floor as real
  {
  }

  lemma CheckKeepsEarned(w: World, p: nat, rate: real, minAmount: real, looks: seq<Look>)
    requires Valid(w) && Enabled(w, Check(p, rate, minAmount)) && AllEarned(w, looks)
    ensures AllEarned(Next(w, Check(p, rate, minAmount)), looks + Looked(w, Check(p, rate, minAmount)))
  {
    var e, look := CurrentEvent(w, p), Look(CurrentEvent(w, p), rate, minAmount);
    var step := Check(p, rate, minAmount);
    var w' := Next(w, step);
    MoreLooksKeep(w, looks, [look]);
    var all := looks + [look];
    assert all[|looks|] == look;
    LookDecides(w, p, rate, minAmount);
    hide Earns, HasAccrual, EarnedAt, Valid;
    forall q: nat | q < |w'.pollers|
      ensures PollerEarned(w', q, all)
    {
      assert PollerEarned(w, q, all);
      if q == p && w'.pollers[p].handler.Accruing? && At(w', p) {
        LookEarns(looks, look, w'.pollers[p].handler.points as real);
      }
    }
  }

  lemma LookEarns(looks: seq<Look>, look: Look, points: real)
    requires Earns(look, points)
    ensures EarnedAt(looks + [look], look.event.customerId, look.event.transactionRef, points)
  {
    assert (looks + [look])[|looks|] == look;
  }

  lemma EntryKeepsEarned(w: World, w': World, entry: Entry, looks: seq<Look>)
    requires AllEarned(w, looks) && EntryEarned(looks, entry) && w'.history == w.history + [entry]
    requires |w'.pollers| == |w.pollers| && w'.outbox == w.outbox
    requires forall p: nat :: p < |w.pollers| ==> w'.pollers[p] == w.pollers[p] || !w'.pollers[p].Polling?
                                                  || w'.pollers[p].handler == Starting
    ensures AllEarned(w', looks)
  {
    hide EarnedAt, EntryEarned;
    forall p: nat | p < |w'.pollers|
      ensures PollerEarned(w', p, looks)
    {
      assert PollerEarned(w, p, looks);
    }
  }

  lemma AccrueKeepsEarned(w: World, p: nat, acknowledged: bool, looks: seq<Look>)
    requires Valid(w) && Enabled(w, Accrue(p, acknowledged)) && AllEarned(w, looks)
    ensures AllEarned(Next(w, Accrue(p, acknowledged)), looks)
  {
    hide EarnedAt, Valid;
    var w', e := Next(w, Accrue(p, acknowledged)), CurrentEvent(w, p);
    assert PollerEarned(w, p, looks);
    if e.customerId in w.accounts {
      EntryKeepsEarned(w, w', Entry(e.customerId, e.transactionRef, w.pollers[p].handler.points as real, ACCRUAL), looks);
    } else {
      forall q: nat | q < |w'.pollers|
        ensures PollerEarned(w', q, looks)
      {
        assert PollerEarned(w, q, looks);
      }
    }
  }

  /** A step that looks at nothing and writes no history leaves what pollers are about to add. */
  lemma QuietStepKeepsEarned(w: World, step: Step, looks: seq<Look>)
    requires Valid(w) && Enabled(w, step) && AllEarned(w, looks)
    requires !step.Check? && !step.Accrue? && !step.OtherEntry?
    ensures AllEarned(Next(w, step), looks)
  {
    hide EarnedAt, EntryEarned, Available, Batch, Settle, Points, HasAccrual;
    var w' := Next(w, step);
    forall q: nat | q < |w'.pollers|
      ensures PollerEarned(w', q, looks)
    {
      assert PollerValid(w, q) && PollerEarned(w, q, looks);
    }
  }

  lemma StepKeepsEarned(w: World, step: Step, looks: seq<Look>)
    requires Valid(w) && Enabled(w, step) && AllEarned(w, looks)
    ensures AllEarned(Next(w, step), looks + Looked(w, step))
  {
    hide AllEarned, Valid;
    if step.Check? {
      CheckKeepsEarned(w, step.p, step.rate, step.minAmount, looks);
    } else {
      assert looks + Looked(w, step) == looks;
      if step.Accrue? {
        AccrueKeepsEarned(w, step.p, step.acknowledged, looks);
      } else if step.OtherEntry? {
        EntryKeepsEarned(w, Next(w, step), step.entry, looks);
      } else {
        QuietStepKeepsEarned(w, step, looks);
      }
    }
  }

  lemma {:induction false} RunKeepsEarned(w: World, steps: seq<Step>, looks: seq<Look>)
    requires Valid(w) && RunFrom(w, steps) && AllEarned(w, looks)
    ensures AllEarned(End(w, steps), looks + Looks(w, steps))
    decreases |steps|
  {
    hide Valid, AllEarned, Enabled, Next, Looked;
    if steps == [] {
      assert looks + Looks(w, steps) == looks;
    } else {
      StepKeepsValid(w, steps[0]);
      StepKeepsEarned(w, steps[0], looks);
      RunKeepsEarned(Next(w, steps[0]), steps[1..], looks + Looked(w, steps[0]));
      assert looks + Looked(w, steps[0]) + Looks(Next(w, steps[0]), steps[1..]) == looks + Looks(w, steps);
    }
  }

  /**
   * Over any run, with any number of pollers and whatever crashes: every accrual
   * of a sale was written after a look at an event of that sale, with the rate
   * and the minimum of that moment; its points are the whole part of subtotal
   * times rate, at least one, and the subtotal reaches the minimum.
   */
  lemma AccrualsAreEarned(n: nat, steps: seq<Step>, i: nat)
    requires RunFrom(Start(n), steps) && i < |End(Start(n), steps).history|
    requires var entry := End(Start(n), steps).history[i]; entry.reason == ACCRUAL && IsSaleRef(entry.transactionRef)
    ensures var entry := End(Start(n), steps).history[i];
            EarnedAt(Looks(Start(n), steps), entry.customerId, entry.transactionRef, entry.pointsDelta)
  {
    StartValid(n);
    assert AllEarned(Start(n), []);
    RunKeepsEarned(Start(n), steps, []);
    assert [] + Looks(Start(n), steps) == Looks(Start(n), steps);
    assert EntryEarned(Looks(Start(n), steps), End(Start(n), steps).history[i]);
  }
}
