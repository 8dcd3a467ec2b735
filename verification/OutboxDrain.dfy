/** How polls drain the pending events, with one poller and with several. */
module OutboxDrain {
  import opened Outbox
  import opened OutboxRuns

  /** The events still pending, in order. */
  function PendingIds(outbox: seq<Row>): seq<nat> {
    Available(outbox, [Idle], 0)
  }

  function Min(a: nat, b: nat): nat {
    if a < b then a else b
  }

  lemma Tail(first: nat, rest: seq<nat>, k: nat)
    requires k <= |rest| + 1
    ensures ([first] + rest)[k..] == if k > 0 then rest[k - 1..] else [first] + rest
  {
  }

  /** Of these rows, exactly the first `k` are marked. */
  ghost predicate MarksFirst(ids: seq<nat>, marks: map<nat, Status>, k: nat) {
    forall j :: 0 <= j < |ids| ==> (ids[j] in marks <==> j < k)
  }

  lemma MarksTail(first: nat, rest: seq<nat>, marks: map<nat, Status>, k: nat)
    requires MarksFirst([first] + rest, marks, k)
    ensures first in marks <==> k > 0
    ensures MarksFirst(rest, marks, if k > 0 then k - 1 else 0)
  {
    var ids := [first] + rest;
    assert ids[0] == first && forall j :: 0 <= j < |rest| ==> ids[j + 1] == rest[j];
  }

  /** Settling the first `k` pending rows leaves the others pending. */
  lemma {:induction false} SettledAvailable(outbox: seq<Row>, marks: map<nat, Status>, k: nat, i: nat)
    requires i <= |outbox| && k <= |Available(outbox, [Idle], i)|
    requires MarksFirst(Available(outbox, [Idle], i), marks, k)
    requires forall id :: id in marks ==> marks[id] != Pending
    ensures Available(Settle(outbox, marks), [Idle], i) == Available(outbox, [Idle], i)[k..]
    decreases |outbox| - i
  {
    if i < |outbox| {
      AvailableStep(outbox, [Idle], i);
      AvailableStep(Settle(outbox, marks), [Idle], i);
      assert !IsLocked([Idle], i);
      hide Settle, Available, IsLocked, MarksFirst;
      var rest := Available(outbox, [Idle], i + 1);
      if outbox[i].status == Pending {
        Tail(i, rest, k);
        MarksTail(i, rest, marks, k);
        SettledAvailable(outbox, marks, if k > 0 then k - 1 else 0, i + 1);
      } else {
        SettledAvailable(outbox, marks, k, i + 1);
      }
    }
  }

  lemma SettledPending(outbox: seq<Row>, marks: map<nat, Status>, k: nat)
    requires k <= |PendingIds(outbox)|
    requires forall id :: id in marks <==> id in PendingIds(outbox)[..k]
    requires forall id :: id in marks ==> marks[id] != Pending
    ensures PendingIds(Settle(outbox, marks)) == PendingIds(outbox)[k..]
  {
    var ids := PendingIds(outbox);
    assert forall j :: 0 <= j < |ids| ==> (j < k <==> ids[j] in ids[..k]);
    SettledAvailable(outbox, marks, k, 0);
  }

  /** What is left after so many polls of fifty. */
  function AfterPolls(ids: seq<nat>, polls: nat): seq<nat> {
    ids[Min(50 * polls, |ids|)..]
  }

  lemma MorePolls(ids: seq<nat>, m: nat, n: nat)
    ensures AfterPolls(AfterPolls(ids, m), n) == AfterPolls(ids, m + n)
  {
  }

  lemma AllAfterPolls(ids: seq<nat>, polls: nat)
    ensures AfterPolls(ids, polls) == [] <==> 50 * polls >= |ids|
    ensures polls == 0 ==> AfterPolls(ids, polls) == ids
  {
  }

  // ── One poller ────────────────────────────────────────────────────────────

  function Commits(steps: seq<Step>): nat {
    if steps == [] then 0 else (if steps[0].Commit? then 1 else 0) + Commits(steps[1..])
  }

  ghost predicate NoNewEvents(steps: seq<Step>) {
    forall i :: 0 <= i < |steps| ==> !steps[i].NewEvent?
  }

  /** The first pending rows, fifty at most. */
  function FirstPending(outbox: seq<Row>): seq<nat> {
    PendingIds(outbox)[..Min(BATCH_SIZE, |PendingIds(outbox)|)]
  }

  /** A lone poller that is polling holds the first pending rows. */
  ghost predicate HoldsFirst(w: World) {
    |w.pollers| == 1 && (w.pollers[0].Polling? ==> w.pollers[0].batch == FirstPending(w.outbox))
  }

  lemma CommitDrains(w: World)
    requires Valid(w) && HoldsFirst(w) && Enabled(w, Commit(0))
    ensures PendingIds(Next(w, Commit(0)).outbox) == AfterPolls(PendingIds(w.outbox), 1)
    ensures HoldsFirst(Next(w, Commit(0)))
  {
    hide PendingIds, Apart, Honest, SaleEvents, Settle;
    var poller := w.pollers[0];
    assert PollerValid(w, 0);
    assert poller.batch[..poller.next] == poller.batch;
    SettledPending(w.outbox, poller.marks, Min(BATCH_SIZE, |PendingIds(w.outbox)|));
  }

  /** A step of a lone poller's run other than a commit: the rows stay, and the poller holds the first pending ones if any. */
  lemma StepDrains(w: World, step: Step)
    requires Valid(w) && HoldsFirst(w) && Enabled(w, step) && !step.NewEvent? && !step.Commit?
    ensures Next(w, step).outbox == w.outbox && HoldsFirst(Next(w, step))
  {
    hide Valid, HasAccrual, Points, Available, Credit;
    if step.Select? {
      assert w.pollers == [Idle];
    }
  }

  /**
   * One poller, no new event: whatever fails or crashes, after c commits exactly
   * the events after the first 50 c pending ones are pending, so they are gone
   * if and only if 50 c is at least their number.
   */
  lemma {:induction false} PollsToDrain(w: World, steps: seq<Step>)
    requires Valid(w) && HoldsFirst(w) && RunFrom(w, steps) && NoNewEvents(steps)
    ensures var pending := PendingIds(w.outbox);
            && PendingIds(End(w, steps).outbox) == AfterPolls(pending, Commits(steps))
            && (PendingIds(End(w, steps).outbox) == [] <==> 50 * Commits(steps) >= |pending|)
    decreases |steps|
  {
    hide Valid, HoldsFirst, Enabled, Next, PendingIds, AfterPolls;
    AllAfterPolls(PendingIds(w.outbox), Commits(steps));
    if steps != [] {
      var w' := Next(w, steps[0]);
      StepKeepsValid(w, steps[0]);
      if steps[0].Commit? {
        LonePoller(w, steps[0]);
        CommitDrains(w);
        MorePolls(PendingIds(w.outbox), 1, Commits(steps[1..]));
      } else {
        StepDrains(w, steps[0]);
      }
      PollsToDrain(w', steps[1..]);
    }
  }

  lemma LonePoller(w: World, step: Step)
    requires HoldsFirst(w) && Enabled(w, step) && step.Commit?
    ensures step == Commit(0)
  {
  }

  // ── Several pollers ───────────────────────────────────────────────────────

  function PendingSet(outbox: seq<Row>): set<nat> {
    set id: nat | id < |outbox| && outbox[id].status == Pending
  }

  /** The rows of the batches committed in a run. */
  ghost function RowsCommitted(w: World, steps: seq<Step>): nat
    requires RunFrom(w, steps)
    decreases |steps|
  {
    if steps == [] then 0
    else (if steps[0].Commit? then |w.pollers[steps[0].p].batch| else 0) + RowsCommitted(Next(w, steps[0]), steps[1..])
  }

  function RowSet(ids: seq<nat>): set<nat> {
    set id | id in ids
  }

  lemma {:induction false} DistinctSize(ids: seq<nat>)
    requires forall i, j :: 0 <= i < j < |ids| ==> ids[i] != ids[j]
    ensures |RowSet(ids)| == |ids|
  {
    if ids != [] {
      var first, last := ids[..|ids| - 1], ids[|ids| - 1];
      DistinctSize(first);
      assert ids == first + [last];
      assert RowSet(ids) == RowSet(first) + {last};
    }
  }

  lemma SettleTakes(outbox: seq<Row>, batch: seq<nat>, marks: map<nat, Status>)
    requires forall id :: id in marks <==> id in batch
    requires forall id :: id in marks ==> marks[id] != Pending
    requires forall id :: id in batch ==> id < |outbox| && outbox[id].status == Pending
    ensures PendingSet(Settle(outbox, marks)) == PendingSet(outbox) - RowSet(batch)
    ensures RowSet(batch) <= PendingSet(outbox)
  {
  }

  lemma CommitTakes(w: World, p: nat)
    requires Valid(w) && Enabled(w, Commit(p))
    ensures var (batch, after) := (w.pollers[p].batch, PendingSet(Next(w, Commit(p)).outbox));
            && |batch| <= BATCH_SIZE
            && after <= PendingSet(w.outbox) && |PendingSet(w.outbox)| == |after| + |batch|
  {
    hide PendingSet, RowSet, Apart, Honest, SaleEvents, Settle;
    var poller := w.pollers[p];
    assert PollerValid(w, p);
    assert poller.batch[..poller.next] == poller.batch;
    DistinctSize(poller.batch);
    SettleTakes(w.outbox, poller.batch, poller.marks);
    var before, taken := PendingSet(w.outbox), RowSet(poller.batch);
    assert before == (before - taken) + taken;
  }

  lemma QuietStepTakesNone(w: World, step: Step)
    requires Enabled(w, step) && !step.NewEvent? && !step.Commit?
    ensures Next(w, step).outbox == w.outbox
  {
    hide HasAccrual, Points, Available, Credit, Batch;
  }

  /**
   * Any number of pollers, no new event: the pending events shrink by exactly
   * the batches committed, no event is in two of them, and n events take at
   * least one commit for each fifty.
   */
  lemma {:induction false} PollersShareTheEvents(w: World, steps: seq<Step>)
    requires Valid(w) && RunFrom(w, steps) && NoNewEvents(steps)
    ensures var (before, after) := (PendingSet(w.outbox), PendingSet(End(w, steps).outbox));
            && after <= before && |before| == |after| + RowsCommitted(w, steps)
            && RowsCommitted(w, steps) <= 50 * Commits(steps)
            && (after == {} ==> 50 * Commits(steps) >= |before|)
    decreases |steps|
  {
    hide Valid, Enabled, Next, PendingSet;
    if steps != [] {
      StepKeepsValid(w, steps[0]);
      if steps[0].Commit? {
        CommitTakes(w, steps[0].p);
      } else {
        QuietStepTakesNone(w, steps[0]);
      }
      PollersShareTheEvents(Next(w, steps[0]), steps[1..]);
    }
  }
}
