/** Which events end as failed, over runs of pollers and handlers (apps/api/src/workers/outboxPoller.ts). */
module OutboxFailures {
  import opened Outbox
  import opened OutboxRuns

  /** The row whose handler throws in this step, before it wrote or after its commit was lost. */
  function Threw(w: World, step: Step): set<nat>
    requires Enabled(w, step)
  {
    match step
    case HandlerThrows(p) => {Current(w, p)}
    case Accrue(p, acknowledged) =>
      if !acknowledged && CurrentEvent(w, p).customerId in w.accounts then {Current(w, p)} else {}
    case _ => {}
  }

  /** The rows whose handler threw during a run. */
  ghost function Throws(w: World, steps: seq<Step>): set<nat>
    requires RunFrom(w, steps)
    decreases |steps|
  {
    if steps == [] then {} else Threw(w, steps[0]) + Throws(Next(w, steps[0]), steps[1..])
  }

  ghost predicate MarkedWithin(poller: Poller, thrown: set<nat>) {
    poller.Polling? ==> forall id :: id in poller.marks && poller.marks[id] == Failed ==> id in thrown
  }

  /** Rows that failed, or are marked failed by a poller that has not committed yet. */
  ghost predicate FailedWithin(w: World, thrown: set<nat>) {
    && (forall id :: 0 <= id < |w.outbox| && w.outbox[id].status == Failed ==> id in thrown)
    && (forall p :: 0 <= p < |w.pollers| ==> MarkedWithin(w.pollers[p], thrown))
  }

  lemma MarkKeepsMarks(w: World, q: nat, status: Status, thrown: set<nat>, p: nat)
    requires At(w, q) && p < |w.pollers| && MarkedWithin(w.pollers[p], thrown)
    requires status == Failed ==> Current(w, q) in thrown
    ensures |Mark(w, q, status).pollers| == |w.pollers| && MarkedWithin(Mark(w, q, status).pollers[p], thrown)
  {
  }

  lemma MoreThrown(poller: Poller, thrown: set<nat>, more: set<nat>)
    requires MarkedWithin(poller, thrown)
    ensures MarkedWithin(poller, thrown + more)
  {
  }

  lemma StepKeepsMarks(w: World, step: Step, thrown: set<nat>, p: nat)
    requires Enabled(w, step) && p < |w.pollers| && MarkedWithin(w.pollers[p], thrown)
    ensures p < |Next(w, step).pollers| == |w.pollers|
    ensures MarkedWithin(Next(w, step).pollers[p], thrown + Threw(w, step))
  {
    hide Batch, Available, Points, HasAccrual, Settle;
    var all := thrown + Threw(w, step);
    MoreThrown(w.pollers[p], thrown, Threw(w, step));
    if step.Accrue? {
      AccrueKeepsMarks(w, step.p, step.acknowledged, all, p);
    } else if step.HandlerThrows? {
      MarkKeepsMarks(w, step.p, Failed, all, p);
    }
  }

  lemma AccrueKeepsMarks(w: World, q: nat, acknowledged: bool, thrown: set<nat>, p: nat)
    requires Enabled(w, Accrue(q, acknowledged)) && p < |w.pollers| && MarkedWithin(w.pollers[p], thrown)
    requires Threw(w, Accrue(q, acknowledged)) <= thrown
    ensures |Next(w, Accrue(q, acknowledged)).pollers| == |w.pollers|
    ensures MarkedWithin(Next(w, Accrue(q, acknowledged)).pollers[p], thrown)
  {
  }

  lemma StepKeepsFailed(w: World, step: Step, thrown: set<nat>)
    requires Enabled(w, step) && FailedWithin(w, thrown)
    ensures FailedWithin(Next(w, step), thrown + Threw(w, step))
  {
    hide Batch, Available, Points, HasAccrual;
    forall p: nat | p < |w.pollers|
      ensures p < |Next(w, step).pollers| == |w.pollers|
      ensures MarkedWithin(Next(w, step).pollers[p], thrown + Threw(w, step))
    {
      StepKeepsMarks(w, step, thrown, p);
    }
    if !step.Commit? {
      hide MarkedWithin, Threw;
    }
  }

  lemma {:induction false} RunKeepsFailed(w: World, steps: seq<Step>, thrown: set<nat>)
    requires RunFrom(w, steps) && FailedWithin(w, thrown)
    ensures FailedWithin(End(w, steps), thrown + Throws(w, steps))
    decreases |steps|
  {
    hide Enabled, Next, Threw, FailedWithin;
    if steps == [] {
      assert thrown + Throws(w, steps) == thrown;
    } else {
      StepKeepsFailed(w, steps[0], thrown);
      RunKeepsFailed(Next(w, steps[0]), steps[1..], thrown + Threw(w, steps[0]));
      assert thrown + Threw(w, steps[0]) + Throws(Next(w, steps[0]), steps[1..]) == thrown + Throws(w, steps);
    }
  }

  /** Whatever crashes: an event fails only if its handler threw; one whose handler never does is pending or published. */
  lemma OnlyThrownFail(n: nat, steps: seq<Step>, id: nat)
    requires RunFrom(Start(n), steps) && id < |End(Start(n), steps).outbox|
    ensures End(Start(n), steps).outbox[id].status == Failed ==> id in Throws(Start(n), steps)
  {
    assert FailedWithin(Start(n), {});
    RunKeepsFailed(Start(n), steps, {});
    assert {} + Throws(Start(n), steps) == Throws(Start(n), steps);
  }

  /** A commit settles exactly the rows of its poller, each as it was marked, and leaves the poller free for the next poll. */
  lemma CommitSettles(w: World, p: nat, id: nat)
    requires Valid(w) && Enabled(w, Commit(p)) && id < |w.outbox|
    ensures var w' := Next(w, Commit(p));
            && w'.pollers[p] == Idle
            && (id in w.pollers[p].batch ==> id in w.pollers[p].marks && w'.outbox[id].status == w.pollers[p].marks[id] != Pending)
            && (id !in w.pollers[p].batch ==> w'.outbox[id] == w.outbox[id])
  {
    assert PollerValid(w, p);
    assert w.pollers[p].batch[..|w.pollers[p].batch|] == w.pollers[p].batch;
  }
}
