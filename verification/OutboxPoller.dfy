/** The poller and the loyalty handler as the process runs them, one poll after another. */
module OutboxPoller {
  import opened Outbox
  import opened OutboxRuns
  import opened OutboxDrain
  import opened Options

  /** What became of a call that can fail or be cut short. */
  datatype Completion = Returned | Threw | Crashed

  lemma RunThen(w: Outbox.World, steps: seq<Step>, step: Step)
    requires RunFrom(w, steps) && Enabled(End(w, steps), step)
    ensures RunFrom(w, steps + [step]) && End(w, steps + [step]) == Next(End(w, steps), step)
  {
    RunStep(End(w, steps), step, []);
    assert [step] + [] == [step];
    RunConcat(w, steps, [step]);
  }

  /** A lone poller takes a batch, commits its marks, or stops. */
  lemma PollBegins(w: Outbox.World)
    requires w.pollers == [Idle]
    ensures Enabled(w, Select(0))
    ensures Next(w, Select(0)) == if Batch(w) == [] then w else w.(pollers := [Polling(Batch(w), 0, map[], Starting)])
  {
  }

  lemma PollEnds(w: Outbox.World, batch: seq<nat>, marks: map<nat, Status>)
    requires w.pollers == [Polling(batch, |batch|, marks, Starting)]
    ensures Enabled(w, Commit(0)) && Next(w, Commit(0)) == w.(outbox := Settle(w.outbox, marks), pollers := [Idle])
    ensures Enabled(w, Crash(0)) && Next(w, Crash(0)) == w.(pollers := [Idle])
  {
  }

  // ── A row handled, as a run of steps ──────────────────────────────────────

  /** A lone poller at a row. */
  ghost predicate LoneAt(w: Outbox.World) {
    |w.pollers| == 1 && At(w, 0)
  }

  /** Where the poller is after its row: past it, with what it will write, or nowhere. */
  function PollerAfter(poller: Poller, completion: Completion): Poller
    requires poller.Polling? && poller.next < |poller.batch|
  {
    var id := poller.batch[poller.next];
    match completion
    case Returned => Polling(poller.batch, poller.next + 1, poller.marks[id := Published], Starting)
    case Threw => Polling(poller.batch, poller.next + 1, poller.marks[id := Failed], Starting)
    case Crashed => Idle
  }

  /** A run of steps over the poller's row, from `before` to the tables of `after`. */
  ghost predicate Handled(before: Outbox.World, completion: Completion, steps: seq<Step>, after: Outbox.World)
    requires LoneAt(before)
  {
    RunFrom(before, steps) && End(before, steps) == after.(pollers := [PollerAfter(before.pollers[0], completion)])
  }

  lemma OneStep(w: Outbox.World, step: Step)
    requires Enabled(w, step)
    ensures RunFrom(w, [step]) && End(w, [step]) == Next(w, step)
  {
    RunStep(w, step, []);
    assert [step] + [] == [step];
  }

  lemma Crashes(w: Outbox.World)
    requires LoneAt(w)
    ensures Handled(w, Crashed, [Crash(0)], w.(pollers := [Idle]))
  {
    hide RunFrom, End;
    OneStep(w, Crash(0));
  }

  lemma Throws(w: Outbox.World)
    requires LoneAt(w) && !CurrentEvent(w, 0).Unhandled?
    ensures Handled(w, Threw, [HandlerThrows(0)], w.(pollers := [Idle]))
  {
    hide RunFrom, End;
    OneStep(w, HandlerThrows(0));
  }

  lemma Skips(w: Outbox.World)
    requires LoneAt(w) && CurrentEvent(w, 0).Unhandled? && w.pollers[0].handler == Starting
    ensures Handled(w, Returned, [Skip(0)], w.(pollers := [Idle]))
  {
    hide RunFrom, End;
    OneStep(w, Skip(0));
  }

  lemma Notifies(w: Outbox.World)
    requires LoneAt(w) && CurrentEvent(w, 0).Notification? && w.pollers[0].handler == Starting
    ensures Handled(w, Returned, [Notify(0)], w.(pollers := [Idle], returned := w.returned[Current(w, 0) := Notified]))
  {
    hide RunFrom, End;
    OneStep(w, Notify(0));
  }

  lemma Checks(w: Outbox.World, rate: real, minAmount: real, outcome: Outcome)
    requires LoneAt(w) && CurrentEvent(w, 0).LoyaltyAccrual? && w.pollers[0].handler == Starting
    requires Checked(w, 0, rate, minAmount) == Return(w, 0, outcome)
    ensures Handled(w, Returned, [Check(0, rate, minAmount)], w.(pollers := [Idle], returned := w.returned[Current(w, 0) := outcome]))
  {
    hide RunFrom, End, Checked;
    OneStep(w, Check(0, rate, minAmount));
  }

  /** The check finds points to add, and then they are added. */
  lemma ChecksAndAdds(w: Outbox.World, rate: real, minAmount: real, checked: Outbox.World,
                      completion: Completion, steps: seq<Step>, after: Outbox.World)
    requires LoneAt(w) && CurrentEvent(w, 0).LoyaltyAccrual? && w.pollers[0].handler == Starting
    requires Checked(w, 0, rate, minAmount) == checked
    requires LoneAt(checked) && checked.pollers[0] == w.pollers[0].(handler := checked.pollers[0].handler)
    requires Handled(checked, completion, steps, after)
    ensures Handled(w, completion, [Check(0, rate, minAmount)] + steps, after)
  {
    hide RunFrom, End, Checked;
    RunStep(w, Check(0, rate, minAmount), steps);
  }

  lemma FindsNoAccount(w: Outbox.World)
    requires LoneAt(w) && CurrentEvent(w, 0).LoyaltyAccrual? && w.pollers[0].handler.Accruing?
    requires CurrentEvent(w, 0).customerId !in w.accounts
    ensures Handled(w, Returned, [Accrue(0, true)], w.(pollers := [Idle], returned := w.returned[Current(w, 0) := NoAccount]))
  {
    hide RunFrom, End;
    OneStep(w, Accrue(0, true));
  }

  /** Points added, and the commit acknowledged or not. */
  lemma Adds(w: Outbox.World, acknowledged: bool)
    requires LoneAt(w) && CurrentEvent(w, 0).LoyaltyAccrual? && w.pollers[0].handler.Accruing?
    requires CurrentEvent(w, 0).customerId in w.accounts
    ensures var e := CurrentEvent(w, 0);
            var entry := Entry(e.customerId, e.transactionRef, w.pollers[0].handler.points as real, ACCRUAL);
            var added := w.(pollers := [Idle], accounts := w.accounts[e.customerId := Credit(w.accounts[e.customerId], entry)],
                            history := w.history + [entry]);
            Handled(w, if acknowledged then Returned else Threw, [Accrue(0, acknowledged)],
                    if acknowledged then added.(returned := w.returned[Current(w, 0) := Accrued]) else added)
  {
    hide RunFrom, End, Credit;
    OneStep(w, Accrue(0, acknowledged));
  }

  class Process {
    var outbox: seq<Row>
    var accounts: map<int, Account>
    var history: seq<Entry>
    /** Which handlers returned, as the runs record it. */
    ghost var returned: map<nat, Outcome>

    constructor ()
      ensures World(Idle) == Start(1)
    {
      outbox, accounts, history, returned := [], map[], [], map[];
      new;
      assert [Idle] == Pollers(1);
    }

    /** The tables and this process's one poller, as a world of the run. */
    ghost function World(poller: Poller): World
      reads this
    {
      Outbox.World(outbox, accounts, history, [poller], returned)
    }

    /**
     * The loyalty handler for the row its poller is at. The database may fail
     * and the process may stop at any point; whatever happens is a run of steps.
     */
    method HandleLoyaltyAccrual(customerId: int, transactionRef: string, subtotal: Option<real>, rate: real,
                                minAmount: real, ghost batch: seq<nat>, ghost next: nat, ghost marks: map<nat, Status>)
      returns (completion: Completion, ghost steps: seq<Step>)
      requires next < |batch| && batch[next] < |outbox|
      requires outbox[batch[next]].event == LoyaltyAccrual(customerId, transactionRef, subtotal)
      modifies this`accounts, this`history, this`returned
      ensures Handled(old(World(Polling(batch, next, marks, Starting))), completion, steps, World(Idle))
    {
      hide Handled, PollerAfter, HasAccrual, Points;
      ghost var id := batch[next];
      ghost var w := World(Polling(batch, next, marks, Starting));
      if * {
        Crashes(w);
        return Crashed, [Crash(0)];
      }
      if * {
        Throws(w);
        return Threw, [HandlerThrows(0)];
      }
      steps := [Check(0, rate, minAmount)];
      if customerId == 0 || transactionRef == "" || subtotal.None? {
        returned := returned[id := NotDue];
        Checks(w, rate, minAmount, NotDue);
        return Returned, steps;
      }
      if HasAccrual(history, customerId, transactionRef) {
        returned := returned[id := AlreadyAccrued];
        Checks(w, rate, minAmount, AlreadyAccrued);
        return Returned, steps;
      }
      if subtotal.value < minAmount {
        returned := returned[id := NotDue];
        Checks(w, rate, minAmount, NotDue);
        return Returned, steps;
      }
      var points := Points(subtotal.value, rate);
      if points <= 0 {
        returned := returned[id := NotDue];
        Checks(w, rate, minAmount, NotDue);
        return Returned, steps;
      }
      ghost var more;
      ghost var checked := World(Polling(batch, next, marks, Accruing(points)));
      completion, more := AddPoints(customerId, transactionRef, points, batch, next, marks);
      ChecksAndAdds(w, rate, minAmount, checked, completion, more, World(Idle));
      steps := steps + more;
    }

    /** The handler's own transaction: the account and the history together, or neither. */
    method AddPoints(customerId: int, transactionRef: string, points: int,
                     ghost batch: seq<nat>, ghost next: nat, ghost marks: map<nat, Status>)
      returns (completion: Completion, ghost steps: seq<Step>)
      requires next < |batch| && batch[next] < |outbox| && outbox[batch[next]].event.LoyaltyAccrual?
      requires outbox[batch[next]].event.customerId == customerId && outbox[batch[next]].event.transactionRef == transactionRef
      modifies this`accounts, this`history, this`returned
      ensures Handled(old(World(Polling(batch, next, marks, Accruing(points)))), completion, steps, World(Idle))
    {
      hide Handled, PollerAfter;
      ghost var w := World(Polling(batch, next, marks, Accruing(points)));
      if * {
        Crashes(w);
        return Crashed, [Crash(0)];
      }
      if * {
        Throws(w);
        return Threw, [HandlerThrows(0)];
      }
      if customerId !in accounts {
        returned := returned[batch[next] := NoAccount];
        FindsNoAccount(w);
        return Returned, [Accrue(0, true)];
      }
      var entry := Entry(customerId, transactionRef, points as real, ACCRUAL);
      var account := accounts[customerId];
      accounts := accounts[customerId :=
        Account(account.pointsBalance + points as real,
                if points > 0 then account.lifetimePoints + points as real else account.lifetimePoints)];
      history := history + [entry];
      assert accounts[customerId] == Credit(account, entry);
      if * {
        Adds(w, false);
        return Threw, [Accrue(0, false)];
      }
      returned := returned[batch[next] := Accrued];
      Adds(w, true);
      return Returned, [Accrue(0, true)];
    }

    /** The handler of a row: it returns, throws, or the process stops in it. */
    method Handle(rate: real, minAmount: real, ghost batch: seq<nat>, ghost next: nat, ghost marks: map<nat, Status>, id: nat)
      returns (completion: Completion, ghost steps: seq<Step>)
      requires next < |batch| && batch[next] == id < |outbox|
      modifies this`accounts, this`history, this`returned
      ensures Handled(old(World(Polling(batch, next, marks, Starting))), completion, steps, World(Idle))
    {
      hide Handled, PollerAfter;
      ghost var w := World(Polling(batch, next, marks, Starting));
      match outbox[id].event
      case LoyaltyAccrual(customerId, transactionRef, subtotal) =>
        completion, steps := HandleLoyaltyAccrual(customerId, transactionRef, subtotal, rate, minAmount, batch, next, marks);
      case Notification =>
        if * {
          Crashes(w);
          return Crashed, [Crash(0)];
        }
        if * {
          Throws(w);
          return Threw, [HandlerThrows(0)];
        }
        returned := returned[id := Notified];
        Notifies(w);
        return Returned, [Notify(0)];
      case Unhandled =>
        Skips(w);
        return Returned, [Skip(0)];
    }

    /**
     * One poll: up to fifty pending rows in order, each handled and marked, and
     * the marks committed together unless the process stops first. Whatever
     * happens is a run of steps, and a committed poll leaves the first fifty
     * pending rows settled.
     */
    method PollOnce(rate: real, minAmount: real) returns (finished: bool, ghost steps: seq<Step>)
      modifies this
      ensures RunFrom(old(World(Idle)), steps) && End(old(World(Idle)), steps) == World(Idle)
      ensures !finished ==> outbox == old(outbox)
      ensures finished ==> PendingIds(outbox) == AfterPolls(PendingIds(old(outbox)), 1)
    {
      hide RunFrom, End, Available, Settle, IsLocked, Start, Next, Enabled;
      ghost var start := World(Idle);
      var pending := PendingIds(outbox);
      var batch := if |pending| <= BATCH_SIZE then pending else pending[..BATCH_SIZE];
      assert batch == Batch(start);
      NoSteps(start);
      PollBegins(start);
      RunThen(start, [], Select(0));
      steps := [] + [Select(0)];
      if batch == [] {
        return true, steps;
      }
      var marks: map<nat, Status> := map[];
      var i := 0;
      while i < |batch|
        invariant 0 <= i <= |batch|
        invariant outbox == old(outbox)
        invariant RunFrom(start, steps) && End(start, steps) == World(Polling(batch, i, marks, Starting))
        invariant forall id :: id in marks <==> id in batch[..i]
        invariant forall id :: id in marks ==> marks[id] != Pending
      {
        var id := batch[i];
        assert batch[..i + 1] == batch[..i] + [id];
        var completion;
        ghost var more;
        completion, more := Handle(rate, minAmount, batch, i, marks, id);
        RunConcat(start, steps, more);
        steps := steps + more;
        if completion.Crashed? {
          return false, steps;
        }
        marks := marks[id := if completion.Returned? then Published else Failed];
        i := i + 1;
      }
      PollEnds(World(Polling(batch, i, marks, Starting)), batch, marks);
      if * {
        RunThen(start, steps, Crash(0));
        steps := steps + [Crash(0)];
        return false, steps;
      }
      RunThen(start, steps, Commit(0));
      steps := steps + [Commit(0)];
      assert batch[..i] == pending[..|batch|];
      SettledPending(outbox, marks, |batch|);
      outbox := Settle(outbox, marks);
      finished := true;
    }

    /**
     * Poll after poll, with no new event: each committed one settles fifty
     * pending events, or what is left of them, so they are gone after one for
     * each fifty and not before.
     */
    method PollRepeatedly(polls: nat, rate: real, minAmount: real) returns (committed: nat)
      modifies this
      ensures committed <= polls
      ensures PendingIds(outbox) == AfterPolls(PendingIds(old(outbox)), committed)
      ensures PendingIds(outbox) == [] <==> 50 * committed >= |PendingIds(old(outbox))|
    {
      hide PendingIds, AfterPolls;
      committed := 0;
      ghost var pending := PendingIds(outbox);
      AllAfterPolls(pending, 0);
      var i := 0;
      while i < polls
        invariant committed <= i <= polls
        invariant PendingIds(outbox) == AfterPolls(pending, committed)
      {
        var finished;
        ghost var steps;
        finished, steps := PollOnce(rate, minAmount);
        if finished {
          MorePolls(pending, committed, 1);
          committed := committed + 1;
        }
        i := i + 1;
      }
      AllAfterPolls(pending, committed);
    }
  }

  lemma NoSteps(w: Outbox.World)
    ensures RunFrom(w, []) && End(w, []) == w
  {
  }
}
