/**
 * How often one process polls the outbox: a timer starts a tick, which polls
 * and then sets the next timer (apps/api/src/workers/outboxPoller.ts:17-18,
 * 141-169). Polls never overlap unless the poller is started again while a poll
 * of before it was stopped is still going on.
 */
module PollTimer {
  import opened Options

  /** The module's flag and timer, the timers set and not yet fired, the polls going on, and the next timer's id. */
  datatype Timers = Timers(running: bool, pollTimer: Option<nat>, pending: set<nat>, polls: nat, nextId: nat)

  const INITIAL: Timers := Timers(false, None, {}, 0, 0)

  function SetTimeout(t: Timers): Timers {
    t.(pollTimer := Some(t.nextId), pending := t.pending + {t.nextId}, nextId := t.nextId + 1)
  }

  datatype Step = Start | Stop | Fires(timer: nat) | PollEnds

  predicate Enabled(t: Timers, step: Step) {
    match step
    case Fires(timer) => timer in t.pending
    case PollEnds => t.polls > 0
    case _ => true
  }

  function Next(t: Timers, step: Step): Timers
    requires Enabled(t, step)
  {
    match step
    case Start => if t.running then t else SetTimeout(t.(running := true))
    case Stop =>
      t.(running := false, pollTimer := None,
         pending := if t.pollTimer.Some? then t.pending - {t.pollTimer.value} else t.pending)
    case Fires(timer) => t.(pending := t.pending - {timer}, polls := t.polls + if t.running then 1 else 0)
    case PollEnds =>
      var ended := t.(polls := t.polls - 1);
      if t.running then SetTimeout(ended) else ended
  }

  /** The same, as the module's state changes. */
  class Poller {
    var running: bool
    var pollTimer: Option<nat>
    var pending: set<nat>
    var polls: nat
    var nextId: nat

    function State(): Timers
      reads this
    {
      Timers(running, pollTimer, pending, polls, nextId)
    }

    constructor ()
      ensures State() == INITIAL
    {
      running, pollTimer, pending, polls, nextId := false, None, {}, 0, 0;
    }

    method StartOutboxPoller()
      modifies this
      ensures State() == Next(old(State()), Start)
    {
      if running {
        return;
      }
      running := true;
      pending := pending + {nextId};
      pollTimer := Some(nextId);
      nextId := nextId + 1;
    }

    method StopOutboxPoller()
      modifies this
      ensures State() == Next(old(State()), Stop)
    {
      running := false;
      if pollTimer.Some? {
        pending := pending - {pollTimer.value};
        pollTimer := None;
      }
    }

    /** A tick up to its poll, and after it. */
    method TickBegins(timer: nat)
      requires timer in pending
      modifies this
      ensures State() == Next(old(State()), Fires(timer))
    {
      pending := pending - {timer};
      if !running {
        return;
      }
      polls := polls + 1;
    }

    method TickEnds()
      requires polls > 0
      modifies this
      ensures State() == Next(old(State()), PollEnds)
    {
      polls := polls - 1;
      if running {
        pending := pending + {nextId};
        pollTimer := Some(nextId);
        nextId := nextId + 1;
      }
    }
  }

  ghost predicate RunFrom(t: Timers, steps: seq<Step>)
    decreases |steps|
  {
    steps != [] ==> Enabled(t, steps[0]) && RunFrom(Next(t, steps[0]), steps[1..])
  }

  ghost function End(t: Timers, steps: seq<Step>): Timers
    requires RunFrom(t, steps)
    decreases |steps|
  {
    if steps == [] then t else End(Next(t, steps[0]), steps[1..])
  }

  /** One timer or one poll at most, the timer the one that stopping clears. */
  ghost predicate OneAtATime(t: Timers) {
    && |t.pending| + t.polls <= 1
    && (t.pending != {} ==> t.running && t.pollTimer.Some? && t.pending == {t.pollTimer.value})
    && (t.running ==> t.pending != {} || t.polls == 1)
  }

  /** Started while a poll of before the last stop goes on. */
  predicate StartsTooSoon(t: Timers, step: Step) {
    step.Start? && !t.running && t.polls > 0
  }

  /** A step keeps polls from overlapping exactly when it is no start too soon. */
  lemma StepKeepsOneAtATime(t: Timers, step: Step)
    requires OneAtATime(t) && Enabled(t, step)
    ensures OneAtATime(Next(t, step)) <==> !StartsTooSoon(t, step)
  {
    if step.Fires? {
      assert t.pending == {step.timer};
      assert t.pending - {step.timer} == {};
    }
  }

  ghost predicate NeverTooSoon(t: Timers, steps: seq<Step>)
    requires RunFrom(t, steps)
    decreases |steps|
  {
    steps != [] ==> !StartsTooSoon(t, steps[0]) && NeverTooSoon(Next(t, steps[0]), steps[1..])
  }

  /** However often the poller is stopped and started, never too soon, no two polls overlap. */
  lemma {:induction false} PollsNeverOverlap(t: Timers, steps: seq<Step>)
    requires OneAtATime(t) && RunFrom(t, steps) && NeverTooSoon(t, steps)
    ensures OneAtATime(End(t, steps)) && End(t, steps).polls <= 1
    decreases |steps|
  {
    hide Enabled, Next;
    if steps != [] {
      StepKeepsOneAtATime(t, steps[0]);
      PollsNeverOverlap(Next(t, steps[0]), steps[1..]);
    }
  }

  lemma InitiallyNone()
    ensures OneAtATime(INITIAL)
  {
  }

  /** Too soon, and two polls go on at once when the new timer fires before the old poll ends. */
  lemma TooSoonOverlaps(t: Timers)
    requires OneAtATime(t) && StartsTooSoon(t, Start)
    ensures RunFrom(t, [Start, Fires(t.nextId)]) && End(t, [Start, Fires(t.nextId)]).polls == 2
  {
    var started := Next(t, Start);
    var fires := Fires(t.nextId);
    assert [Start, fires][1..] == [fires] && [fires][1..] == [];
    assert RunFrom(Next(started, fires), []);
    assert RunFrom(started, [fires]) && End(started, [fires]) == Next(started, fires);
  }

  /** Stopped during its first poll and started again: from there two polls go on at once. */
  lemma OverlapIsReached()
    ensures var steps := [Start, Fires(0), Stop];
            && RunFrom(INITIAL, steps)
            && var t := End(INITIAL, steps);
            && OneAtATime(t) && StartsTooSoon(t, Start)
            && RunFrom(t, [Start, Fires(1)]) && End(t, [Start, Fires(1)]).polls == 2
  {
    var t1 := Next(INITIAL, Start);
    var t2 := Next(t1, Fires(0));
    var t3 := Next(t2, Stop);
    assert t1.pending - {0} == {};
    var steps := [Start, Fires(0), Stop];
    assert steps[1..] == [Fires(0), Stop] && [Fires(0), Stop][1..] == [Stop] && [Stop][1..] == [];
    assert RunFrom(t3, []) && End(t3, []) == t3;
    assert RunFrom(t2, [Stop]) && End(t2, [Stop]) == t3;
    assert RunFrom(t1, [Fires(0), Stop]) && End(t1, [Fires(0), Stop]) == t3;
    TooSoonOverlaps(t3);
  }
}
