/**
 * A process with its poll timer and the polls it starts: each poll takes a
 * poller of its own, so that the pollers of the outbox are the polls going on
 * at once (apps/api/src/workers/outboxPoller.ts:74-169).
 */
module OutboxProcess {
  import opened Outbox
  import opened OutboxRuns
  import PollTimer

  /** The timers, the pollers whose poll is going on, and the tables. */
  datatype System = System(timers: PollTimer.Timers, going: set<nat>, world: World)

  /** Something of the timer (a poll that starts or ends has a poller), a step of the tables, or the end of the process. */
  datatype Move =
    | Timer(tick: PollTimer.Step, poller: nat)
    | Table(step: Step)
    | Dies

  predicate OfPoller(step: Step, p: nat) {
    match step
    case NewEvent(_) => false
    case NewAccount(_) => false
    case OtherEntry(_) => false
    case Select(q) => p == q
    case Check(q, _, _) => p == q
    case Accrue(q, _) => p == q
    case Notify(q) => p == q
    case Skip(q) => p == q
    case HandlerThrows(q) => p == q
    case Commit(q) => p == q
    case Crash(q) => p == q
  }

  /** A poll starts on a free poller and ends when its poller is done; a poller moves while its poll goes on. */
  ghost predicate Allowed(s: System, move: Move) {
    match move
    case Timer(step, p) =>
      && PollTimer.Enabled(s.timers, step)
      && (step.Fires? ==> p < |s.world.pollers| && s.world.pollers[p].Idle? && p !in s.going)
      && (step.PollEnds? ==> p < |s.world.pollers| && s.world.pollers[p].Idle? && p in s.going)
    case Table(step) => Enabled(s.world, step) && forall p :: OfPoller(step, p) ==> p in s.going
    case Dies => true
  }

  ghost function Moved(s: System, move: Move): System
    requires Allowed(s, move)
  {
    match move
    case Timer(step, p) =>
      var timers := PollTimer.Next(s.timers, step);
      var going :=
        if step.Fires? && s.timers.running then s.going + {p}
        else if step.PollEnds? then s.going - {p}
        else s.going;
      System(timers, going, s.world)
    case Table(step) => s.(world := Next(s.world, step))
    case Dies => System(PollTimer.INITIAL, {}, s.world.(pollers := Pollers(|s.world.pollers|)))
  }

  ghost predicate Runs(s: System, moves: seq<Move>)
    decreases |moves|
  {
    moves != [] ==> Allowed(s, moves[0]) && Runs(Moved(s, moves[0]), moves[1..])
  }

  ghost function Last(s: System, moves: seq<Move>): System
    requires Runs(s, moves)
    decreases |moves|
  {
    if moves == [] then s else Last(Moved(s, moves[0]), moves[1..])
  }

  function Boot(n: nat): System {
    System(PollTimer.INITIAL, {}, Start(n))
  }

  // ── One process accrues once ──────────────────────────────────────────────

  ghost predicate Tidy(s: System) {
    && Valid(s.world) && Once(s.world)
    && PollTimer.OneAtATime(s.timers) && |s.going| == s.timers.polls
    && forall p :: 0 <= p < |s.world.pollers| && s.world.pollers[p].Polling? ==> p in s.going
  }

  lemma OneOf(s: set<nat>, p: nat, q: nat)
    requires |s| <= 1 && p in s && q in s
    ensures p == q
  {
    assert |s - {p}| == 0;
    assert s == {p} + (s - {p});
  }

  lemma TidyIsOneBusy(s: System)
    requires Tidy(s)
    ensures OneBusy(s.world)
  {
    hide Valid, Once;
    forall p, q | 0 <= p < |s.world.pollers| && 0 <= q < |s.world.pollers|
                  && s.world.pollers[p].Polling? && s.world.pollers[q].Polling?
      ensures p == q
    {
      OneOf(s.going, p, q);
    }
  }

  /** A step of the tables starts no poll but on the poller it is of. */
  lemma OthersStayIdle(w: World, step: Step, p: nat)
    requires Enabled(w, step) && p < |w.pollers| && w.pollers[p].Idle? && !OfPoller(step, p)
    ensures |Next(w, step).pollers| == |w.pollers| && Next(w, step).pollers[p].Idle?
  {
    hide HasAccrual, Points, Available, Batch, Settle, Credit;
  }

  lemma StepKeepsPollers(w: World, step: Step)
    requires Enabled(w, step)
    ensures |Next(w, step).pollers| == |w.pollers|
  {
    hide HasAccrual, Points, Available, Batch, Settle, Credit;
  }

  lemma TableKeepsTidy(s: System, step: Step)
    requires Tidy(s) && Allowed(s, Table(step))
    ensures Tidy(Moved(s, Table(step)))
  {
    TidyIsOneBusy(s);
    hide Valid, Once, Enabled, Next, OfPoller;
    StepKeepsValid(s.world, step);
    StepKeepsOnce(s.world, step);
    StepKeepsPollers(s.world, step);
    forall p | 0 <= p < |s.world.pollers| && p !in s.going
      ensures Next(s.world, step).pollers[p].Idle?
    {
      OthersStayIdle(s.world, step, p);
    }
  }

  lemma AllIdle(w: World)
    requires Valid(w) && Once(w)
    ensures Valid(w.(pollers := Pollers(|w.pollers|))) && Once(w.(pollers := Pollers(|w.pollers|)))
  {
    hide HasAccrual;
  }

  lemma TimerKeepsTidy(s: System, step: PollTimer.Step, p: nat)
    requires Tidy(s) && Allowed(s, Timer(step, p)) && !PollTimer.StartsTooSoon(s.timers, step)
    ensures Tidy(Moved(s, Timer(step, p)))
  {
    hide Valid, Once, PollTimer.OneAtATime;
    PollTimer.StepKeepsOneAtATime(s.timers, step);
    assert p !in s.going ==> |s.going + {p}| == |s.going| + 1;
    assert p in s.going ==> |s.going - {p}| == |s.going| - 1;
  }

  lemma MoveKeepsTidy(s: System, move: Move)
    requires Tidy(s) && Allowed(s, move)
    requires move.Timer? ==> !PollTimer.StartsTooSoon(s.timers, move.tick)
    ensures Tidy(Moved(s, move))
  {
    hide Valid, Once;
    match move
    case Timer(step, p) => TimerKeepsTidy(s, step, p);
    case Table(step) => TableKeepsTidy(s, step);
    case Dies => AllIdle(s.world);
  }

  ghost predicate NeverTooSoon(s: System, moves: seq<Move>)
    requires Runs(s, moves)
    decreases |moves|
  {
    moves != [] ==>
      && (moves[0].Timer? ==> !PollTimer.StartsTooSoon(s.timers, moves[0].tick))
      && NeverTooSoon(Moved(s, moves[0]), moves[1..])
  }

  lemma {:induction false} RunKeepsTidy(s: System, moves: seq<Move>)
    requires Tidy(s) && Runs(s, moves) && NeverTooSoon(s, moves)
    ensures Tidy(Last(s, moves))
    decreases |moves|
  {
    hide Tidy, Allowed, Moved;
    if moves != [] {
      MoveKeepsTidy(s, moves[0]);
      RunKeepsTidy(Moved(s, moves[0]), moves[1..]);
    }
  }

  lemma BootIsTidy(n: nat)
    ensures Tidy(Boot(n))
  {
    StartValid(n);
    PollTimer.InitiallyNone();
  }

  /**
   * One process, stopped, started, killed and booted again as often as you
   * like, but never started while a poll of before a stop is going on: at most
   * one poll goes on at once, and no sale is accrued twice.
   */
  lemma OneProcessAccruesOnce(n: nat, moves: seq<Move>)
    requires Runs(Boot(n), moves) && NeverTooSoon(Boot(n), moves)
    ensures AtMostOnce(Last(Boot(n), moves).world.history) && OneBusy(Last(Boot(n), moves).world)
  {
    BootIsTidy(n);
    RunKeepsTidy(Boot(n), moves);
    TidyIsOneBusy(Last(Boot(n), moves));
  }

  // ── A start too soon accrues twice ────────────────────────────────────────

  function Tables(steps: seq<Step>): seq<Move> {
    if steps == [] then [] else [Table(steps[0])] + Tables(steps[1..])
  }

  lemma {:induction false} TablesRun(s: System, steps: seq<Step>)
    requires RunFrom(s.world, steps)
    requires forall i, p :: 0 <= i < |steps| && OfPoller(steps[i], p) ==> p in s.going
    ensures Runs(s, Tables(steps)) && Last(s, Tables(steps)) == s.(world := End(s.world, steps))
    decreases |steps|
  {
    hide Enabled, Next, OfPoller;
    if steps != [] {
      var s' := Moved(s, Table(steps[0]));
      TablesRun(s', steps[1..]);
      assert Tables(steps)[1..] == Tables(steps[1..]);
    }
  }

  const OVERLAP: seq<Move> :=
    [Timer(PollTimer.Start, 0), Timer(PollTimer.Fires(0), 0), Timer(PollTimer.Stop, 0),
     Timer(PollTimer.Start, 0), Timer(PollTimer.Fires(1), 1)]

  lemma OverlapRuns(n: nat)
    requires n >= 2
    ensures Runs(Boot(n), OVERLAP) && Last(Boot(n), OVERLAP).going == {0, 1} && Last(Boot(n), OVERLAP).world == Start(n)
  {
    hide RunFrom, End, Valid;
    var s0 := Boot(n);
    var s1 := Moved(s0, OVERLAP[0]);
    var s2 := Moved(s1, OVERLAP[1]);
    var s3 := Moved(s2, OVERLAP[2]);
    var s4 := Moved(s3, OVERLAP[3]);
    var s5 := Moved(s4, OVERLAP[4]);
    assert OVERLAP[1..][1..][1..][1..][1..] == [];
    assert Runs(s5, OVERLAP[1..][1..][1..][1..][1..]);
    assert Runs(s4, OVERLAP[1..][1..][1..][1..]) && Last(s4, OVERLAP[1..][1..][1..][1..]) == s5;
    assert Runs(s3, OVERLAP[1..][1..][1..]) && Last(s3, OVERLAP[1..][1..][1..]) == s5;
    assert Runs(s2, OVERLAP[1..][1..]) && Last(s2, OVERLAP[1..][1..]) == s5;
    assert Runs(s1, OVERLAP[1..]) && Last(s1, OVERLAP[1..]) == s5;
  }

  lemma {:induction false} RunsConcat(s: System, a: seq<Move>, b: seq<Move>)
    requires Runs(s, a) && Runs(Last(s, a), b)
    ensures Runs(s, a + b) && Last(s, a + b) == Last(Last(s, a), b)
    decreases |a|
  {
    hide Allowed, Moved;
    if a == [] {
      assert a + b == b;
    } else {
      assert (a + b)[1..] == a[1..] + b;
      RunsConcat(Moved(s, a[0]), a[1..], b);
    }
  }

  /** Started too soon, one process alone can accrue a sale twice. */
  lemma EarlyRestartAccruesTwice(n: nat) returns (moves: seq<Move>)
    requires n >= 2
    ensures Runs(Boot(n), moves) && !AtMostOnce(Last(Boot(n), moves).world.history)
  {
    hide Runs, Last, RunFrom, End, AtMostOnce, Start;
    OverlapRuns(n);
    DoubleAccrualRuns(n);
    var s := Last(Boot(n), OVERLAP);
    TablesRun(s, DOUBLE_ACCRUAL);
    RunsConcat(Boot(n), OVERLAP, Tables(DOUBLE_ACCRUAL));
    moves := OVERLAP + Tables(DOUBLE_ACCRUAL);
  }
}
