/**
 * Sign-in sessions and the refresh tokens that keep them going
 * (apps/api/src/modules/auth/auth.policy.ts, auth.service.ts). A refresh is a
 * transaction: it reads the session, waits for the row of the token it was
 * given, and then decides. Sessions can end and other refreshes can finish
 * between those moments, and a transaction can come to nothing at any of them.
 */
module RefreshTokens {
  import opened Options

  const SESSION_MS: int := 8 * 60 * 60 * 1000
  const GRACE_MS: int := 30 * 1000

  datatype Outcome = Rotate | Grace | Reuse

  function RefreshOutcome(usedAt: Option<int>, now: int): Outcome {
    if usedAt.None? then Rotate
    else if now - usedAt.value <= GRACE_MS then Grace
    else Reuse
  }

  function SessionExpiry(now: int): int {
    now + SESSION_MS
  }

  // ── The tables ────────────────────────────────────────────────────────────

  datatype Session = Session(staff: nat, startedAt: int, expiresAt: int, revokedAt: Option<int>)

  datatype Token = Token(session: nat, usedAt: Option<int>)

  /**
   * How far a refresh is: it waits for its token's row, holds it, exchanged the
   * token, repeated a recent exchange, ended the session, was refused, or came
   * to nothing.
   */
  datatype Phase =
    | Waiting
    | Holding(usedAt: Option<int>)
    | Exchanged(next: nat)
    | Repeated
    | EndedSession
    | Refused
    | Undone

  /** A refresh: the token presented, the time its transaction began, and what it read of session and account. */
  datatype Refresh = Refresh(token: nat, now: int, readEnded: bool, readActive: bool, phase: Phase)

  datatype Db = Db(sessions: seq<Session>, tokens: seq<Token>, refreshes: seq<Refresh>)

  const EMPTY: Db := Db([], [], [])

  datatype Step =
    | SignIn(staff: nat, now: int)
    | Present(token: nat, now: int, active: bool)
    | Lock(refresh: nat)
    | Finish(refresh: nat)
    | Undo(refresh: nat)
    | SignOut(session: nat, staff: nat, now: int)
    | EndSessionsOf(staff: nat, keep: Option<nat>, now: int)

  ghost predicate Enabled(db: Db, step: Step) {
    match step
    case Lock(i) =>
      && i < |db.refreshes|
      && db.refreshes[i].phase.Waiting?
      && db.refreshes[i].token < |db.tokens|
      && forall j :: 0 <= j < |db.refreshes| && db.refreshes[j].phase.Holding?
           ==> db.refreshes[j].token != db.refreshes[i].token
    case Finish(i) => i < |db.refreshes| && db.refreshes[i].phase.Holding? && WellFormed(db)
    case Undo(i) => i < |db.refreshes| && (db.refreshes[i].phase.Waiting? || db.refreshes[i].phase.Holding?)
    case Present(_, _, _) => WellFormed(db)
    case _ => true
  }

  /** Foreign keys. */
  ghost predicate WellFormed(db: Db) {
    && (forall t :: 0 <= t < |db.tokens| ==> db.tokens[t].session < |db.sessions|)
    && (forall i :: 0 <= i < |db.refreshes| ==> db.refreshes[i].token < |db.tokens|)
  }

  function Ended(sessions: seq<Session>, session: nat, now: int): seq<Session>
    requires session < |sessions|
  {
    if sessions[session].revokedAt.Some? then sessions
    else sessions[session := sessions[session].(revokedAt := Some(now))]
  }

  /** Whether what a refresh read lets it go on: the session open and unexpired, the account active. */
  predicate Admitted(sessions: seq<Session>, tokens: seq<Token>, r: Refresh)
    requires r.token < |tokens| && tokens[r.token].session < |sessions|
  {
    !r.readEnded && r.now < sessions[tokens[r.token].session].expiresAt && r.readActive
  }

  /** What a refresh holding its row does, in one commit. */
  ghost function Finished(db: Db, i: nat): Db
    requires WellFormed(db) && i < |db.refreshes| && db.refreshes[i].phase.Holding?
  {
    var r := db.refreshes[i];
    var session := db.tokens[r.token].session;
    if !Admitted(db.sessions, db.tokens, r) then WithPhase(db, i, Refused)
    else
      match RefreshOutcome(r.phase.usedAt, r.now)
      case Reuse => WithPhase(db, i, EndedSession).(sessions := Ended(db.sessions, session, r.now))
      case Grace => WithPhase(db, i, Repeated)
      case Rotate =>
        var used := db.tokens[r.token := db.tokens[r.token].(usedAt := Some(r.now))];
        WithPhase(db, i, Exchanged(|db.tokens|)).(tokens := used + [Token(session, None)])
  }

  ghost function Next(db: Db, step: Step): Db
    requires Enabled(db, step)
  {
    match step
    case SignIn(staff, now) =>
      db.(sessions := db.sessions + [Session(staff, now, SessionExpiry(now), None)],
          tokens := db.tokens + [Token(|db.sessions|, None)])
    case Present(t, now, active) =>
      if t >= |db.tokens| then db
      else
        var ended := db.sessions[db.tokens[t].session].revokedAt.Some?;
        db.(refreshes := db.refreshes + [Refresh(t, now, ended, active, Waiting)])
    case Lock(i) =>
      WithPhase(db, i, Holding(db.tokens[db.refreshes[i].token].usedAt))
    case Finish(i) => Finished(db, i)
    case Undo(i) => WithPhase(db, i, Undone)
    case SignOut(s, staff, now) =>
      if s < |db.sessions| && db.sessions[s].staff == staff then db.(sessions := Ended(db.sessions, s, now)) else db
    case EndSessionsOf(staff, keep, now) =>
      db.(sessions := seq(|db.sessions|, s requires 0 <= s < |db.sessions| =>
        if db.sessions[s].staff == staff && keep != Some(s) then Ended(db.sessions, s, now)[s] else db.sessions[s]))
  }

  function WithPhase(db: Db, i: nat, phase: Phase): Db
    requires i < |db.refreshes|
  {
    db.(refreshes := db.refreshes[i := db.refreshes[i].(phase := phase)])
  }

  // ── What every state keeps ────────────────────────────────────────────────

  /** The newest token of a session, or -1. */
  function Newest(tokens: seq<Token>, session: nat): int {
    if tokens == [] then -1
    else if tokens[|tokens| - 1].session == session then |tokens| - 1
    else Newest(tokens[..|tokens| - 1], session)
  }

  /** A session has tokens, and only the newest is unused. */
  ghost predicate OneUnused(tokens: seq<Token>, session: nat) {
    && 0 <= Newest(tokens, session) < |tokens|
    && forall t :: 0 <= t < |tokens| && tokens[t].session == session
         ==> (tokens[t].usedAt.None? <==> t == Newest(tokens, session))
  }

  /** What a refresh came to, read off the tables as they are now. */
  ghost predicate Accounted(sessions: seq<Session>, tokens: seq<Token>, r: Refresh) {
    && r.token < |tokens| && tokens[r.token].session < |sessions|
    && var token := tokens[r.token];
    && (r.readEnded ==> sessions[token.session].revokedAt.Some?)
    && match r.phase
       case Waiting => true
       case Undone => true
       case Holding(usedAt) => usedAt == token.usedAt
       case Refused => !Admitted(sessions, tokens, r)
       case Exchanged(next) =>
         && Admitted(sessions, tokens, r) && token.usedAt == Some(r.now)
         && r.token < next < |tokens| && tokens[next].session == token.session
       case Repeated =>
         Admitted(sessions, tokens, r) && token.usedAt.Some? && r.now - token.usedAt.value <= GRACE_MS
       case EndedSession =>
         && Admitted(sessions, tokens, r) && token.usedAt.Some? && r.now - token.usedAt.value > GRACE_MS
         && sessions[token.session].revokedAt.Some?
  }

  /** No two refreshes hold a row, exchanged a token, or got the same new token. */
  ghost predicate Apart(a: Refresh, b: Refresh) {
    && (a.phase.Holding? && b.phase.Holding? ==> a.token != b.token)
    && (a.phase.Exchanged? && b.phase.Exchanged? ==> a.token != b.token && a.phase.next != b.phase.next)
  }

  ghost predicate ExchangedIn(refreshes: seq<Refresh>, token: nat) {
    exists i :: 0 <= i < |refreshes| && refreshes[i].token == token && refreshes[i].phase.Exchanged?
  }

  ghost predicate Valid(db: Db) {
    && WellFormed(db)
    && (forall s :: 0 <= s < |db.sessions| ==> OneUnused(db.tokens, s))
    && (forall s :: 0 <= s < |db.sessions| ==> db.sessions[s].expiresAt == SessionExpiry(db.sessions[s].startedAt))
    && (forall i :: 0 <= i < |db.refreshes| ==> Accounted(db.sessions, db.tokens, db.refreshes[i]))
    && (forall i, j :: 0 <= i < j < |db.refreshes| ==> Apart(db.refreshes[i], db.refreshes[j]))
    && (forall t :: 0 <= t < |db.tokens| && db.tokens[t].usedAt.Some? ==> ExchangedIn(db.refreshes, t))
  }

  // ── Steps ─────────────────────────────────────────────────────────────────

  ghost predicate SessionsLater(a: seq<Session>, b: seq<Session>) {
    && |a| <= |b|
    && forall s :: 0 <= s < |a| ==>
         b[s].(revokedAt := None) == a[s].(revokedAt := None) && (a[s].revokedAt.Some? ==> b[s] == a[s])
  }

  ghost predicate TokensLater(a: seq<Token>, b: seq<Token>) {
    && |a| <= |b|
    && forall t :: 0 <= t < |a| ==>
         b[t].session == a[t].session && (a[t].usedAt.Some? ==> b[t].usedAt == a[t].usedAt)
  }

  /** Sessions only ever end, used tokens stay as they are: what a refresh came to stays true. */
  lemma StaysAccounted(s: seq<Session>, s': seq<Session>, t: seq<Token>, t': seq<Token>, r: Refresh)
    requires Accounted(s, t, r) && SessionsLater(s, s') && TokensLater(t, t')
    requires r.phase.Holding? ==> t'[r.token] == t[r.token]
    ensures Accounted(s', t', r)
  {
    var session := t[r.token].session;
    assert s'[session].(revokedAt := None) == s[session].(revokedAt := None);
    assert s'[session].expiresAt == s'[session].(revokedAt := None).expiresAt;
    assert t'[r.token].session == session;
  }

  lemma StepIsLater(db: Db, step: Step)
    requires Valid(db) && Enabled(db, step)
    ensures var db' := Next(db, step);
            SessionsLater(db.sessions, db'.sessions) && TokensLater(db.tokens, db'.tokens)
  {
    hide OneUnused, Apart, ExchangedIn;
    if step.Finish? {
      assert Accounted(db.sessions, db.tokens, db.refreshes[step.refresh]);
    }
  }

  lemma {:induction false} NewestAppend(tokens: seq<Token>, t: Token, s: nat)
    ensures Newest(tokens + [t], s) == if t.session == s then |tokens| else Newest(tokens, s)
  {
    assert (tokens + [t])[..|tokens|] == tokens;
  }

  lemma {:induction false} NewestUsed(tokens: seq<Token>, i: nat, usedAt: Option<int>, s: nat)
    requires i < |tokens|
    ensures Newest(tokens[i := tokens[i].(usedAt := usedAt)], s) == Newest(tokens, s)
  {
    var n := |tokens| - 1;
    var used := tokens[i := tokens[i].(usedAt := usedAt)];
    if i < n {
      NewestUsed(tokens[..n], i, usedAt, s);
      assert used[..n] == tokens[..n][i := tokens[i].(usedAt := usedAt)];
    } else {
      assert used[..n] == tokens[..n];
    }
  }

  lemma {:induction false} NewestBound(tokens: seq<Token>, s: nat)
    ensures -1 <= Newest(tokens, s) < |tokens|
    ensures Newest(tokens, s) >= 0 ==> tokens[Newest(tokens, s)].session == s
    ensures Newest(tokens, s) < 0 ==> forall t :: 0 <= t < |tokens| ==> tokens[t].session != s
  {
    if tokens != [] {
      NewestBound(tokens[..|tokens| - 1], s);
    }
  }

  /** An exchange uses the one unused token of the session and makes the new one its newest. */
  lemma ExchangeKeepsOneUnused(tokens: seq<Token>, i: nat, now: int, s: nat)
    requires i < |tokens| && tokens[i].usedAt.None? && OneUnused(tokens, s)
    ensures OneUnused(tokens[i := tokens[i].(usedAt := Some(now))] + [Token(tokens[i].session, None)], s)
  {
    var used := tokens[i := tokens[i].(usedAt := Some(now))];
    NewestUsed(tokens, i, Some(now), s);
    NewestAppend(used, Token(tokens[i].session, None), s);
  }

  lemma SignInKeepsOneUnused(db: Db, staff: nat, now: int, s: nat)
    requires WellFormed(db) && s <= |db.sessions| && (s < |db.sessions| ==> OneUnused(db.tokens, s))
    ensures OneUnused(db.tokens + [Token(|db.sessions|, None)], s)
  {
    NewestAppend(db.tokens, Token(|db.sessions|, None), s);
  }

  lemma KeepsOneUnused(db: Db, step: Step, s: nat)
    requires Valid(db) && Enabled(db, step) && s < |Next(db, step).sessions|
    ensures OneUnused(Next(db, step).tokens, s)
  {
    hide OneUnused, Apart, ExchangedIn, SessionExpiry;
    match step
    case SignIn(staff, now) => SignInKeepsOneUnused(db, staff, now, s);
    case Finish(i) =>
      var r := db.refreshes[i];
      assert Accounted(db.sessions, db.tokens, r);
      if Admitted(db.sessions, db.tokens, r) && RefreshOutcome(r.phase.usedAt, r.now) == Rotate {
        ExchangeKeepsOneUnused(db.tokens, r.token, r.now, s);
      }
    case _ =>
  }

  /** Other refreshes stay accounted for, and so does the one that moves. */
  lemma KeepsAccounted(db: Db, step: Step, i: nat)
    requires Valid(db) && Enabled(db, step) && i < |Next(db, step).refreshes|
    ensures var db' := Next(db, step); Accounted(db'.sessions, db'.tokens, db'.refreshes[i])
  {
    hide OneUnused, ExchangedIn, SessionExpiry;
    var db' := Next(db, step);
    StepIsLater(db, step);
    if i < |db.refreshes| {
      var r := db.refreshes[i];
      assert Accounted(db.sessions, db.tokens, r);
      if step.Finish? && step.refresh != i {
        var moving := db.refreshes[step.refresh];
        assert Apart(if i < step.refresh then r else moving, if i < step.refresh then moving else r);
        StaysAccounted(db.sessions, db'.sessions, db.tokens, db'.tokens, r);
      } else if step.Finish? {
      } else {
        StaysAccounted(db.sessions, db'.sessions, db.tokens, db'.tokens, r);
      }
    }
  }

  lemma KeepsApart(db: Db, step: Step, i: nat, j: nat)
    requires Valid(db) && Enabled(db, step) && i < j < |Next(db, step).refreshes|
    ensures Apart(Next(db, step).refreshes[i], Next(db, step).refreshes[j])
  {
    hide OneUnused, ExchangedIn, SessionExpiry;
    if j < |db.refreshes| {
      var a, b := db.refreshes[i], db.refreshes[j];
      assert Apart(a, b);
      assert Accounted(db.sessions, db.tokens, a) && Accounted(db.sessions, db.tokens, b);
    }
  }

  lemma KeepsExchanged(db: Db, step: Step, t: nat)
    requires Valid(db) && Enabled(db, step)
    requires t < |Next(db, step).tokens| && Next(db, step).tokens[t].usedAt.Some?
    ensures ExchangedIn(Next(db, step).refreshes, t)
  {
    hide OneUnused, Apart, SessionExpiry;
    var db' := Next(db, step);
    if t < |db.tokens| && db.tokens[t].usedAt.Some? {
      assert ExchangedIn(db.refreshes, t);
      var i :| 0 <= i < |db.refreshes| && db.refreshes[i].token == t && db.refreshes[i].phase.Exchanged?;
      assert db'.refreshes[i] == db.refreshes[i];
    } else {
      assert db'.refreshes[step.refresh].phase.Exchanged?;
    }
  }

  lemma StepKeepsValid(db: Db, step: Step)
    requires Valid(db) && Enabled(db, step)
    ensures Valid(Next(db, step))
  {
    var db' := Next(db, step);
    StepIsLater(db, step);
    forall s | 0 <= s < |db'.sessions|
      ensures OneUnused(db'.tokens, s)
    {
      KeepsOneUnused(db, step, s);
    }
    forall i | 0 <= i < |db'.refreshes|
      ensures Accounted(db'.sessions, db'.tokens, db'.refreshes[i])
    {
      KeepsAccounted(db, step, i);
    }
    forall i, j | 0 <= i < j < |db'.refreshes|
      ensures Apart(db'.refreshes[i], db'.refreshes[j])
    {
      KeepsApart(db, step, i, j);
    }
    forall t | 0 <= t < |db'.tokens| && db'.tokens[t].usedAt.Some?
      ensures ExchangedIn(db'.refreshes, t)
    {
      KeepsExchanged(db, step, t);
    }
    hide OneUnused, Accounted, Apart, ExchangedIn;
  }

  // ── Runs ──────────────────────────────────────────────────────────────────

  ghost predicate RunFrom(db: Db, steps: seq<Step>)
    decreases |steps|
  {
    steps != [] ==> Enabled(db, steps[0]) && RunFrom(Next(db, steps[0]), steps[1..])
  }

  ghost function End(db: Db, steps: seq<Step>): Db
    requires RunFrom(db, steps)
    decreases |steps|
  {
    if steps == [] then db else End(Next(db, steps[0]), steps[1..])
  }

  lemma {:induction false} RunKeepsValid(db: Db, steps: seq<Step>)
    requires Valid(db) && RunFrom(db, steps)
    ensures Valid(End(db, steps))
    decreases |steps|
  {
    hide Valid, Enabled, Next;
    if steps != [] {
      StepKeepsValid(db, steps[0]);
      RunKeepsValid(Next(db, steps[0]), steps[1..]);
    }
  }

  /** In every reachable state each session has exactly one unused token, the newest. */
  lemma OneUnusedToken(steps: seq<Step>, s: nat)
    requires RunFrom(EMPTY, steps) && s < |End(EMPTY, steps).sessions|
    ensures var tokens := End(EMPTY, steps).tokens;
            && 0 <= Newest(tokens, s) < |tokens|
            && tokens[Newest(tokens, s)].session == s
            && (forall t :: 0 <= t < |tokens| && tokens[t].session == s
                  ==> (tokens[t].usedAt.None? <==> t == Newest(tokens, s)))
  {
    RunKeepsValid(EMPTY, steps);
    assert OneUnused(End(EMPTY, steps).tokens, s);
    NewestBound(End(EMPTY, steps).tokens, s);
  }

  predicate Succeeded(r: Refresh) {
    r.phase.Exchanged? || r.phase.Repeated?
  }

  /** No refresh succeeds for an account switched off, or from eight hours after signing in. */
  lemma NothingAfterEightHours(steps: seq<Step>, i: nat)
    requires RunFrom(EMPTY, steps) && i < |End(EMPTY, steps).refreshes|
    ensures var db := End(EMPTY, steps);
            var r := db.refreshes[i];
            && r.token < |db.tokens| && db.tokens[r.token].session < |db.sessions|
            && (Succeeded(r) ==> r.readActive && r.now < db.sessions[db.tokens[r.token].session].startedAt + 8 * 60 * 60 * 1000)
  {
    RunKeepsValid(EMPTY, steps);
    var db := End(EMPTY, steps);
    assert Accounted(db.sessions, db.tokens, db.refreshes[i]);
  }

  /**
   * Of all refreshes that present one token, at any moments and in any order,
   * at most one exchanges it; any other that succeeds began no more than thirty
   * seconds after that one, and such a one there is.
   */
  lemma OneExchangePerToken(steps: seq<Step>, i: nat, j: nat)
    requires RunFrom(EMPTY, steps)
    requires i < |End(EMPTY, steps).refreshes| && j < |End(EMPTY, steps).refreshes| && i != j
    requires End(EMPTY, steps).refreshes[i].token == End(EMPTY, steps).refreshes[j].token
    ensures var a, b := End(EMPTY, steps).refreshes[i], End(EMPTY, steps).refreshes[j];
            && (a.phase.Exchanged? ==> !b.phase.Exchanged?)
            && (a.phase.Exchanged? && Succeeded(b) ==> b.now - a.now <= 30 * 1000)
            && (Succeeded(b) ==> ExchangedIn(End(EMPTY, steps).refreshes, b.token))
  {
    RunKeepsValid(EMPTY, steps);
    var db := End(EMPTY, steps);
    var a, b := db.refreshes[i], db.refreshes[j];
    assert Accounted(db.sessions, db.tokens, a) && Accounted(db.sessions, db.tokens, b);
    assert Apart(if i < j then a else b, if i < j then b else a);
  }

  /**
   * A token presented more than thirty seconds after it was replaced never
   * works; its refresh either finds the session over, expired or the account
   * off, or ends the session.
   */
  lemma StaleTokensNeverWork(steps: seq<Step>, i: nat)
    requires RunFrom(EMPTY, steps) && i < |End(EMPTY, steps).refreshes|
    ensures var db := End(EMPTY, steps);
            var r := db.refreshes[i];
            && r.token < |db.tokens| && db.tokens[r.token].session < |db.sessions|
            && var (token, session) := (db.tokens[r.token], db.sessions[db.tokens[r.token].session]);
            token.usedAt.Some? && r.now - token.usedAt.value > 30 * 1000 ==>
              && !Succeeded(r)
              && (r.phase.EndedSession? ==> session.revokedAt.Some?)
              && (r.phase.Refused? ==> r.readEnded || session.expiresAt <= r.now || !r.readActive)
  {
    RunKeepsValid(EMPTY, steps);
    var db := End(EMPTY, steps);
    assert Accounted(db.sessions, db.tokens, db.refreshes[i]);
  }

  // ── After the end of a session ────────────────────────────────────────────

  /** The session has ended, and every refresh of it after the first `n` has read that. */
  ghost predicate OverSince(db: Db, s: nat, n: nat) {
    && WellFormed(db)
    && s < |db.sessions| && db.sessions[s].revokedAt.Some?
    && n <= |db.refreshes|
    && forall i :: n <= i < |db.refreshes| && db.tokens[db.refreshes[i].token].session == s
         ==> db.refreshes[i].readEnded
  }

  lemma StepKeepsOver(db: Db, step: Step, s: nat, n: nat)
    requires Valid(db) && Enabled(db, step) && OverSince(db, s, n)
    ensures Valid(Next(db, step)) && OverSince(Next(db, step), s, n)
  {
    StepIsLater(db, step);
    StepKeepsValid(db, step);
    hide OneUnused, Accounted, Apart, ExchangedIn;
    var db' := Next(db, step);
    forall i | n <= i < |db'.refreshes| && db'.tokens[db'.refreshes[i].token].session == s
      ensures db'.refreshes[i].readEnded
    {
      if i < |db.refreshes| {
        assert db'.refreshes[i].token == db.refreshes[i].token;
      }
    }
  }

  lemma {:induction false} RunKeepsOver(db: Db, steps: seq<Step>, s: nat, n: nat)
    requires Valid(db) && RunFrom(db, steps) && OverSince(db, s, n)
    ensures Valid(End(db, steps)) && OverSince(End(db, steps), s, n)
    decreases |steps|
  {
    hide Valid, Enabled, Next, OverSince;
    if steps != [] {
      StepKeepsOver(db, steps[0], s, n);
      RunKeepsOver(Next(db, steps[0]), steps[1..], s, n);
    }
  }

  /** Once a session has ended, by whatever step, no refresh that begins later succeeds in it. */
  lemma NothingAfterTheEnd(before: seq<Step>, later: seq<Step>, s: nat, i: nat)
    requires RunFrom(EMPTY, before) && RunFrom(End(EMPTY, before), later)
    requires s < |End(EMPTY, before).sessions| && End(EMPTY, before).sessions[s].revokedAt.Some?
    requires |End(EMPTY, before).refreshes| <= i < |End(End(EMPTY, before), later).refreshes|
    ensures var db := End(End(EMPTY, before), later);
            && db.refreshes[i].token < |db.tokens|
            && (Succeeded(db.refreshes[i]) ==> db.tokens[db.refreshes[i].token].session != s)
  {
    RunKeepsValid(EMPTY, before);
    var ended := End(EMPTY, before);
    RunKeepsOver(ended, later, s, |ended.refreshes|);
    var db := End(ended, later);
    assert Accounted(db.sessions, db.tokens, db.refreshes[i]);
  }

  /**
   * One that began before the end can still succeed after it: it read the
   * session while it was open. The token it hands out is of no use.
   */
  lemma ALateExchange()
    ensures var begun := [SignIn(1, 0), Present(0, 1000, true), SignOut(0, 1, 2000)];
            var rest := [Lock(0), Finish(0)];
            && RunFrom(EMPTY, begun)
            && var ended := End(EMPTY, begun);
            && |ended.sessions| == 1 && ended.sessions[0].revokedAt == Some(2000)
            && RunFrom(ended, rest)
            && End(ended, rest).refreshes == [Refresh(0, 1000, false, true, Exchanged(1))]
  {
    hide Valid;
    var db1 := Next(EMPTY, SignIn(1, 0));
    var db2 := Next(db1, Present(0, 1000, true));
    var db3 := Next(db2, SignOut(0, 1, 2000));
    var db4 := Next(db3, Lock(0));
    assert db4.refreshes == [Refresh(0, 1000, false, true, Holding(None))];
    var db5 := Next(db4, Finish(0));
    var begun, rest := [SignIn(1, 0), Present(0, 1000, true), SignOut(0, 1, 2000)], [Lock(0), Finish(0)];
    assert begun[1..][1..] == [SignOut(0, 1, 2000)] && begun[1..][1..][1..] == [];
    assert RunFrom(db3, []) && End(db3, []) == db3;
    assert RunFrom(db2, begun[1..][1..]) && End(db2, begun[1..][1..]) == db3;
    assert RunFrom(db1, begun[1..]) && End(db1, begun[1..]) == db3;
    assert rest[1..] == [Finish(0)] && rest[1..][1..] == [];
    assert RunFrom(db5, []) && End(db5, []) == db5;
    assert RunFrom(db4, rest[1..]) && End(db4, rest[1..]) == db5;
  }

  // ── What ends a session ───────────────────────────────────────────────────

  /**
   * A step that ends an open session: signing out of it, ending the sessions of
   * its staff member but another one, or a refresh, let in, with a token of it
   * that was replaced more than thirty seconds before.
   */
  ghost predicate EndsIt(db: Db, step: Step, s: nat)
    requires WellFormed(db) && s < |db.sessions|
  {
    match step
    case SignOut(session, staff, _) => session == s && staff == db.sessions[s].staff
    case EndSessionsOf(staff, keep, _) => staff == db.sessions[s].staff && keep != Some(s)
    case Finish(i) =>
      && i < |db.refreshes| && db.refreshes[i].phase.Holding? && db.tokens[db.refreshes[i].token].session == s
      && var r := db.refreshes[i];
      && !r.readEnded && r.readActive && r.now < db.sessions[s].expiresAt
      && r.phase.usedAt.Some? && r.now - r.phase.usedAt.value > 30 * 1000
    case _ => false
  }

  ghost function TimeOf(db: Db, step: Step): int {
    match step
    case SignOut(_, _, now) => now
    case EndSessionsOf(_, _, now) => now
    case Finish(i) => if i < |db.refreshes| then db.refreshes[i].now else 0
    case _ => 0
  }

  /** No other step changes a session, and one that has ended stays as it is. */
  lemma StepEndsSession(db: Db, step: Step, s: nat)
    requires WellFormed(db) && Enabled(db, step) && s < |db.sessions|
    ensures |db.sessions| <= |Next(db, step).sessions|
    ensures Next(db, step).sessions[s] ==
            if db.sessions[s].revokedAt.None? && EndsIt(db, step, s)
            then db.sessions[s].(revokedAt := Some(TimeOf(db, step)))
            else db.sessions[s]
  {
  }

  ghost predicate SomeStepEnds(db: Db, steps: seq<Step>, s: nat)
    requires Valid(db) && RunFrom(db, steps) && s < |db.sessions|
    decreases |steps|
  {
    steps != [] &&
      (|| EndsIt(db, steps[0], s)
       || (StepKeepsValid(db, steps[0]);
           StepEndsSession(db, steps[0], s);
           SomeStepEnds(Next(db, steps[0]), steps[1..], s)))
  }

  /** Over any run an open session has ended exactly when one of the steps ended it; whose it is and until when never changes. */
  lemma {:induction false} EndedBySomeStep(db: Db, steps: seq<Step>, s: nat)
    requires Valid(db) && RunFrom(db, steps) && s < |db.sessions|
    ensures s < |End(db, steps).sessions|
    ensures End(db, steps).sessions[s].(revokedAt := None) == db.sessions[s].(revokedAt := None)
    ensures End(db, steps).sessions[s].revokedAt.Some? <==> db.sessions[s].revokedAt.Some? || SomeStepEnds(db, steps, s)
    decreases |steps|
  {
    hide Valid, Enabled, Next, EndsIt;
    if steps != [] {
      StepKeepsValid(db, steps[0]);
      ValidIsWellFormed(db);
      StepEndsSession(db, steps[0], s);
      EndedBySomeStep(Next(db, steps[0]), steps[1..], s);
    }
  }

  lemma ValidIsWellFormed(db: Db)
    requires Valid(db)
    ensures WellFormed(db)
  {
  }

  /** A session that is opened is the staff member's, unused token and all, and lasts eight hours. */
  lemma SignedIn(db: Db, staff: nat, now: int)
    requires WellFormed(db)
    ensures var (db', s, t) := (Next(db, SignIn(staff, now)), |db.sessions|, |db.tokens|);
            && |db'.sessions| == s + 1 && |db'.tokens| == t + 1
            && db'.sessions[s] == Session(staff, now, now + 8 * 60 * 60 * 1000, None)
            && db'.tokens[t] == Token(s, None)
            && db'.sessions[..s] == db.sessions && db'.tokens[..t] == db.tokens && db'.refreshes == db.refreshes
  {
  }

  // ── One refresh on its own ────────────────────────────────────────────────

  /** The three steps of a refresh that meets no other. */
  function Alone(db: Db, t: nat, now: int, active: bool): seq<Step> {
    [Present(t, now, active), Lock(|db.refreshes|), Finish(|db.refreshes|)]
  }

  /** The tables as such a refresh finds them when it has its token's row. */
  ghost function Locked(db: Db, t: nat, now: int, active: bool): (db': Db)
    requires WellFormed(db) && t < |db.tokens|
  {
    var ended := db.sessions[db.tokens[t].session].revokedAt.Some?;
    db.(refreshes := db.refreshes + [Refresh(t, now, ended, active, Holding(db.tokens[t].usedAt))])
  }

  lemma AloneFinishes(db: Db, t: nat, now: int, active: bool)
    requires WellFormed(db) && t < |db.tokens|
    requires forall j :: 0 <= j < |db.refreshes| && db.refreshes[j].phase.Holding? ==> db.refreshes[j].token != t
    ensures RunFrom(db, Alone(db, t, now, active))
    ensures End(db, Alone(db, t, now, active)) == Finished(Locked(db, t, now, active), |db.refreshes|)
  {
    hide Finished;
    var n := |db.refreshes|;
    var steps := Alone(db, t, now, active);
    var db1 := Next(db, steps[0]);
    assert db1.refreshes[n].phase == Waiting;
    assert forall j :: 0 <= j < n ==> db1.refreshes[j] == db.refreshes[j];
    var db2 := Next(db1, Lock(n));
    assert db2 == Locked(db, t, now, active);
    var db3 := Next(db2, Finish(n));
    assert steps[1..][1..] == [Finish(n)] && [Finish(n)][1..] == [];
    assert RunFrom(db3, []) && End(db3, []) == db3;
    assert RunFrom(db2, [Finish(n)]) && End(db2, [Finish(n)]) == db3;
    assert RunFrom(db1, steps[1..]) && End(db1, steps[1..]) == db3;
  }

  /**
   * With the newest token of a live session a refresh gets the next one; with
   * one replaced in the last thirty seconds it changes nothing; with an older
   * one it ends the session; otherwise it is refused.
   */
  lemma RefreshAnswers(db: Db, t: nat, now: int, active: bool)
    requires Valid(db) && t < |db.tokens|
    requires forall j :: 0 <= j < |db.refreshes| && db.refreshes[j].phase.Holding? ==> db.refreshes[j].token != t
    ensures RunFrom(db, Alone(db, t, now, active))
    ensures var s, usedAt := db.tokens[t].session, db.tokens[t].usedAt;
            var live := db.sessions[s].revokedAt.None? && now < db.sessions[s].startedAt + 8 * 60 * 60 * 1000 && active;
            var db' := End(db, Alone(db, t, now, active));
            && |db'.refreshes| == |db.refreshes| + 1
            && var phase := db'.refreshes[|db.refreshes|].phase;
            && (usedAt.None? <==> t == Newest(db.tokens, s))
            && (phase == Exchanged(|db.tokens|) <==> live && usedAt.None?)
            && (phase == Repeated <==> live && usedAt.Some? && now - usedAt.value <= 30 * 1000)
            && (phase == EndedSession <==> live && usedAt.Some? && now - usedAt.value > 30 * 1000)
            && (phase == Refused <==> !live)
            && (if phase.Exchanged?
                then && |db'.tokens| == |db.tokens| + 1 && Newest(db'.tokens, s) == |db.tokens|
                     && db'.tokens[t].usedAt == Some(now)
                else db'.tokens == db.tokens)
            && (if phase.EndedSession?
                then s < |db'.sessions| && db'.sessions[s].revokedAt == Some(now)
                else db'.sessions == db.sessions)
  {
    hide RunFrom, End, Alone, Newest;
    AloneFinishes(db, t, now, active);
    LockedFinishes(db, t, now, active);
  }

  lemma LockedFinishes(db: Db, t: nat, now: int, active: bool)
    requires Valid(db) && t < |db.tokens|
    ensures var s, usedAt := db.tokens[t].session, db.tokens[t].usedAt;
            var live := db.sessions[s].revokedAt.None? && now < db.sessions[s].startedAt + 8 * 60 * 60 * 1000 && active;
            var db' := Finished(Locked(db, t, now, active), |db.refreshes|);
            && |db'.refreshes| == |db.refreshes| + 1
            && var phase := db'.refreshes[|db.refreshes|].phase;
            && (usedAt.None? <==> t == Newest(db.tokens, s))
            && (phase == if !live then Refused
                         else if usedAt.None? then Exchanged(|db.tokens|)
                         else if now - usedAt.value <= 30 * 1000 then Repeated
                         else EndedSession)
            && (if phase.Exchanged?
                then && |db'.tokens| == |db.tokens| + 1 && Newest(db'.tokens, s) == |db.tokens|
                     && db'.tokens[t].usedAt == Some(now)
                else db'.tokens == db.tokens)
            && (if phase.EndedSession?
                then s < |db'.sessions| && db'.sessions[s].revokedAt == Some(now)
                else db'.sessions == db.sessions)
  {
    hide Valid, Newest;
    NewestIsUnused(db, t);
    var s := db.tokens[t].session;
    NewestUsed(db.tokens, t, Some(now), s);
    NewestAppend(db.tokens[t := db.tokens[t].(usedAt := Some(now))], Token(s, None), s);
  }

  lemma NewestIsUnused(db: Db, t: nat)
    requires Valid(db) && t < |db.tokens|
    ensures WellFormed(db)
    ensures var s := db.tokens[t].session;
            && (db.tokens[t].usedAt.None? <==> t == Newest(db.tokens, s))
            && db.sessions[s].expiresAt == SessionExpiry(db.sessions[s].startedAt)
  {
    assert OneUnused(db.tokens, db.tokens[t].session);
  }

  // ── How many tokens there are ─────────────────────────────────────────────

  function Exchanges(refreshes: seq<Refresh>): nat {
    if refreshes == [] then 0
    else Exchanges(refreshes[..|refreshes| - 1]) + if refreshes[|refreshes| - 1].phase.Exchanged? then 1 else 0
  }

  lemma {:induction false} ExchangesAfter(refreshes: seq<Refresh>, i: nat, phase: Phase)
    requires i < |refreshes| && !refreshes[i].phase.Exchanged?
    ensures Exchanges(refreshes[i := refreshes[i].(phase := phase)])
            == Exchanges(refreshes) + if phase.Exchanged? then 1 else 0
  {
    var n := |refreshes| - 1;
    var moved := refreshes[i := refreshes[i].(phase := phase)];
    if i < n {
      ExchangesAfter(refreshes[..n], i, phase);
      assert moved[..n] == refreshes[..n][i := refreshes[i].(phase := phase)];
    } else {
      assert moved[..n] == refreshes[..n];
    }
  }

  ghost predicate Counted(db: Db) {
    |db.tokens| == |db.sessions| + Exchanges(db.refreshes)
  }

  lemma StepKeepsCounted(db: Db, step: Step)
    requires Enabled(db, step) && Counted(db)
    ensures Counted(Next(db, step))
  {
    match step
    case Present(t, now, active) =>
      if t < |db.tokens| {
        var refreshes := Next(db, step).refreshes;
        assert refreshes[..|refreshes| - 1] == db.refreshes;
      }
    case Lock(i) => ExchangesAfter(db.refreshes, i, Next(db, step).refreshes[i].phase);
    case Finish(i) => ExchangesAfter(db.refreshes, i, Next(db, step).refreshes[i].phase);
    case Undo(i) => ExchangesAfter(db.refreshes, i, Undone);
    case _ =>
  }

  /** Refresh tokens come from sign-ins and exchanges only: the grace period makes none. */
  lemma {:induction false} TokensAreSignInsAndExchanges(db: Db, steps: seq<Step>)
    requires Counted(db) && RunFrom(db, steps)
    ensures Counted(End(db, steps))
    decreases |steps|
  {
    hide Counted, Enabled, Next;
    if steps != [] {
      StepKeepsCounted(db, steps[0]);
      TokensAreSignInsAndExchanges(Next(db, steps[0]), steps[1..]);
    }
  }
}
