/** The sign-in limiter: a fixed window of failures for each key (apps/api/src/middleware/rateLimit.ts). */
module RateLimit {

  const MAX_FAILURES: nat := 10
  const WINDOW_MS: int := 900000

  datatype Entry = Entry(count: nat, resetAt: int)

  type Store = map<string, Entry>

  function Refuses(store: Store, key: string, now: int): bool {
    key in store && store[key].resetAt >= now && store[key].count >= MAX_FAILURES
  }

  /** Whole seconds until the window ends, rounded up. */
  function RetryAfter(store: Store, key: string, now: int): (seconds: int)
    requires Refuses(store, key, now)
    ensures seconds >= 0 && (seconds - 1) * 1000 < store[key].resetAt - now <= seconds * 1000
  {
    (store[key].resetAt - now + 999) / 1000
  }

  /** Which answers count: 4xx, but not the limiter's own refusal. */
  predicate Counts(status: int) {
    400 <= status < 500 && status != 429
  }

  function Answered(store: Store, key: string, status: int, at: int): Store {
    if !Counts(status) then store
    else if key !in store || store[key].resetAt < at then store[key := Entry(1, at + WINDOW_MS)]
    else store[key := store[key].(count := store[key].count + 1)]
  }

  function Swept(store: Store, now: int): Store {
    map key | key in store && store[key].resetAt >= now :: store[key]
  }

  /** The limiter with its module state. */
  class LoginLimiter {
    var store: Store

    constructor ()
      ensures store == map[]
    {
      store := map[];
    }

    /** A request starts: refused with a time to wait, or let through. */
    method Begin(key: string, now: int) returns (refused: bool, retryAfter: int)
      ensures refused == Refuses(store, key, now)
      ensures refused ==> retryAfter == RetryAfter(store, key, now)
    {
      refused, retryAfter := false, 0;
      if key in store {
        var entry := store[key];
        if entry.resetAt >= now && entry.count >= MAX_FAILURES {
          refused, retryAfter := true, (entry.resetAt - now + 999) / 1000;
        }
      }
    }

    /** An answer is sent for a request that was let through. */
    method Finish(key: string, status: int, at: int)
      modifies this
      ensures store == Answered(old(store), key, status, at)
    {
      if status < 400 || status >= 500 || status == 429 {
        return;
      }
      if key !in store || store[key].resetAt < at {
        store := store[key := Entry(0, at + WINDOW_MS)];
      }
      store := store[key := store[key].(count := store[key].count + 1)];
    }

    /** Deletes the expired entries, one by one. */
    method Sweep(now: int)
      modifies this
      ensures store == Swept(old(store), now)
    {
      var keys := store.Keys;
      while keys != {}
        invariant keys <= store.Keys <= old(store).Keys
        invariant forall k :: k in store ==> store[k] == old(store)[k]
        invariant forall k :: k in old(store) && k !in keys ==> (k in store <==> old(store)[k].resetAt >= now)
        decreases keys
      {
        var key :| key in keys;
        keys := keys - {key};
        if store[key].resetAt < now {
          store := store - {key};
        }
      }
      assert store == Swept(old(store), now);
    }
  }

  // ── Runs ──────────────────────────────────────────────────────────────────

  datatype Event =
    | Begin(key: string, time: int)
    | Finish(key: string, status: int, time: int)
    | Sweep(time: int)

  /** The store, and how many requests of a key were let through and not yet answered. */
  datatype Limiter = Limiter(store: Store, inFlight: map<string, nat>)

  function InFlight(l: Limiter, key: string): nat {
    if key in l.inFlight then l.inFlight[key] else 0
  }

  function Apply(l: Limiter, e: Event): Limiter {
    match e
    case Begin(key, now) =>
      if Refuses(l.store, key, now) then l else l.(inFlight := l.inFlight[key := InFlight(l, key) + 1])
    case Finish(key, status, at) =>
      var waiting := InFlight(l, key);
      Limiter(Answered(l.store, key, status, at), l.inFlight[key := if waiting > 0 then waiting - 1 else 0])
    case Sweep(now) => l.(store := Swept(l.store, now))
  }

  function After(events: seq<Event>): Limiter {
    if events == [] then Limiter(map[], map[])
    else Apply(After(events[..|events| - 1]), events[|events| - 1])
  }

  ghost predicate Timely(events: seq<Event>) {
    forall i, j :: 0 <= i < j < |events| ==> events[i].time <= events[j].time
  }

  /** A run in time order, over by `now`. */
  ghost predicate TimelyUntil(events: seq<Event>, now: int) {
    Timely(events) && forall i :: 0 <= i < |events| ==> events[i].time <= now
  }

  // ── The log of failures ───────────────────────────────────────────────────

  /** An answer that counts as a failure of its key: any client error but the refusal itself. */
  predicate IsFailure(e: Event, key: string) {
    e.Finish? && e.key == key && 400 <= e.status <= 499 && e.status != 429
  }

  /** When the failures of a key were answered. */
  function Failures(events: seq<Event>, key: string): seq<int> {
    if events == [] then []
    else
      var e := events[|events| - 1];
      Failures(events[..|events| - 1], key) + if IsFailure(e, key) then [e.time] else []
  }

  /** When the window of the last failure opened: at the first failure after the window before had ended. */
  function Opened(log: seq<int>): int
    requires log != []
  {
    var n := |log| - 1;
    if n == 0 || Opened(log[..n]) + WINDOW_MS < log[n] then log[n] else Opened(log[..n])
  }

  function CountFrom(log: seq<int>, from: int): nat {
    if log == [] then 0
    else CountFrom(log[..|log| - 1], from) + if log[|log| - 1] >= from then 1 else 0
  }

  /** Refused: the last window is still open and holds ten failures. */
  predicate LogRefuses(log: seq<int>, now: int) {
    log != [] && Opened(log) + WINDOW_MS >= now && CountFrom(log, Opened(log)) >= MAX_FAILURES
  }

  ghost predicate Ordered(log: seq<int>) {
    forall i, j :: 0 <= i < j < |log| ==> log[i] <= log[j]
  }

  lemma {:induction false} OpenedBounds(log: seq<int>)
    requires log != [] && Ordered(log)
    ensures log[0] <= Opened(log) <= log[|log| - 1] <= Opened(log) + WINDOW_MS
    ensures Opened(log) in log
  {
    if |log| > 1 {
      OpenedBounds(log[..|log| - 1]);
    }
  }

  lemma {:induction false} CountNone(log: seq<int>, from: int)
    requires forall i :: 0 <= i < |log| ==> log[i] < from
    ensures CountFrom(log, from) == 0
  {
    if log != [] {
      CountNone(log[..|log| - 1], from);
    }
  }

  lemma {:induction false} CountFromLess(log: seq<int>, a: int, b: int)
    requires a <= b
    ensures CountFrom(log, a) >= CountFrom(log, b)
  {
    if log != [] {
      CountFromLess(log[..|log| - 1], a, b);
    }
  }

  /** One more failure: it opens a window of its own, or joins the one that is open. */
  lemma LogGrows(log: seq<int>, at: int)
    requires Ordered(log + [at])
    ensures var more := log + [at];
            if log == [] || Opened(log) + WINDOW_MS < at
            then Opened(more) == at && CountFrom(more, at) == 1
            else Opened(more) == Opened(log) && CountFrom(more, Opened(log)) == CountFrom(log, Opened(log)) + 1
  {
    var more := log + [at];
    assert more[..|log|] == log && more[|log|] == at;
    if log != [] {
      assert Ordered(log) by {
        assert forall i :: 0 <= i < |log| ==> more[i] == log[i];
      }
      OpenedBounds(log);
      assert forall i :: 0 <= i < |log| ==> more[i] == log[i] <= at;
      if Opened(log) + WINDOW_MS < at {
        LogBounded(log);
        CountNone(log, at);
      }
    }
  }

  lemma LogBounded(log: seq<int>)
    requires log != [] && Ordered(log)
    ensures forall i :: 0 <= i < |log| ==> log[i] <= Opened(log) + WINDOW_MS
  {
    OpenedBounds(log);
  }

  /** What a key's entry says of its failures; without one, its last window is over. */
  ghost predicate Tracks(store: Store, key: string, log: seq<int>, now: int) {
    if key in store then
      log != [] && store[key] == Entry(CountFrom(log, Opened(log)), Opened(log) + WINDOW_MS)
    else
      log != [] ==> Opened(log) + WINDOW_MS < now
  }

  lemma {:induction false} FailuresOrdered(events: seq<Event>, key: string)
    requires Timely(events)
    ensures Ordered(Failures(events, key))
    ensures forall t :: t in Failures(events, key) ==> t <= events[|events| - 1].time
  {
    if events != [] {
      var n := |events| - 1;
      FailuresOrdered(events[..n], key);
      var log := Failures(events[..n], key);
      forall t | t in log
        ensures t <= events[n].time
      {
        assert n > 0;
        assert events[..n][n - 1].time <= events[n].time;
      }
      assert forall i :: 0 <= i < |log| ==> log[i] in log;
    }
  }

  function Logged(log: seq<int>, e: Event, key: string): seq<int> {
    log + if IsFailure(e, key) then [e.time] else []
  }

  lemma TracksStep(l: Limiter, key: string, log: seq<int>, e: Event, time: int)
    requires Tracks(l.store, key, log, time) && time <= e.time && Ordered(Logged(log, e, key))
    ensures Tracks(Apply(l, e).store, key, Logged(log, e, key), e.time)
  {
    hide Opened, CountFrom;
    if IsFailure(e, key) {
      LogGrows(log, e.time);
    } else {
      assert log + [] == log;
    }
  }

  lemma {:induction false} StoreTracks(events: seq<Event>, key: string, now: int)
    requires TimelyUntil(events, now)
    ensures Tracks(After(events).store, key, Failures(events, key), now)
  {
    hide Apply, Tracks, Opened, CountFrom;
    if events == [] {
      NothingTracked(key, now);
    } else {
      var n := |events| - 1;
      StoreTracks(events[..n], key, events[n].time);
      FailuresOrdered(events, key);
      TracksStep(After(events[..n]), key, Failures(events[..n], key), events[n], events[n].time);
      TracksLater(After(events).store, key, Failures(events, key), events[n].time, now);
    }
  }

  lemma NothingTracked(key: string, now: int)
    ensures Tracks(map[], key, [], now)
  {
  }

  lemma TracksLater(store: Store, key: string, log: seq<int>, time: int, now: int)
    requires Tracks(store, key, log, time) && time <= now
    ensures Tracks(store, key, log, now)
  {
  }

  /**
   * Over any run in time order, with sweeps at any moments, a request is
   * refused exactly when the log of counted failures of its own key says so.
   * Sweeps and other keys are not in that log.
   */
  lemma LimiterRefinesLog(events: seq<Event>, key: string, now: int)
    requires TimelyUntil(events, now)
    ensures Refuses(After(events).store, key, now) <==> LogRefuses(Failures(events, key), now)
  {
    StoreTracks(events, key, now);
  }

  function WithoutSweeps(events: seq<Event>): seq<Event> {
    if events == [] then []
    else WithoutSweeps(events[..|events| - 1]) + if events[|events| - 1].Sweep? then [] else [events[|events| - 1]]
  }

  function OnlyKey(events: seq<Event>, key: string): seq<Event> {
    if events == [] then []
    else
      var e := events[|events| - 1];
      OnlyKey(events[..|events| - 1], key) + if !e.Sweep? && e.key == key then [e] else []
  }

  lemma TimelyAppend(events: seq<Event>, e: Event, now: int)
    requires TimelyUntil(events, e.time) && e.time <= now
    ensures TimelyUntil(events + [e], now)
  {
  }

  lemma FailuresAppend(events: seq<Event>, e: Event, key: string)
    ensures Failures(events + [e], key) == Logged(Failures(events, key), e, key)
  {
    assert (events + [e])[..|events|] == events;
  }

  lemma {:induction false} SweptFailures(events: seq<Event>, key: string, now: int)
    requires TimelyUntil(events, now)
    ensures Failures(WithoutSweeps(events), key) == Failures(events, key)
    ensures TimelyUntil(WithoutSweeps(events), now)
  {
    if events != [] {
      hide Failures, Timely;
      var first, e := events[..|events| - 1], events[|events| - 1];
      FirstEvents(events, now);
      SweptFailures(first, key, e.time);
      KeepOrDrop(first, WithoutSweeps(first), e, !e.Sweep?, key, now);
      assert first + [e] == events;
    }
  }

  lemma {:induction false} OwnFailures(events: seq<Event>, key: string, now: int)
    requires TimelyUntil(events, now)
    ensures Failures(OnlyKey(events, key), key) == Failures(events, key)
    ensures TimelyUntil(OnlyKey(events, key), now)
  {
    if events != [] {
      hide Failures, Timely;
      var first, e := events[..|events| - 1], events[|events| - 1];
      FirstEvents(events, now);
      OwnFailures(first, key, e.time);
      KeepOrDrop(first, OnlyKey(first, key), e, !e.Sweep? && e.key == key, key, now);
      assert first + [e] == events;
    }
  }

  /** Keeping an event, or dropping one that is no failure of the key. */
  lemma KeepOrDrop(first: seq<Event>, kept: seq<Event>, e: Event, keep: bool, key: string, now: int)
    requires Failures(kept, key) == Failures(first, key)
    requires TimelyUntil(kept, e.time) && e.time <= now
    requires !keep ==> e.Sweep? || e.key != key
    ensures var kept' := kept + if keep then [e] else [];
            Failures(kept', key) == Failures(first + [e], key) && TimelyUntil(kept', now)
  {
    FailuresAppend(first, e, key);
    if keep {
      FailuresAppend(kept, e, key);
      TimelyAppend(kept, e, now);
    } else {
      assert kept + [] == kept;
      assert Failures(first, key) + [] == Failures(first, key);
    }
  }

  lemma FirstEvents(events: seq<Event>, now: int)
    requires events != [] && TimelyUntil(events, now)
    ensures TimelyUntil(events[..|events| - 1], events[|events| - 1].time)
    ensures TimelyUntil(events[..|events| - 1], now)
  {
  }

  /** Sweeps never change a decision, and keys never affect each other. */
  lemma SweepsAndOtherKeysAreInvisible(events: seq<Event>, key: string, now: int)
    requires TimelyUntil(events, now)
    ensures Refuses(After(events).store, key, now) <==> Refuses(After(WithoutSweeps(events)).store, key, now)
    ensures Refuses(After(events).store, key, now) <==> Refuses(After(OnlyKey(events, key)).store, key, now)
  {
    SweptFailures(events, key, now);
    OwnFailures(events, key, now);
    LimiterRefinesLog(events, key, now);
    LimiterRefinesLog(WithoutSweeps(events), key, now);
    LimiterRefinesLog(OnlyKey(events, key), key, now);
  }

  /** Nobody with fewer than ten counted failures in the last fifteen minutes is refused. */
  lemma RefusedOnlyAfterTen(events: seq<Event>, key: string, now: int)
    requires TimelyUntil(events, now)
    requires Refuses(After(events).store, key, now)
    ensures CountFrom(Failures(events, key), now - 15 * 60 * 1000) >= 10
  {
    LimiterRefinesLog(events, key, now);
    var log := Failures(events, key);
    CountFromLess(log, now - WINDOW_MS, Opened(log));
  }

  /** At least `n` failures from a moment on: the n-th latest is not before it. */
  lemma {:induction false} CountFromIs(log: seq<int>, from: int, n: nat)
    requires Ordered(log) && n > 0
    ensures CountFrom(log, from) >= n <==> |log| >= n && log[|log| - n] >= from
  {
    if log != [] {
      var last := |log| - 1;
      if log[last] < from {
        CountNone(log, from);
      } else if n > 1 {
        CountFromIs(log[..last], from, n - 1);
      }
    }
  }

  /**
   * In terms of the tenth latest failure: a decision is the one a sliding window
   * would take (ten failures in the last fifteen minutes) exactly when that
   * failure is older, or there is none, or it is in the last window and that
   * window is still open.
   */
  lemma FixedMeetsSliding(events: seq<Event>, key: string, now: int)
    requires TimelyUntil(events, now)
    ensures var log := Failures(events, key);
            var fifteenMinutes := 15 * 60 * 1000;
            (Refuses(After(events).store, key, now) <==> CountFrom(log, now - fifteenMinutes) >= 10) <==>
            || |log| < 10
            || (var tenth := log[|log| - 10];
                tenth < now - fifteenMinutes || (Opened(log) <= tenth && now <= Opened(log) + fifteenMinutes))
  {
    hide After, Failures, Opened, CountFrom, Refuses, Timely, Ordered;
    var log := Failures(events, key);
    LimiterRefinesLog(events, key, now);
    FailuresOrdered(events, key);
    CountFromIs(log, now - WINDOW_MS, MAX_FAILURES);
    if log != [] {
      CountFromIs(log, Opened(log), MAX_FAILURES);
    }
    if Refuses(After(events).store, key, now) {
      RefusedOnlyAfterTen(events, key, now);
    }
  }
}
