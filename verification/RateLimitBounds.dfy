/** How many failures a fixed window lets through, and that it can be that many. */
module RateLimitBounds {
  import opened RateLimit

  // ── A fixed window, not a sliding one ─────────────────────────────────────

  function CountWithin(log: seq<int>, from: int, to: int): nat {
    if log == [] then 0
    else CountWithin(log[..|log| - 1], from, to) + if from <= log[|log| - 1] <= to then 1 else 0
  }

  /** Every window along the log held at most `limit` failures. */
  ghost predicate WindowsWithin(log: seq<int>, limit: nat) {
    forall n :: 0 < n <= |log| ==> CountFrom(log[..n], Opened(log[..n])) <= limit
  }

  lemma {:induction false} CountWithinSplit(a: seq<int>, b: seq<int>, from: int, to: int)
    ensures CountWithin(a + b, from, to) == CountWithin(a, from, to) + CountWithin(b, from, to)
    ensures CountWithin(b, from, to) <= |b|
  {
    if b == [] {
      assert a + b == a;
    } else {
      assert (a + b)[..|a + b| - 1] == a + b[..|b| - 1];
      CountWithinSplit(a, b[..|b| - 1], from, to);
    }
  }

  lemma {:induction false} CountWithinNone(log: seq<int>, from: int, to: int)
    requires forall i :: 0 <= i < |log| ==> log[i] < from || to < log[i]
    ensures CountWithin(log, from, to) == 0
  {
    if log != [] {
      CountWithinNone(log[..|log| - 1], from, to);
    }
  }

  lemma {:induction false} CountAll(log: seq<int>, from: int)
    requires forall i :: 0 <= i < |log| ==> log[i] >= from
    ensures CountFrom(log, from) == |log|
  {
    if log != [] {
      CountAll(log[..|log| - 1], from);
    }
  }

  lemma {:induction false} CountFromSplit(a: seq<int>, b: seq<int>, from: int)
    ensures CountFrom(a + b, from) == CountFrom(a, from) + CountFrom(b, from)
  {
    if b == [] {
      assert a + b == a;
    } else {
      assert (a + b)[..|a + b| - 1] == a + b[..|b| - 1];
      CountFromSplit(a, b[..|b| - 1], from);
    }
  }

  /** Where the last window begins: its first failure opened it, after the window before had ended. */
  lemma {:induction false} LastWindow(log: seq<int>) returns (k: nat)
    requires log != [] && Ordered(log)
    ensures k < |log| && log[k] == Opened(log)
    ensures forall i :: 0 <= i < k ==> log[i] < log[k]
    ensures forall i :: k <= i < |log| ==> log[k] <= log[i]
    ensures k > 0 ==> Opened(log[..k]) + WINDOW_MS < log[k]
    ensures CountFrom(log, Opened(log)) == |log| - k
  {
    hide Opened, CountFrom;
    var n := |log| - 1;
    var first := log[..n];
    assert log == first + [log[n]];
    LogGrows(first, log[n]);
    if n == 0 {
      k := 0;
    } else {
      OpenedBounds(first);
      if Opened(first) + WINDOW_MS < log[n] {
        k := n;
        LogBounded(first);
      } else {
        k := LastWindow(first);
        assert first[..k] == log[..k];
        assert log[n] >= Opened(first);
      }
    }
  }

  lemma OrderedPrefix(log: seq<int>, n: nat)
    requires n <= |log| && Ordered(log)
    ensures Ordered(log[..n])
  {
  }

  lemma WindowsPrefix(log: seq<int>, n: nat, limit: nat)
    requires n <= |log| && WindowsWithin(log, limit)
    ensures WindowsWithin(log[..n], limit)
  {
    forall m | 0 < m <= n
      ensures CountFrom(log[..n][..m], Opened(log[..n][..m])) <= limit
    {
      assert log[..n][..m] == log[..m];
    }
  }

  lemma WholeLog(log: seq<int>, limit: nat)
    requires log != [] && WindowsWithin(log, limit)
    ensures CountFrom(log, Opened(log)) <= limit
  {
    assert log[..|log|] == log;
  }

  /** A log cut before its last window. */
  lemma CutWindow(log: seq<int>, limit: nat) returns (before: seq<int>, last: seq<int>)
    requires log != [] && Ordered(log) && WindowsWithin(log, limit)
    ensures log == before + last && |before| < |log|
    ensures last != [] && |last| <= limit
    ensures forall i :: 0 <= i < |before| ==> before[i] < last[0]
    ensures forall i :: 0 <= i < |last| ==> last[0] <= last[i]
    ensures Ordered(before) && WindowsWithin(before, limit)
    ensures before != [] ==> Opened(before) + WINDOW_MS < last[0]
  {
    hide CountFrom, Opened, WindowsWithin;
    var k := LastWindow(log);
    OrderedPrefix(log, k);
    WindowsPrefix(log, k, limit);
    WholeLog(log, limit);
    before, last := log[..k], log[k..];
  }

  /** Fifteen minutes touch at most two windows, the first of them without the failure that opened it. */
  lemma {:induction false} SlidingBound(log: seq<int>, from: int, limit: nat)
    requires Ordered(log) && limit > 0 && WindowsWithin(log, limit)
    ensures CountWithin(log, from, from + WINDOW_MS) <= 2 * limit - 1
    decreases |log|
  {
    if log != [] {
      hide Ordered, CountWithin, WindowsWithin, CountFrom, Opened;
      var before, last := CutWindow(log, limit);
      SlidingBound(before, from, limit);
      if before != [] && from <= last[0] <= from + WINDOW_MS {
        EarlierWindow(before, from, limit, last[0]);
      }
      TwoWindows(before, last, from, limit);
    }
  }

  lemma TwoWindows(before: seq<int>, last: seq<int>, from: int, limit: nat)
    requires last != [] && |last| <= limit
    requires forall i :: 0 <= i < |before| ==> before[i] < last[0]
    requires forall i :: 0 <= i < |last| ==> last[0] <= last[i]
    requires CountWithin(before, from, from + WINDOW_MS) <= 2 * limit - 1
    requires before != [] && from <= last[0] <= from + WINDOW_MS ==>
               CountWithin(before, from, from + WINDOW_MS) <= limit - 1
    ensures CountWithin(before + last, from, from + WINDOW_MS) <= 2 * limit - 1
  {
    var to := from + WINDOW_MS;
    CountWithinSplit(before, last, from, to);
    if to < last[0] {
      CountWithinNone(last, from, to);
    } else if last[0] < from {
      CountWithinNone(before, from, to);
    }
  }

  lemma {:induction false} CountWithinLength(log: seq<int>, from: int, to: int)
    ensures CountWithin(log, from, to) <= |log|
  {
    if log != [] {
      CountWithinLength(log[..|log| - 1], from, to);
    }
  }

  lemma EarlierWindow(before: seq<int>, from: int, limit: nat, next: int)
    requires before != [] && Ordered(before) && limit > 0 && WindowsWithin(before, limit)
    requires Opened(before) + WINDOW_MS < next <= from + WINDOW_MS
    ensures CountWithin(before, from, from + WINDOW_MS) <= limit - 1
  {
    hide CountWithin, CountFrom, Opened, WindowsWithin;
    var to := from + WINDOW_MS;
    var k := LastWindow(before);
    WholeLog(before, limit);
    CountWithinLength(before[k + 1..], from, to);
    var older, rest := before[..k + 1], before[k + 1..];
    assert before == older + rest;
    CountWithinSplit(older, rest, from, to);
    CountWithinNone(older, from, to);
  }

  // ── The bound is reached ──────────────────────────────────────────────────

  function Repeat(t: int, n: nat): (r: seq<int>)
    ensures |r| == n && forall i :: 0 <= i < n ==> r[i] == t
  {
    if n == 0 then [] else Repeat(t, n - 1) + [t]
  }

  /** A failure, `a` more just before its window ends, and `b` just after. */
  function Bursts(a: nat, b: nat): (log: seq<int>)
    ensures |log| == 1 + a + b && Ordered(log)
  {
    [0] + Repeat(WINDOW_MS - 1, a) + Repeat(WINDOW_MS + 1, b)
  }

  lemma {:induction false} BurstWindows(a: nat, b: nat)
    ensures var log := Bursts(a, b);
            Opened(log) == (if b == 0 then 0 else WINDOW_MS + 1)
            && CountFrom(log, Opened(log)) == if b == 0 then 1 + a else b
    decreases b, a
  {
    var log := Bursts(a, b);
    if b > 0 {
      BurstWindows(a, b - 1);
      assert log == Bursts(a, b - 1) + [WINDOW_MS + 1];
      LogGrows(Bursts(a, b - 1), WINDOW_MS + 1);
    } else if a > 0 {
      BurstWindows(a - 1, 0);
      assert log == Bursts(a - 1, 0) + [WINDOW_MS - 1];
      LogGrows(Bursts(a - 1, 0), WINDOW_MS - 1);
    } else {
      assert log == [] + [0];
      LogGrows([], 0);
    }
  }

  lemma BurstsWithin(a: nat, b: nat, limit: nat)
    requires 1 + a <= limit && b <= limit
    ensures WindowsWithin(Bursts(a, b), limit)
  {
    forall n | 0 < n <= 1 + a + b
      ensures CountFrom(Bursts(a, b)[..n], Opened(Bursts(a, b)[..n])) <= limit
    {
      if n <= 1 + a {
        assert Bursts(a, b)[..n] == Bursts(n - 1, 0);
        BurstWindows(n - 1, 0);
      } else {
        assert Bursts(a, b)[..n] == Bursts(a, n - 1 - a);
        BurstWindows(a, n - 1 - a);
      }
    }
  }

  lemma {:induction false} RepeatCount(t: int, n: nat, from: int, to: int)
    requires from <= t <= to
    ensures CountWithin(Repeat(t, n), from, to) == n
  {
    if n > 0 {
      RepeatCount(t, n - 1, from, to);
      assert Repeat(t, n)[..n - 1] == Repeat(t, n - 1);
    }
  }

  lemma BurstsCount(a: nat, b: nat)
    ensures CountWithin(Bursts(a, b), 1, 1 + WINDOW_MS) == a + b
  {
    RepeatCount(WINDOW_MS - 1, a, 1, 1 + WINDOW_MS);
    RepeatCount(WINDOW_MS + 1, b, 1, 1 + WINDOW_MS);
    CountWithinSplit([0] + Repeat(WINDOW_MS - 1, a), Repeat(WINDOW_MS + 1, b), 1, 1 + WINDOW_MS);
    CountWithinSplit([0], Repeat(WINDOW_MS - 1, a), 1, 1 + WINDOW_MS);
    CountWithinNone([0], 1, 1 + WINDOW_MS);
  }

  /** For every limit some log fills the bound on fifteen minutes. */
  lemma SlidingBoundIsReached(limit: nat) returns (log: seq<int>, from: int)
    requires limit > 0
    ensures Ordered(log) && WindowsWithin(log, limit)
    ensures CountWithin(log, from, from + WINDOW_MS) == 2 * limit - 1
  {
    log, from := Bursts(limit - 1, limit), 1;
    BurstsWithin(limit - 1, limit, limit);
    BurstsCount(limit - 1, limit);
  }

  // ── Requests in flight together ───────────────────────────────────────────

  /** Every answer is to a request let through, and at most `k` requests of a key are ever in flight. */
  ghost predicate AtMostInFlight(events: seq<Event>, k: nat) {
    && (forall n :: 0 <= n < |events| ==>
          events[n].Finish? ==> InFlight(After(events[..n]), events[n].key) > 0)
    && (forall n, key :: 0 <= n <= |events| ==> InFlight(After(events[..n]), key) <= k)
  }

  ghost predicate Bounded(l: Limiter, k: nat, now: int) {
    forall key :: key in l.store ==>
      && l.store[key].count <= 9 + k
      && (l.store[key].resetAt >= now ==> l.store[key].count + InFlight(l, key) <= 9 + k)
  }

  lemma BoundedStep(l: Limiter, e: Event, k: nat, time: int)
    requires Bounded(l, k, time) && time <= e.time
    requires e.Finish? ==> 0 < InFlight(l, e.key) <= k
    requires e.Begin? ==> InFlight(Apply(l, e), e.key) <= k
    ensures Bounded(Apply(l, e), k, e.time)
  {
    var l' := Apply(l, e);
    forall key | key in l'.store
      ensures l'.store[key].count <= 9 + k
      ensures l'.store[key].resetAt >= e.time ==> l'.store[key].count + InFlight(l', key) <= 9 + k
    {
    }
  }

  lemma {:induction false} RunBounded(events: seq<Event>, k: nat, now: int)
    requires TimelyUntil(events, now) && AtMostInFlight(events, k)
    ensures Bounded(After(events), k, now)
  {
    if events != [] {
      var n := |events| - 1;
      var first, e := events[..n], events[n];
      assert events[..|events|] == events;
      FirstEvents(events, now);
      assert forall m :: 0 <= m <= n ==> first[..m] == events[..m];
      RunBounded(first, k, e.time);
      assert !e.Sweep? ==> InFlight(After(events[..|events|]), e.key) <= k;
      BoundedStep(After(first), e, k, e.time);
    }
  }

  /**
   * With at most k requests of a key in flight together its counter never
   * passes 9 + k, and so no fifteen minutes hold more than 17 + 2k failures of
   * it; one request at a time gives 10 and 19.
   */
  lemma CounterBound(events: seq<Event>, k: nat, now: int, key: string, from: int)
    requires k > 0 && TimelyUntil(events, now) && AtMostInFlight(events, k)
    ensures key in After(events).store ==> After(events).store[key].count <= 9 + k
    ensures CountWithin(Failures(events, key), from, from + WINDOW_MS) <= 17 + 2 * k
  {
    RunBounded(events, k, now);
    RunWindows(events, k, now, key);
    FailuresOrdered(events, key);
    SlidingBound(Failures(events, key), from, 9 + k);
  }

  /** The windows of a run's log are bounded as its counters are. */
  lemma {:induction false} RunWindows(events: seq<Event>, k: nat, now: int, key: string)
    requires TimelyUntil(events, now) && AtMostInFlight(events, k)
    ensures WindowsWithin(Failures(events, key), 9 + k)
  {
    if events != [] {
      var n := |events| - 1;
      var first, e := events[..n], events[n];
      assert events[..|events|] == events;
      assert forall m :: 0 <= m <= n ==> first[..m] == events[..m];
      FirstEvents(events, now);
      RunWindows(first, k, e.time, key);
      var log := Failures(events, key);
      if Failures(first, key) != log {
        RunBounded(events, k, e.time);
        StoreTracks(events, key, e.time);
        FailuresOrdered(events, key);
        OpenedBounds(log);
        LastWindowCounted(events, k, key, e.time);
        WindowsAppend(Failures(first, key), e.time, 9 + k);
      }
    }
  }

  lemma LastWindowCounted(events: seq<Event>, k: nat, key: string, now: int)
    requires Bounded(After(events), k, now) && Tracks(After(events).store, key, Failures(events, key), now)
    requires var log := Failures(events, key); log != [] && Opened(log) + WINDOW_MS >= now
    ensures var log := Failures(events, key); CountFrom(log, Opened(log)) <= 9 + k
  {
  }

  lemma WindowsAppend(log: seq<int>, t: int, limit: nat)
    requires WindowsWithin(log, limit)
    requires CountFrom(log + [t], Opened(log + [t])) <= limit
    ensures WindowsWithin(log + [t], limit)
  {
    var more := log + [t];
    forall n | 0 < n <= |more|
      ensures CountFrom(more[..n], Opened(more[..n])) <= limit
    {
      if n <= |log| {
        assert more[..n] == log[..n];
      } else {
        assert more[..n] == more;
      }
    }
  }

  // ── Every such log is the log of a run ────────────────────────────────────

  function Begins(key: string, t: int, m: nat): seq<Event> {
    if m == 0 then [] else Begins(key, t, m - 1) + [Begin(key, t)]
  }

  function Finishes(key: string, t: int, m: nat): seq<Event> {
    if m == 0 then [] else Finishes(key, t, m - 1) + [Finish(key, 401, t)]
  }

  /** Requests that are all let through before the first of them is answered 401. */
  function Salvo(key: string, t: int, m: nat): seq<Event> {
    Begins(key, t, m) + Finishes(key, t, m)
  }

  /** One request after another, each answered 401 at once. */
  function RunOf(log: seq<int>, key: string): seq<Event> {
    if log == [] then [] else RunOf(log[..|log| - 1], key) + Salvo(key, log[|log| - 1], 1)
  }

  lemma AfterAppend(events: seq<Event>, e: Event)
    ensures After(events + [e]) == Apply(After(events), e)
  {
    assert (events + [e])[..|events|] == events;
  }

  lemma InFlightAppend(events: seq<Event>, e: Event, k: nat)
    requires AtMostInFlight(events, k)
    requires e.Finish? ==> InFlight(After(events), e.key) > 0
    requires forall key :: InFlight(After(events + [e]), key) <= k
    ensures AtMostInFlight(events + [e], k)
  {
    hide After, InFlight;
    var more := events + [e];
    assert more[..|more|] == more && more[..|events|] == events;
    forall n | 0 <= n <= |events|
      ensures more[..n] == events[..n]
    {
    }
  }

  /** A window that holds one more failure within the limit was not refusing. */
  lemma RoomForOne(first: seq<int>, t: int)
    requires Ordered(first + [t]) && WindowsWithin(first + [t], MAX_FAILURES)
    ensures !LogRefuses(first, t)
  {
    hide Opened, CountFrom;
    LogGrows(first, t);
    WholeLog(first + [t], MAX_FAILURES);
  }

  /** After the run `m` requests of a key are in flight, and none of another. */
  ghost predicate InFlightAre(events: seq<Event>, key: string, m: nat) {
    forall other :: InFlight(After(events), other) == if other == key then m else 0
  }

  lemma {:induction false} LetThrough(before: seq<Event>, key: string, t: int, m: nat, k: nat)
    requires TimelyUntil(before, t) && AtMostInFlight(before, k) && InFlightAre(before, key, 0) && m <= k
    requires !Refuses(After(before).store, key, t)
    ensures var events := before + Begins(key, t, m);
            && TimelyUntil(events, t) && AtMostInFlight(events, k) && InFlightAre(events, key, m)
            && After(events).store == After(before).store && Failures(events, key) == Failures(before, key)
  {
    hide Timely, AtMostInFlight, Failures, Refuses, After;
    if m == 0 {
      assert before + [] == before;
    } else {
      LetThrough(before, key, t, m - 1, k);
      var events := before + Begins(key, t, m - 1);
      assert before + Begins(key, t, m) == events + [Begin(key, t)];
      OneMoreBegins(events, key, t, m - 1);
      TimelyAppend(events, Begin(key, t), t);
      FailuresAppend(events, Begin(key, t), key);
      assert Failures(events, key) + [] == Failures(events, key);
      InFlightAppend(events, Begin(key, t), k);
    }
  }

  lemma OneMoreBegins(events: seq<Event>, key: string, t: int, m: nat)
    requires InFlightAre(events, key, m) && !Refuses(After(events).store, key, t)
    ensures InFlightAre(events + [Begin(key, t)], key, m + 1)
    ensures After(events + [Begin(key, t)]).store == After(events).store
  {
    hide After, Refuses;
    AfterAppend(events, Begin(key, t));
    forall other
      ensures InFlight(After(events + [Begin(key, t)]), other) == if other == key then m + 1 else 0
    {
      assert InFlight(After(events), other) == if other == key then m else 0;
    }
  }

  lemma OneMoreFinishes(events: seq<Event>, key: string, t: int, m: nat)
    requires m > 0 && InFlightAre(events, key, m)
    ensures InFlightAre(events + [Finish(key, 401, t)], key, m - 1)
  {
    hide After, Answered;
    AfterAppend(events, Finish(key, 401, t));
    forall other
      ensures InFlight(After(events + [Finish(key, 401, t)]), other) == if other == key then m - 1 else 0
    {
      assert InFlight(After(events), other) == if other == key then m else 0;
    }
  }

  lemma {:induction false} AllAnswered(before: seq<Event>, key: string, t: int, m: nat, n: nat, k: nat)
    requires TimelyUntil(before, t) && AtMostInFlight(before, k) && InFlightAre(before, key, n) && m <= n <= k
    ensures var events := before + Finishes(key, t, m);
            && TimelyUntil(events, t) && AtMostInFlight(events, k) && InFlightAre(events, key, n - m)
            && Failures(events, key) == Failures(before, key) + Repeat(t, m)
  {
    hide Timely, AtMostInFlight, Failures, After;
    if m == 0 {
      assert before + [] == before && Failures(before, key) + [] == Failures(before, key);
    } else {
      AllAnswered(before, key, t, m - 1, n, k);
      var events := before + Finishes(key, t, m - 1);
      assert before + Finishes(key, t, m) == events + [Finish(key, 401, t)];
      assert InFlight(After(events), key) == n - m + 1;
      OneMoreFinishes(events, key, t, n - m + 1);
      TimelyAppend(events, Finish(key, 401, t), t);
      FailuresAppend(events, Finish(key, 401, t), key);
      InFlightAppend(events, Finish(key, 401, t), k);
      assert Failures(before, key) + Repeat(t, m - 1) + [t] == Failures(before, key) + (Repeat(t, m - 1) + [t]);
    }
  }

  /** `m` more requests, all let through and then all answered with a failure. */
  lemma SalvoIsLetThrough(before: seq<Event>, key: string, t: int, m: nat, k: nat)
    requires TimelyUntil(before, t) && AtMostInFlight(before, k) && InFlightAre(before, key, 0) && m <= k
    requires !Refuses(After(before).store, key, t)
    ensures var events := before + Salvo(key, t, m);
            && TimelyUntil(events, t) && AtMostInFlight(events, k) && InFlightAre(events, key, 0)
            && Failures(events, key) == Failures(before, key) + Repeat(t, m)
  {
    hide Timely, AtMostInFlight, Failures, After, Refuses, InFlightAre, Begins, Finishes;
    LetThrough(before, key, t, m, k);
    AllAnswered(before + Begins(key, t, m), key, t, m, m, k);
    assert before + Salvo(key, t, m) == before + Begins(key, t, m) + Finishes(key, t, m);
  }

  /**
   * Failures in order, at most ten in each window, are the log of some run of
   * requests one at a time, every one of them let through.
   */
  lemma {:induction false} EveryLogHasARun(log: seq<int>, key: string, now: int)
    requires Ordered(log) && WindowsWithin(log, MAX_FAILURES) && (log != [] ==> log[|log| - 1] <= now)
    ensures var events := RunOf(log, key);
            && TimelyUntil(events, now) && AtMostInFlight(events, 1) && InFlightAre(events, key, 0)
            && Failures(events, key) == log
  {
    hide Opened, CountFrom, LogRefuses, Failures, Timely, WindowsWithin, AtMostInFlight, After, Refuses, InFlightAre, Salvo;
    if log == [] {
      NoRequests(key);
    } else {
      var n := |log| - 1;
      var first, t := log[..n], log[n];
      assert log == first + [t];
      OrderedFirst(log);
      WindowsPrefix(log, n, MAX_FAILURES);
      EveryLogHasARun(first, key, t);
      RoomForOne(first, t);
      LimiterRefinesLog(RunOf(first, key), key, t);
      SalvoIsLetThrough(RunOf(first, key), key, t, 1, 1);
      assert Repeat(t, 1) == [t];
      TimelyLater(RunOf(log, key), t, now);
    }
  }

  lemma TimelyLater(events: seq<Event>, time: int, now: int)
    requires TimelyUntil(events, time) && time <= now
    ensures TimelyUntil(events, now)
  {
  }

  lemma OrderedFirst(log: seq<int>)
    requires Ordered(log) && log != []
    ensures var n := |log| - 1; Ordered(log[..n]) && (n > 0 ==> log[n - 1] <= log[n])
  {
  }

  lemma NoRequests(key: string)
    ensures Timely([]) && AtMostInFlight([], 1) && InFlightAre([], key, 0) && Failures([], key) == []
  {
  }

  lemma MoreInFlight(events: seq<Event>, j: nat, k: nat)
    requires AtMostInFlight(events, j) && j <= k
    ensures AtMostInFlight(events, k)
  {
  }

  lemma {:induction false} RepeatMore(t: int, m: nat, n: nat)
    ensures Repeat(t, m) + Repeat(t, n) == Repeat(t, m + n)
  {
    if n > 0 {
      RepeatMore(t, m, n - 1);
      assert Repeat(t, m) + (Repeat(t, n - 1) + [t]) == (Repeat(t, m) + Repeat(t, n - 1)) + [t];
    } else {
      assert Repeat(t, m) + [] == Repeat(t, m);
    }
  }

  lemma LongerBursts(a: nat, b: nat, m: nat)
    ensures Bursts(a, b) + Repeat(WINDOW_MS + 1, m) == Bursts(a, b + m)
    ensures b == 0 ==> Bursts(a, 0) + Repeat(WINDOW_MS - 1, m) == Bursts(a + m, 0)
  {
    RepeatMore(WINDOW_MS + 1, b, m);
    RepeatMore(WINDOW_MS - 1, a, m);
  }

  /** Nine failures one at a time, and `k` more let through together before the tenth counts. */
  lemma FirstWindow(key: string, k: nat) returns (events: seq<Event>)
    requires k > 0
    ensures TimelyUntil(events, WINDOW_MS - 1) && AtMostInFlight(events, k) && InFlightAre(events, key, 0)
    ensures Failures(events, key) == Bursts(8 + k, 0)
  {
    hide Opened, CountFrom, Failures, Timely, WindowsWithin, AtMostInFlight, After, Refuses, InFlightAre, Salvo, Bursts, Repeat;
    var log := Bursts(8, 0);
    BurstsWithin(8, 0, MAX_FAILURES);
    BurstsEnd(8, 0);
    EveryLogHasARun(log, key, WINDOW_MS - 1);
    var before := RunOf(log, key);
    MoreInFlight(before, 1, k);
    BurstWindows(8, 0);
    LimiterRefinesLog(before, key, WINDOW_MS - 1);
    SalvoIsLetThrough(before, key, WINDOW_MS - 1, k, k);
    LongerBursts(8, 0, k);
    events := before + Salvo(key, WINDOW_MS - 1, k);
  }

  lemma BurstsEnd(a: nat, b: nat)
    ensures var log := Bursts(a, b);
            log[|log| - 1] == if b > 0 then WINDOW_MS + 1 else if a > 0 then WINDOW_MS - 1 else 0
  {
  }

  /** After a full first window, the second one up to `j` failures, one at a time. */
  lemma {:induction false} SecondWindow(key: string, k: nat, j: nat) returns (events: seq<Event>)
    requires k > 0 && j <= 9
    ensures TimelyUntil(events, WINDOW_MS + 1) && AtMostInFlight(events, k) && InFlightAre(events, key, 0)
    ensures Failures(events, key) == Bursts(8 + k, j)
    ensures !Refuses(After(events).store, key, WINDOW_MS + 1)
  {
    hide Opened, CountFrom, Failures, Timely, AtMostInFlight, After, Refuses, InFlightAre, Salvo, Bursts, Repeat;
    if j == 0 {
      events := FirstWindow(key, k);
      TimelyLater(events, WINDOW_MS - 1, WINDOW_MS + 1);
    } else {
      var before := SecondWindow(key, k, j - 1);
      SalvoIsLetThrough(before, key, WINDOW_MS + 1, 1, k);
      LongerBursts(8 + k, j - 1, 1);
      events := before + Salvo(key, WINDOW_MS + 1, 1);
    }
    BurstWindows(8 + k, j);
    LimiterRefinesLog(events, key, WINDOW_MS + 1);
  }

  /**
   * For every k some run with at most k requests in flight together takes the
   * counter to 9 + k and fifteen minutes to 17 + 2k failures; one request at a
   * time reaches ten and nineteen.
   */
  lemma BoundsAreReached(key: string, k: nat) returns (events: seq<Event>, now: int)
    requires k > 0
    ensures TimelyUntil(events, now) && AtMostInFlight(events, k)
    ensures key in After(events).store && After(events).store[key].count == 9 + k
    ensures CountWithin(Failures(events, key), now - WINDOW_MS, now) == 17 + 2 * k
  {
    hide Opened, CountFrom, CountWithin, Failures, Timely, AtMostInFlight, After, Refuses, InFlightAre, Salvo, Bursts, Repeat;
    now := WINDOW_MS + 1;
    var before := SecondWindow(key, k, 9);
    SalvoIsLetThrough(before, key, now, k, k);
    LongerBursts(8 + k, 9, k);
    events := before + Salvo(key, now, k);
    BurstWindows(8 + k, 9 + k);
    BurstsCount(8 + k, 9 + k);
    StoreTracks(events, key, now);
    BurstsEnd(8 + k, 9 + k);
  }

  lemma BurstsRun(a: nat, b: nat, key: string, now: int) returns (log: seq<int>, events: seq<Event>)
    requires 1 + a <= MAX_FAILURES && b <= MAX_FAILURES && now == WINDOW_MS + 1
    ensures log == Bursts(a, b)
    ensures TimelyUntil(events, now) && AtMostInFlight(events, 1) && Failures(events, key) == log
  {
    log := Bursts(a, b);
    BurstsWithin(a, b, MAX_FAILURES);
    events := RunOf(log, key);
    EveryLogHasARun(log, key, now);
  }

  /**
   * After eighteen failures in the last fifteen minutes, one request at a time,
   * the next is still let through: the window is fixed and does not slide.
   */
  lemma WindowDoesNotSlide(key: string) returns (events: seq<Event>, now: int)
    ensures TimelyUntil(events, now) && AtMostInFlight(events, 1)
    ensures CountWithin(Failures(events, key), now - WINDOW_MS, now) == 18
    ensures !Refuses(After(events).store, key, now)
  {
    now := 1 + WINDOW_MS;
    var log;
    log, events := BurstsRun(9, 9, key, now);
    BurstsCount(9, 9);
    BurstWindows(9, 9);
    LimiterRefinesLog(events, key, now);
  }
}
