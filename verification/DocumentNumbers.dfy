/** Numbers of document series, handed out from locked counter rows (apps/api/src/lib/documentNumber.ts). */
module DocumentNumbers {
  import opened Decimals
  import opened Options

  /** A counter row: a series, and a day as YYYYMMDD or "" for a running series. */
  datatype Key = Key(series: string, period: string)

  type Counters = map<Key, int>

  /** The value the upsert gives: 1 for a new row, else one more. */
  function NextValue(rows: Counters, key: Key): int {
    if key in rows then rows[key] + 1 else 1
  }

  /** The value a raise leaves: never lower. */
  function RaisedValue(rows: Counters, key: Key, atLeast: int): int {
    if key in rows && rows[key] > atLeast then rows[key] else atLeast
  }

  /** The counter rows as one transaction sees and changes them. */
  class CounterTable {
    var rows: Counters

    constructor (rows: Counters)
      ensures this.rows == rows
    {
      this.rows := rows;
    }

    method NextDailyNumber(series: string, day: string) returns (number: string)
      modifies this
      ensures var key := Key(series, day);
              && rows == old(rows)[key := NextValue(old(rows), key)]
              && number == Printed(series, day, NextValue(old(rows), key))
    {
      var key := Key(series, day);
      if key in rows {
        rows := rows[key := rows[key] + 1];
      } else {
        rows := rows[key := 1];
      }
      number := Printed(series, day, rows[key]);
    }

    method NextRunningNumber(series: string) returns (value: int)
      modifies this
      ensures value == NextValue(old(rows), Key(series, "")) && rows == old(rows)[Key(series, "") := value]
    {
      var key := Key(series, "");
      if key in rows {
        rows := rows[key := rows[key] + 1];
      } else {
        rows := rows[key := 1];
      }
      value := rows[key];
    }

    method RaiseRunningNumber(series: string, atLeast: int)
      modifies this
      ensures rows == old(rows)[Key(series, "") := RaisedValue(old(rows), Key(series, ""), atLeast)]
    {
      var key := Key(series, "");
      if key !in rows || rows[key] < atLeast {
        rows := rows[key := atLeast];
      } else {
        rows := rows[key := rows[key]];
      }
    }
  }

  // ── Transactions ──────────────────────────────────────────────────────────

  datatype Number = Number(key: Key, value: int)

  /** An open transaction: the rows it wrote, which it keeps locked, and the numbers it took. */
  datatype Tx = Tx(writes: Counters, taken: seq<Number>)

  /** The committed rows, the open transactions, and the numbers of committed documents in order. */
  datatype Db = Db(rows: Counters, open: map<nat, Tx>, committed: seq<Number>)

  datatype Step =
    | Take(tx: nat, key: Key)
    | Raise(tx: nat, series: string, atLeast: int)
    | Commit(tx: nat)
    | Rollback(tx: nat)

  function TxOf(db: Db, id: nat): Tx {
    if id in db.open then db.open[id] else Tx(map[], [])
  }

  /** The row as the transaction sees it: its own write, else the committed row. */
  function Seen(db: Db, id: nat): Counters {
    db.rows + TxOf(db, id).writes
  }

  predicate Locked(db: Db, id: nat, key: Key) {
    exists other :: other in db.open && other != id && key in db.open[other].writes
  }

  /** A transaction waits for a row that another one has written; every other step can happen. */
  predicate Enabled(db: Db, step: Step) {
    match step
    case Take(id, key) => !Locked(db, id, key)
    case Raise(id, series, _) => !Locked(db, id, Key(series, ""))
    case Commit(id) => id in db.open
    case Rollback(id) => id in db.open
  }

  function Next(db: Db, step: Step): Db {
    match step
    case Take(id, key) =>
      var tx, value := TxOf(db, id), NextValue(Seen(db, id), key);
      db.(open := db.open[id := Tx(tx.writes[key := value], tx.taken + [Number(key, value)])])
    case Raise(id, series, atLeast) =>
      var tx, key := TxOf(db, id), Key(series, "");
      db.(open := db.open[id := tx.(writes := tx.writes[key := RaisedValue(Seen(db, id), key, atLeast)])])
    case Commit(id) =>
      Db(db.rows + TxOf(db, id).writes, db.open - {id}, db.committed + TxOf(db, id).taken)
    case Rollback(id) => db.(open := db.open - {id})
  }

  const EMPTY := Db(map[], map[], [])

  // ── What every step keeps ─────────────────────────────────────────────────

  /** The values of one row's numbers, in order. */
  function Values(numbers: seq<Number>, key: Key): seq<int> {
    if numbers == [] then []
    else
      var n := numbers[|numbers| - 1];
      Values(numbers[..|numbers| - 1], key) + if n.key == key then [n.value] else []
  }

  ghost predicate Increasing(s: seq<int>) {
    forall i, j :: 0 <= i < j < |s| ==> s[i] < s[j]
  }

  /** Values in order, the last of them at most the counter; none without a counter. */
  ghost predicate UpTo(values: seq<int>, rows: Counters, key: Key) {
    && Increasing(values)
    && (values != [] ==> key in rows && values[|values| - 1] <= rows[key])
  }

  /** A transaction's numbers lie above the committed counter and up to the value it wrote. */
  ghost predicate TxValid(rows: Counters, tx: Tx, key: Key) {
    var values := Values(tx.taken, key);
    && UpTo(values, tx.writes, key)
    && (key in rows && key in tx.writes ==> rows[key] <= tx.writes[key])
    && (key in rows && values != [] ==> rows[key] < values[0])
  }

  /** No row is written by two open transactions. */
  ghost predicate Exclusive(db: Db) {
    forall a, b, key ::
      a in db.open && b in db.open && a != b && key in db.open[a].writes ==> key !in db.open[b].writes
  }

  ghost predicate Valid(db: Db) {
    && Exclusive(db)
    && (forall key :: UpTo(Values(db.committed, key), db.rows, key))
    && (forall id, key :: id in db.open ==> TxValid(db.rows, db.open[id], key))
  }

  lemma {:induction false} ValuesConcat(a: seq<Number>, b: seq<Number>, key: Key)
    ensures Values(a + b, key) == Values(a, key) + Values(b, key)
  {
    if b == [] {
      assert a + b == a;
    } else {
      var last := |b| - 1;
      assert (a + b)[..|a| + last] == a + b[..last];
      ValuesConcat(a, b[..last], key);
    }
  }

  lemma ExclusiveAfter(db: Db, step: Step)
    requires Exclusive(db) && Enabled(db, step)
    ensures Exclusive(Next(db, step))
  {
    var db' := Next(db, step);
    if step.Take? || step.Raise? {
      var key := if step.Take? then step.key else Key(step.series, "");
      assert !Locked(db, step.tx, key);
    }
  }

  lemma ValuesOfOne(n: Number, key: Key)
    ensures Values([n], key) == if n.key == key then [n.value] else []
  {
    assert [n][..0] == [];
  }

  /** Taking the next number of a row: it lies above everything known of the row. */
  lemma TakeTx(rows: Counters, tx: Tx, key: Key, k: Key)
    requires TxValid(rows, tx, k)
    ensures var value := NextValue(rows + tx.writes, key);
            TxValid(rows, Tx(tx.writes[key := value], tx.taken + [Number(key, value)]), k)
  {
    hide Values;
    var n := Number(key, NextValue(rows + tx.writes, key));
    ValuesConcat(tx.taken, [n], k);
    ValuesOfOne(n, k);
  }

  /** Committing a transaction's numbers after those already committed. */
  lemma CommitNumbers(db: Db, id: nat, key: Key)
    requires Valid(db) && id in db.open
    ensures UpTo(Values(Next(db, Commit(id)).committed, key), Next(db, Commit(id)).rows, key)
  {
    hide Values, Exclusive;
    var tx := db.open[id];
    ValuesConcat(db.committed, tx.taken, key);
    assert TxValid(db.rows, tx, key) && UpTo(Values(db.committed, key), db.rows, key);
  }

  lemma CommitOthers(db: Db, id: nat, other: nat, key: Key)
    requires Valid(db) && id in db.open && other in db.open && other != id
    ensures TxValid(Next(db, Commit(id)).rows, db.open[other], key)
  {
    assert TxValid(db.rows, db.open[other], key) && TxValid(db.rows, db.open[id], key);
  }

  lemma StepKeepsValid(db: Db, step: Step)
    requires Valid(db) && Enabled(db, step)
    ensures Valid(Next(db, step))
  {
    hide Exclusive, UpTo, TxValid, Values, NextValue, Locked;
    var db' := Next(db, step);
    ExclusiveAfter(db, step);
    forall key
      ensures UpTo(Values(db'.committed, key), db'.rows, key)
    {
      if step.Commit? {
        CommitNumbers(db, step.tx, key);
      }
    }
    forall id, key | id in db'.open
      ensures TxValid(db'.rows, db'.open[id], key)
    {
      FreshTx(db.rows, key);
      match step
      case Take(tx, k) =>
        if id == tx {
          TakeTx(db.rows, TxOf(db, id), k, key);
        }
      case Raise(tx, series, atLeast) =>
        if id == tx {
          RaiseTx(db.rows, TxOf(db, id), Key(series, ""), atLeast, key);
        }
      case Commit(tx) => CommitOthers(db, tx, id, key);
      case Rollback(tx) =>
    }
  }

  lemma FreshTx(rows: Counters, key: Key)
    ensures TxValid(rows, Tx(map[], []), key)
  {
  }

  lemma RaiseTx(rows: Counters, tx: Tx, key: Key, atLeast: int, k: Key)
    requires TxValid(rows, tx, k)
    ensures TxValid(rows, tx.(writes := tx.writes[key := RaisedValue(rows + tx.writes, key, atLeast)]), k)
  {
  }

  ghost predicate RunFrom(db: Db, steps: seq<Step>)
    decreases |steps|
  {
    steps != [] ==> Enabled(db, steps[0]) && RunFrom(Next(db, steps[0]), steps[1..])
  }

  function End(db: Db, steps: seq<Step>): Db
    decreases |steps|
  {
    if steps == [] then db else End(Next(db, steps[0]), steps[1..])
  }

  lemma {:induction false} RunKeepsValid(db: Db, steps: seq<Step>)
    requires Valid(db) && RunFrom(db, steps)
    ensures Valid(End(db, steps))
    decreases |steps|
  {
    hide Valid, Enabled, Next;
    if steps != [] {
      StepKeepsValid(db, steps[0]);
      RunKeepsValid(Next(db, steps[0]), steps[1..]);
    }
  }

  lemma EmptyValid()
    ensures Valid(EMPTY)
  {
  }

  /**
   * Over any run of any transactions, the committed numbers of a row were given
   * in increasing order, so no two are the same, and none is above the counter.
   */
  lemma CommittedNumbersIncrease(steps: seq<Step>, key: Key)
    requires RunFrom(EMPTY, steps)
    ensures var db := End(EMPTY, steps);
            var values := Values(db.committed, key);
            && Increasing(values)
            && (forall i :: 0 <= i < |values| ==> key in db.rows && values[i] <= db.rows[key])
  {
    EmptyValid();
    RunKeepsValid(EMPTY, steps);
    var db := End(EMPTY, steps);
    assert UpTo(Values(db.committed, key), db.rows, key);
  }

  // ── A row never goes back ─────────────────────────────────────────────────

  /** The numbers in a log after its first `n`. */
  ghost predicate LaterAbove(numbers: seq<Number>, n: nat, key: Key, bound: int) {
    forall i :: n <= i < |numbers| && numbers[i].key == key ==> numbers[i].value > bound
  }

  ghost predicate AtLeast(rows: Counters, key: Key, bound: int) {
    key in rows && rows[key] >= bound
  }

  lemma {:induction false} ValuesAbove(numbers: seq<Number>, key: Key, bound: int)
    requires forall i :: 0 <= i < |Values(numbers, key)| ==> Values(numbers, key)[i] > bound
    ensures LaterAbove(numbers, 0, key, bound)
  {
    if numbers != [] {
      var first, last := numbers[..|numbers| - 1], numbers[|numbers| - 1];
      var values := Values(first, key);
      assert forall i :: 0 <= i < |values| ==> Values(numbers, key)[i] == values[i];
      ValuesAbove(first, key, bound);
      if last.key == key {
        assert Values(numbers, key)[|values|] == last.value;
      }
    }
  }

  lemma StepStaysAbove(db: Db, step: Step, key: Key, bound: int, n: nat)
    requires Valid(db) && Enabled(db, step)
    requires AtLeast(db.rows, key, bound) && n <= |db.committed| && LaterAbove(db.committed, n, key, bound)
    ensures var db' := Next(db, step);
            AtLeast(db'.rows, key, bound) && n <= |db'.committed| && LaterAbove(db'.committed, n, key, bound)
  {
    if step.Commit? {
      var tx := db.open[step.tx];
      assert TxValid(db.rows, tx, key);
      ValuesAbove(tx.taken, key, bound);
    }
  }

  lemma {:induction false} RunStaysAbove(db: Db, steps: seq<Step>, key: Key, bound: int, n: nat)
    requires Valid(db) && RunFrom(db, steps)
    requires AtLeast(db.rows, key, bound) && n <= |db.committed| && LaterAbove(db.committed, n, key, bound)
    ensures n <= |End(db, steps).committed| && LaterAbove(End(db, steps).committed, n, key, bound)
    decreases |steps|
  {
    hide Valid, Enabled, Next, AtLeast, LaterAbove;
    if steps != [] {
      StepKeepsValid(db, steps[0]);
      StepStaysAbove(db, steps[0], key, bound, n);
      RunStaysAbove(Next(db, steps[0]), steps[1..], key, bound, n);
    }
  }

  /** A running series raised to `atLeast`, and committed: every number committed later exceeds it. */
  lemma RaisedForGood(before: seq<Step>, id: nat, series: string, atLeast: int, between: seq<Step>, later: seq<Step>)
    requires RunFrom(EMPTY, before)
    requires var raised := End(EMPTY, before);
             && Enabled(raised, Raise(id, series, atLeast))
             && RunFrom(Next(raised, Raise(id, series, atLeast)), between)
    requires (forall i :: 0 <= i < |between| ==> between[i] != Commit(id) && between[i] != Rollback(id))
    requires var db := End(Next(End(EMPTY, before), Raise(id, series, atLeast)), between);
             id in db.open && RunFrom(Next(db, Commit(id)), later)
    ensures var db := Next(End(Next(End(EMPTY, before), Raise(id, series, atLeast)), between), Commit(id));
            LaterAbove(End(db, later).committed, |db.committed|, Key(series, ""), atLeast)
  {
    var key := Key(series, "");
    EmptyValid();
    RunKeepsValid(EMPTY, before);
    var raised := End(EMPTY, before);
    StepKeepsValid(raised, Raise(id, series, atLeast));
    RunKeepsValid(Next(raised, Raise(id, series, atLeast)), between);
    HeldAbove(Next(raised, Raise(id, series, atLeast)), between, id, key, atLeast);
    var db := End(Next(raised, Raise(id, series, atLeast)), between);
    StepKeepsValid(db, Commit(id));
    RunStaysAbove(Next(db, Commit(id)), later, key, atLeast, |Next(db, Commit(id)).committed|);
  }

  /** Until it ends, a transaction keeps what it wrote, or more. */
  lemma {:induction false} HeldAbove(db: Db, steps: seq<Step>, id: nat, key: Key, bound: int)
    requires Valid(db) && RunFrom(db, steps)
    requires id in db.open && AtLeast(db.open[id].writes, key, bound)
    requires forall i :: 0 <= i < |steps| ==> steps[i] != Commit(id) && steps[i] != Rollback(id)
    ensures id in End(db, steps).open && AtLeast(End(db, steps).open[id].writes, key, bound)
    decreases |steps|
  {
    if steps != [] {
      StepKeepsValid(db, steps[0]);
      HeldAbove(Next(db, steps[0]), steps[1..], id, key, bound);
    }
  }

  // ── No gaps ───────────────────────────────────────────────────────────────

  /** from + 1, from + 2, ... to. */
  function Range(from: int, to: int): seq<int> {
    if to <= from then [] else seq(to - from, i => from + 1 + i)
  }

  function Counter(rows: Counters, key: Key): int {
    if key in rows then rows[key] else 0
  }

  /** A transaction that wrote a row took exactly the numbers above the committed counter. */
  ghost predicate TxGapless(counter: int, tx: Tx, key: Key) {
    if key in tx.writes
    then tx.writes[key] >= counter && Values(tx.taken, key) == Range(counter, tx.writes[key])
    else Values(tx.taken, key) == []
  }

  /** Every number up to the counter is committed, and open transactions took the next ones. */
  ghost predicate Gapless(db: Db, key: Key) {
    && Counter(db.rows, key) >= 0
    && Values(db.committed, key) == Range(0, Counter(db.rows, key))
    && forall id :: id in db.open ==> TxGapless(Counter(db.rows, key), db.open[id], key)
  }

  predicate Raises(step: Step, key: Key) {
    step.Raise? && Key(step.series, "") == key
  }

  lemma RangeConcat(a: int, b: int, c: int)
    requires a <= b <= c
    ensures Range(a, b) + Range(b, c) == Range(a, c)
  {
  }

  lemma RangeEnds(a: int, b: int)
    ensures Range(a, a) == [] && Range(b - 1, b) == [b]
  {
  }

  lemma TakeGapless(rows: Counters, tx: Tx, k: Key, key: Key)
    requires TxGapless(Counter(rows, key), tx, key)
    ensures var value := NextValue(rows + tx.writes, k);
            TxGapless(Counter(rows, key), Tx(tx.writes[k := value], tx.taken + [Number(k, value)]), key)
  {
    hide Values, Range;
    var n := Number(k, NextValue(rows + tx.writes, k));
    ValuesConcat(tx.taken, [n], key);
    ValuesOfOne(n, key);
    if k == key {
      RangeConcat(Counter(rows, key), n.value - 1, n.value);
      RangeEnds(Counter(rows, key), n.value);
    }
  }

  lemma CommitGapless(db: Db, id: nat, key: Key)
    requires Valid(db) && Gapless(db, key) && id in db.open
    ensures Gapless(Next(db, Commit(id)), key)
  {
    var tx := db.open[id];
    assert TxGapless(Counter(db.rows, key), tx, key);
    ValuesConcat(db.committed, tx.taken, key);
    if key in tx.writes {
      RangeConcat(0, Counter(db.rows, key), tx.writes[key]);
    }
  }

  lemma StepKeepsGapless(db: Db, step: Step, key: Key)
    requires Valid(db) && Gapless(db, key) && Enabled(db, step) && !Raises(step, key)
    ensures Gapless(Next(db, step), key)
  {
    match step
    case Take(id, k) =>
      assert TxGapless(Counter(db.rows, key), TxOf(db, id), key);
      TakeGapless(db.rows, TxOf(db, id), k, key);
    case Raise(id, series, atLeast) =>
      assert TxGapless(Counter(db.rows, key), TxOf(db, id), key);
    case Commit(id) => CommitGapless(db, id, key);
    case Rollback(id) =>
  }

  lemma {:induction false} RunKeepsGapless(db: Db, steps: seq<Step>, key: Key)
    requires Valid(db) && Gapless(db, key) && RunFrom(db, steps)
    requires forall i :: 0 <= i < |steps| ==> !Raises(steps[i], key)
    ensures Gapless(End(db, steps), key)
    decreases |steps|
  {
    hide Valid, Enabled, Next, Gapless;
    if steps != [] {
      StepKeepsValid(db, steps[0]);
      StepKeepsGapless(db, steps[0], key);
      RunKeepsGapless(Next(db, steps[0]), steps[1..], key);
    }
  }

  /**
   * The committed numbers of a series that is never raised, which every daily
   * series is, are 1, 2, 3 and so on up to its counter: a rolled-back
   * transaction gives its numbers back, and leaves no gap.
   */
  lemma NoGaps(steps: seq<Step>, key: Key)
    requires RunFrom(EMPTY, steps) && forall i :: 0 <= i < |steps| ==> !Raises(steps[i], key)
    ensures var db := End(EMPTY, steps);
            Values(db.committed, key) == Range(0, Counter(db.rows, key))
  {
    EmptyValid();
    RunKeepsGapless(EMPTY, steps, key);
  }

  /**
   * A raise moves a counter to the bound if that is the greater, a missing one in
   * any case, and the next number its transaction takes is the one after.
   */
  lemma RaisedToTheGreater(db: Db, id: nat, series: string, atLeast: int)
    requires !Locked(db, id, Key(series, ""))
    ensures var key := Key(series, "");
            var (seen, raised) := (Seen(db, id), Next(db, Raise(id, series, atLeast)));
            var seen' := Seen(raised, id);
            && key in seen' && seen'[key] >= atLeast
            && (if key in seen then seen'[key] >= seen[key] && (seen'[key] == seen[key] || seen'[key] == atLeast)
                else seen'[key] == atLeast)
            && (forall other :: other != key ==> (other in seen' <==> other in seen) && (other in seen ==> seen'[other] == seen[other]))
            && TxOf(raised, id).taken == TxOf(db, id).taken
            && raised.rows == db.rows && raised.committed == db.committed
            && TxOf(Next(raised, Take(id, key)), id).taken == TxOf(db, id).taken + [Number(key, seen'[key] + 1)]
  {
  }

  // ── Printed numbers ───────────────────────────────────────────────────────

  function Printed(series: string, period: string, value: int): string {
    series + "-" + period + "-" + PadStart(if value < 0 then "-" + Digits(-value) else Digits(value), 4)
  }

  /** A number of a daily series: its day and its value, as the consistency check reads it. */
  function Parse(series: string, text: string): Option<(string, nat)> {
    var n := |series|;
    if |text| < n + 11 || text[..n] != series || text[n] != '-' || text[n + 9] != '-'
       || !AllDigits(text[n + 1..n + 9]) || !AllDigits(text[n + 10..])
    then None
    else Some((text[n + 1..n + 9], Value(text[n + 10..])))
  }

  predicate IsDay(period: string) {
    |period| == 8 && AllDigits(period)
  }

  /** A text parses exactly when it is the series, a day and digits, with dashes between. */
  lemma ParsesExactly(series: string, text: string, day: string, value: nat)
    ensures Parse(series, text) == Some((day, value)) <==>
            IsDay(day) && exists digits ::
              digits != "" && AllDigits(digits) && Value(digits) == value && text == series + "-" + day + "-" + digits
  {
    hide Value, AllDigits;
    var n := |series|;
    if Parse(series, text) == Some((day, value)) {
      assert text == series + "-" + day + "-" + text[n + 10..];
    }
    if IsDay(day) {
      forall digits | digits != "" && AllDigits(digits) && Value(digits) == value && text == series + "-" + day + "-" + digits
        ensures Parse(series, text) == Some((day, value))
      {
        assert text == series + ("-" + (day + ("-" + digits)));
        assert text[..n] == series && text[n + 1..n + 9] == day && text[n + 10..] == digits;
      }
    }
  }

  /** The printed number reads back as its day and value, also above 9999. */
  lemma PrintedParses(series: string, period: string, value: nat)
    requires IsDay(period)
    ensures Parse(series, Printed(series, period, value)) == Some((period, value))
  {
    hide PadStart, Digits, Value;
    PadIsPadded(value, 4);
    var digits := PadStart(Digits(value), 4);
    var text, n := Printed(series, period, value), |series|;
    assert text == series + ("-" + (period + ("-" + digits)));
    assert text[..n] == series && text[n + 1..n + 9] == period && text[n + 10..] == digits;
  }

  /** A text that parses is the printed form of what it parses as, exactly when its digits are padded to four. */
  lemma ParsedPrints(series: string, text: string)
    requires Parse(series, text).Some?
    ensures var (period, value) := Parse(series, text).value;
            text == Printed(series, period, value) <==>
            var digits := text[|series| + 10..]; |digits| >= 4 && (|digits| > 4 ==> digits[0] != '0')
  {
    var n := |series|;
    var (period, value) := Parse(series, text).value;
    var digits := text[n + 10..];
    PadIsPadded(value, 4);
    assert text == series + "-" + period + "-" + digits;
    PrintedParses(series, period, value);
    assert Printed(series, period, value)[n + 10..] == PadStart(Digits(value), 4);
    if |digits| >= 4 && (|digits| > 4 ==> digits[0] != '0') {
      PaddedUnique(digits, PadStart(Digits(value), 4), value, 4);
    }
  }

  /** Different numbers of one series are printed differently. */
  lemma PrintedUnique(series: string, p: string, v: nat, q: string, w: nat)
    requires IsDay(p) && IsDay(q) && Printed(series, p, v) == Printed(series, q, w)
    ensures p == q && v == w
  {
    PrintedParses(series, p, v);
    PrintedParses(series, q, w);
  }

  /** What stands before the first dash of a text is one name. */
  lemma BeforeTheDash(a: string, b: string, text: string)
    requires '-' !in a && '-' !in b && a + "-" <= text && b + "-" <= text
    ensures a == b
  {
    assert text[|a|] == '-' && text[|b|] == '-';
    assert forall i :: 0 <= i < |a| ==> text[i] == a[i] && text[i] != '-';
    assert forall i :: 0 <= i < |b| ==> text[i] == b[i] && text[i] != '-';
  }

  lemma ParsedStarts(series: string, text: string)
    ensures Parse(series, text).Some? ==> series + "-" <= text
  {
  }

  /** A printed number belongs to no other series; the names of series have no dash. */
  lemma PrintedInOneSeries(series: string, other: string, period: string, value: nat)
    requires IsDay(period) && series != other && '-' !in series && '-' !in other
    ensures Parse(other, Printed(series, period, value)) == None
  {
    hide PadStart, Digits, Value, Parse;
    var text := Printed(series, period, value);
    PrintedParses(series, period, value);
    ParsedStarts(series, text);
    ParsedStarts(other, text);
    if Parse(other, text).Some? {
      BeforeTheDash(series, other, text);
    }
  }
}
