/** Exact amounts of 1/10,000 of the currency unit (packages/shared/src/money.ts). */
module MoneyAmounts {
  import opened Text
  import opened Decimals
  import opened Rounding

  const SCALE: nat := 4
  const FACTOR: int := 10000

  /** A value, or the RangeError the source throws. */
  datatype Outcome<+T> = Done(value: T) | RangeError

  datatype Money = Money(units: int)

  /** What an amount is read from; a JavaScript number comes as its decimal string. */
  datatype Input = Amount(m: Money) | Decimal(text: string) | Whole(n: int)

  // ── Parsing ───────────────────────────────────────────────────────────────

  /** The position of the first `c`, or the length. */
  function IndexOf(s: string, c: char): (i: nat)
    ensures i <= |s|
    ensures forall j :: 0 <= j < i ==> s[j] != c
    ensures i < |s| ==> s[i] == c
  {
    if s == "" || s[0] == c then 0 else 1 + IndexOf(s[1..], c)
  }

  datatype Literal = Literal(negative: bool, whole: string, fraction: string)

  /** Digits, and more digits after a point if there is one. */
  function ParseUnsigned(body: string, negative: bool): (r: Outcome<Literal>)
    ensures r.Done? ==> AllDigits(r.value.whole) && AllDigits(r.value.fraction)
  {
    var dot := IndexOf(body, '.');
    var whole := body[..dot];
    if whole == "" || !AllDigits(whole) then RangeError
    else if dot == |body| then Done(Literal(negative, whole, ""))
    else
      var fraction := body[dot + 1..];
      if fraction == "" || !AllDigits(fraction) then RangeError
      else Done(Literal(negative, whole, fraction))
  }

  /** A trimmed text as sign, digits, and digits after a point. */
  function ParseLiteral(text: string): (r: Outcome<Literal>)
    ensures r.Done? ==> AllDigits(r.value.whole) && AllDigits(r.value.fraction)
  {
    var t := Trim(text);
    var signed := t != "" && (t[0] == '+' || t[0] == '-');
    ParseUnsigned(if signed then t[1..] else t, signed && t[0] == '-')
  }

  function ParseDecimal(text: string, scale: nat): Outcome<int> {
    match ParseLiteral(text)
    case RangeError => RangeError
    case Done(Literal(negative, whole, fraction)) =>
      var digits := Value(whole + fraction);
      var units := DivRound(digits * Pow10(scale), Pow10(|fraction|));
      Done(if negative then -units else units)
  }

  function Of(v: Input): Outcome<Money> {
    match v
    case Amount(m) => Done(m)
    case Whole(n) => Done(Money(n * FACTOR))
    case Decimal(text) =>
      match ParseDecimal(text, SCALE)
      case RangeError => RangeError
      case Done(units) => Done(Money(units))
  }

  // ── Arithmetic ────────────────────────────────────────────────────────────

  function Times(m: Money, factor: Input): Outcome<Money> {
    match Of(factor)
    case RangeError => RangeError
    case Done(f) => Done(Money(DivRound(m.units * f.units, FACTOR)))
  }

  function DividedBy(m: Money, divisor: Input): Outcome<Money> {
    match Of(divisor)
    case RangeError => RangeError
    case Done(d) => if d.units == 0 then RangeError else Done(Money(DivRound(m.units * FACTOR, d.units)))
  }

  function Percent(m: Money, pct: Input): Outcome<Money> {
    match Of(pct)
    case RangeError => RangeError
    case Done(p) => Done(Money(DivRound(m.units * p.units, FACTOR * 100)))
  }

  function Round(m: Money, decimals: int): Outcome<Money> {
    if decimals < 0 || decimals > SCALE then RangeError
    else
      var step := Pow10(SCALE - decimals);
      Done(Money(DivRound(m.units, step) * step))
  }

  // ── Printing ──────────────────────────────────────────────────────────────

  function ToFixed(m: Money, decimals: int): Outcome<string> {
    match Round(m, decimals)
    case RangeError => RangeError
    case Done(rounded) =>
      var units := rounded.units;
      var negative := units < 0;
      var digits := PaddedDigits(Abs(units));
      var whole := digits[..|digits| - SCALE];
      var fraction := digits[|digits| - SCALE..|digits| - (SCALE - decimals)];
      Done((if negative then "-" else "") + whole + if decimals > 0 then "." + fraction else "")
  }

  function PaddedDigits(n: nat): (digits: string)
    ensures |digits| > SCALE
  {
    PadIsPadded(n, SCALE + 1);
    PadStart(Digits(n), SCALE + 1)
  }

  // ── Sums ──────────────────────────────────────────────────────────────────

  function Total(units: seq<int>): int {
    if units == [] then 0 else Total(units[..|units| - 1]) + units[|units| - 1]
  }

  predicate AllRead(values: seq<Input>) {
    forall i :: 0 <= i < |values| ==> Of(values[i]).Done?
  }

  function UnitsOf(values: seq<Input>): (r: seq<int>)
    requires AllRead(values)
    ensures |r| == |values|
    ensures forall i :: 0 <= i < |r| ==> r[i] == Of(values[i]).value.units
  {
    seq(|values|, i requires 0 <= i < |values| => Of(values[i]).value.units)
  }

  lemma ReadNext(values: seq<Input>, v: Input)
    requires AllRead(values)
    ensures AllRead(values + [v]) <==> Of(v).Done?
    ensures Of(v).Done? ==> Total(UnitsOf(values + [v])) == Total(UnitsOf(values)) + Of(v).value.units
  {
    hide Of;
    var more := values + [v];
    assert more[|values|] == v;
    if Of(v).Done? {
      forall i | 0 <= i < |more|
        ensures Of(more[i]).Done?
      {
        if i < |values| {
          assert more[i] == values[i];
        }
      }
      assert UnitsOf(more)[..|values|] == UnitsOf(values);
    }
  }

  method Sum(values: seq<Input>) returns (r: Outcome<Money>)
    ensures r == if AllRead(values) then Done(Money(Total(UnitsOf(values)))) else RangeError
  {
    hide Of, Total, UnitsOf;
    var total := 0;
    EmptyTotal();
    for i := 0 to |values|
      invariant AllRead(values[..i])
      invariant total == Total(UnitsOf(values[..i]))
    {
      var m := Of(values[i]);
      ReadNext(values[..i], values[i]);
      assert values[..i + 1] == values[..i] + [values[i]];
      if m.RangeError? {
        return RangeError;
      }
      total := total + m.value.units;
    }
    assert values[..|values|] == values;
    r := Done(Money(total));
  }

  lemma EmptyTotal()
    ensures Total(UnitsOf([])) == 0
  {
  }

  lemma {:induction false} TotalInsert(a: seq<int>, x: int, b: seq<int>)
    ensures Total(a + [x] + b) == Total(a + b) + x
  {
    if b == [] {
      assert (a + [x] + b)[..|a|] == a && a + b == a;
    } else {
      var b' := b[..|b| - 1];
      assert (a + [x] + b)[..|a| + |b|] == a + [x] + b';
      assert (a + b)[..|a| + |b| - 1] == a + b';
      TotalInsert(a, x, b');
    }
  }

  lemma TotalLast(first: seq<int>, last: int)
    ensures Total(first + [last]) == Total(first) + last
    ensures multiset(first + [last]) == multiset(first) + multiset{last}
  {
    assert (first + [last])[..|first|] == first;
  }

  /** The amounts around one of them. */
  lemma Around(xs: seq<int>, x: int) returns (a: seq<int>, b: seq<int>)
    requires x in multiset(xs)
    ensures xs == a + [x] + b && multiset(a + b) == multiset(xs) - multiset{x}
  {
    var k :| 0 <= k < |xs| && xs[k] == x;
    a, b := xs[..k], xs[k + 1..];
    assert xs == a + [x] + b;
  }

  /** A sum does not depend on the order of its amounts. */
  lemma {:induction false} SumIgnoresOrder(xs: seq<int>, ys: seq<int>)
    requires multiset(xs) == multiset(ys)
    ensures Total(xs) == Total(ys)
    decreases |xs|
  {
    hide Total;
    if xs == [] {
      assert |multiset(ys)| == |ys| == 0;
    } else {
      var n := |xs| - 1;
      assert xs[n] in multiset(xs);
      var a, b := Around(ys, xs[n]);
      assert xs == xs[..n] + [xs[n]];
      TotalLast(xs[..n], xs[n]);
      SumIgnoresOrder(xs[..n], a + b);
      TotalInsert(a, xs[n], b);
    }
  }
}
