/** What exact amounts promise: decimal strings that read back, and bounds on every rounding. */
module MoneyLaws {
  import opened Text
  import opened Decimals
  import opened Rounding
  import opened MoneyAmounts
  import opened Options

  // ── Printing and reading ──────────────────────────────────────────────────

  function Zeros(n: nat): (s: string)
    ensures |s| == n && AllDigits(s)
  {
    if n == 0 then "" else Zeros(n - 1) + "0"
  }

  lemma {:induction false} ZerosValue(n: nat)
    ensures Value(Zeros(n)) == 0
  {
    if n > 0 {
      ZerosValue(n - 1);
      assert Zeros(n)[..n - 1] == Zeros(n - 1);
    }
  }

  /** A multiple of a power of ten is printed as the multiplier's digits and zeros. */
  lemma PaddedMultiple(k: nat, zeros: nat, width: nat)
    requires width >= 1
    ensures PadStart(Digits(k * Pow10(zeros)), width + zeros) == PadStart(Digits(k), width) + Zeros(zeros)
  {
    var s := PadStart(Digits(k), width);
    PadIsPadded(k, width);
    PadIsPadded(k * Pow10(zeros), width + zeros);
    ValueConcat(s, Zeros(zeros));
    ZerosValue(zeros);
    assert (s + Zeros(zeros))[0] == s[0];
    PaddedUnique(PadStart(Digits(k * Pow10(zeros)), width + zeros), s + Zeros(zeros), k * Pow10(zeros), width + zeros);
  }

  /** A sign, digits, and `d` of them after a point. */
  function Printed(negative: bool, digits: string, d: nat): string
    requires d < |digits|
  {
    (if negative then "-" else "") + digits[..|digits| - d] + if d > 0 then "." + digits[|digits| - d..] else ""
  }

  /** The rounded amount in units of its last printed place. */
  function LastPlace(m: Money, d: nat): int
    requires d <= SCALE
  {
    DivRound(m.units, Pow10(SCALE - d))
  }

  /** What toFixed prints: the digits of the rounded amount in its last place. */
  lemma PrintedForm(m: Money, d: nat)
    requires d <= SCALE
    ensures var k := LastPlace(m, d);
            && |PadStart(Digits(Abs(k)), d + 1)| > d
            && ToFixed(m, d) == Done(Printed(k < 0, PadStart(Digits(Abs(k)), d + 1), d))
  {
    hide DivRound, Digits, PadStart, Value;
    var k, e := LastPlace(m, d), SCALE - d;
    var units := k * Pow10(e);
    assert Round(m, d) == Done(Money(units));
    AbsMul(k, Pow10(e));
    MulSign(k, Pow10(e));
    PaddedMultiple(Abs(k), e, d + 1);
    PadIsPadded(Abs(k), d + 1);
    var s := PadStart(Digits(Abs(k)), d + 1);
    var digits := PaddedDigits(Abs(units));
    assert digits == s + Zeros(e);
    assert digits[..|digits| - SCALE] == s[..|s| - d];
    assert digits[|digits| - SCALE..|digits| - e] == s[|s| - d..];
  }

  lemma NoSpaceTrim(s: string)
    requires s != "" && !IsSpace(s[0]) && !IsSpace(s[|s| - 1])
    ensures Trim(s) == s
  {
  }

  lemma PointAt(whole: string, rest: string)
    requires AllDigits(whole)
    requires rest != "" ==> rest[0] == '.'
    ensures IndexOf(whole + rest, '.') == |whole|
  {
    assert forall j :: 0 <= j < |whole| ==> IsDigit(whole[j]) && (whole + rest)[j] == whole[j];
    assert rest != "" ==> (whole + rest)[|whole|] == rest[0];
  }

  lemma UnsignedParses(whole: string, fraction: string, negative: bool)
    requires AllDigits(whole) && AllDigits(fraction) && whole != ""
    ensures ParseUnsigned(whole + if fraction == "" then "" else "." + fraction, negative) ==
            Done(Literal(negative, whole, fraction))
  {
    var rest := if fraction == "" then "" else "." + fraction;
    PointAt(whole, rest);
    assert (whole + rest)[..|whole|] == whole;
    assert rest != "" ==> (whole + rest)[|whole| + 1..] == fraction;
  }

  lemma SignParses(body: string, negative: bool)
    requires body != "" && IsDigit(body[0]) && IsDigit(body[|body| - 1])
    ensures ParseLiteral((if negative then "-" else "") + body) == ParseUnsigned(body, negative)
  {
    hide ParseUnsigned;
    var text := (if negative then "-" else "") + body;
    assert text[|text| - 1] == body[|body| - 1];
    NoSpaceTrim(text);
    assert negative ==> text[1..] == body;
    assert !negative ==> text == body;
  }

  /** A printed amount is read as its sign and its digits. */
  lemma PrintedParses(negative: bool, digits: string, d: nat)
    requires AllDigits(digits) && d < |digits|
    ensures ParseLiteral(Printed(negative, digits, d)) ==
            Done(Literal(negative, digits[..|digits| - d], digits[|digits| - d..]))
  {
    hide ParseLiteral, ParseUnsigned;
    var whole, fraction := digits[..|digits| - d], digits[|digits| - d..];
    var body := whole + if fraction == "" then "" else "." + fraction;
    assert body[0] == digits[0];
    if d > 0 {
      assert body[|body| - 1] == fraction[d - 1] == digits[|digits| - 1];
    } else {
      assert body == whole == digits;
    }
    UnsignedParses(whole, fraction, negative);
    SignParses(body, negative);
    assert Printed(negative, digits, d) == (if negative then "-" else "") + body;
  }

  lemma PrintedReads(negative: bool, digits: string, d: nat)
    requires AllDigits(digits) && d < |digits| && d <= SCALE
    ensures ParseDecimal(Printed(negative, digits, d), SCALE) ==
            var units: int := Value(digits) * Pow10(SCALE - d);
            Done(if negative then -units else units)
  {
    hide ParseLiteral, Printed;
    PrintedParses(negative, digits, d);
    assert digits[..|digits| - d] + digits[|digits| - d..] == digits;
    PowAdd(SCALE - d, d);
    var units: int := Value(digits) * Pow10(SCALE - d);
    assert Value(digits) * Pow10(SCALE) == units * Pow10(d);
    DivRoundExact(units, Pow10(d));
  }

  lemma SignedProduct(k: int, p: int)
    ensures (if k < 0 then -(Abs(k) * p) else Abs(k) * p) == k * p
  {
    MulSigns(k, p);
  }

  /** What toFixed prints reads back as the amount rounded to those places. */
  lemma RoundTrip(m: Money, d: nat)
    requires d <= SCALE
    ensures ToFixed(m, d).Done? && Of(Decimal(ToFixed(m, d).value)) == Round(m, d)
  {
    hide ToFixed, DivRound, ParseDecimal, Printed, PadStart, Digits;
    var k := LastPlace(m, d);
    PrintedForm(m, d);
    PadIsPadded(Abs(k), d + 1);
    PrintedReads(k < 0, PadStart(Digits(Abs(k)), d + 1), d);
    SignedProduct(k, Pow10(SCALE - d));
  }

  /** Four decimals print every amount exactly. */
  lemma ExactRoundTrip(m: Money)
    ensures ToFixed(m, SCALE).Done? && Of(Decimal(ToFixed(m, SCALE).value)) == Done(m)
  {
    RoundTrip(m, SCALE);
    assert Pow10(0) == 1;
    DivRoundExact(m.units, 1);
  }

  /**
   * A decimal string as toFixed writes it: no sign but a minus on an amount
   * that is not zero, no white space, no needless zero in front, `d` decimals.
   */
  ghost predicate Canonical(text: string, d: nat) {
    exists negative: bool, digits: string ::
      && AllDigits(digits) && d < |digits|
      && (|digits| > d + 1 ==> digits[0] != '0')
      && (negative ==> Value(digits) != 0)
      && text == Printed(negative, digits, d)
  }

  lemma PrintedIsCanonical(m: Money, d: nat)
    requires d <= SCALE
    ensures ToFixed(m, d).Done? && Canonical(ToFixed(m, d).value, d)
  {
    hide ToFixed, Printed, LastPlace, PadStart, Digits, Value;
    var k := LastPlace(m, d);
    PrintedForm(m, d);
    PadIsPadded(Abs(k), d + 1);
  }

  /** A text reads and prints back as itself exactly when it is canonical. */
  lemma PrintsBack(text: string, d: nat)
    requires d <= SCALE
    ensures Of(Decimal(text)).Done? && ToFixed(Of(Decimal(text)).value, d) == Done(text) <==> Canonical(text, d)
  {
    hide Of, ToFixed, Printed, AllDigits, Value;
    if Of(Decimal(text)).Done? && ToFixed(Of(Decimal(text)).value, d) == Done(text) {
      PrintedIsCanonical(Of(Decimal(text)).value, d);
    }
    if Canonical(text, d) {
      var negative, digits :| && AllDigits(digits) && d < |digits|
                              && (|digits| > d + 1 ==> digits[0] != '0')
                              && (negative ==> Value(digits) != 0)
                              && text == Printed(negative, digits, d);
      CanonicalPrints(negative, digits, d);
    }
  }

  lemma CanonicalPrints(negative: bool, digits: string, d: nat)
    requires d <= SCALE
    requires AllDigits(digits) && d < |digits| && (|digits| > d + 1 ==> digits[0] != '0')
    requires negative ==> Value(digits) != 0
    ensures var text := Printed(negative, digits, d);
            Of(Decimal(text)).Done? && ToFixed(Of(Decimal(text)).value, d) == Done(text)
  {
    hide Printed, ToFixed, ParseDecimal, DivRound, PadStart, Digits, Value;
    var v: int := Value(digits);
    var k := if negative then -v else v;
    PrintedReads(negative, digits, d);
    SignedProduct(k, Pow10(SCALE - d));
    var m := Money(k * Pow10(SCALE - d));
    DivRoundExact(k, Pow10(SCALE - d));
    assert LastPlace(m, d) == k;
    PrintedForm(m, d);
    PadIsPadded(v, d + 1);
    PaddedUnique(digits, PadStart(Digits(v), d + 1), v, d + 1);
  }

  // ── Rounding an amount ────────────────────────────────────────────────────

  /** Rounding is stable, keeps order, and moves an amount by at most half a step. */
  lemma RoundingLaws(m: Money, n: Money, d: nat)
    requires d <= SCALE
    ensures Round(m, d).Done? && Round(n, d).Done?
    ensures Round(Round(m, d).value, d) == Round(m, d)
    ensures m.units <= n.units ==> Round(m, d).value.units <= Round(n, d).value.units
    ensures 2 * Abs(Round(m, d).value.units - m.units) <= Pow10(SCALE - d)
  {
    hide DivRound;
    var step := Pow10(SCALE - d);
    DivRoundExact(DivRound(m.units, step), step);
    DivRoundError(m.units, step);
    if m.units <= n.units {
      DivRoundMonotone(m.units, n.units, step);
      MulOrder(DivRound(m.units, step), DivRound(n.units, step), step);
    }
  }

  lemma RoundedZero(d: nat)
    requires d <= SCALE
    ensures Round(Money(0), d) == Done(Money(0))
  {
    hide DivRound;
    DivRoundExact(0, Pow10(SCALE - d));
  }

  /** Multiplying by an integer is exact and distributes over addition. */
  lemma TimesWhole(m: Money, n: Money, k: int)
    ensures Times(m, Whole(k)) == Done(Money(m.units * k))
    ensures Times(Money(m.units + n.units), Whole(k)) == Done(Money(m.units * k + n.units * k))
  {
    hide DivRound;
    assert m.units * (k * FACTOR) == (m.units * k) * FACTOR;
    assert (m.units + n.units) * (k * FACTOR) == (m.units * k + n.units * k) * FACTOR;
    DivRoundExact(m.units * k, FACTOR);
    DivRoundExact(m.units * k + n.units * k, FACTOR);
  }

  /** A share times the number of shares misses the amount by at most half a ten-thousandth each; only zero shares throw. */
  lemma DivideThenMultiply(m: Money, q: int)
    ensures var share := DividedBy(m, Whole(q));
            && (share.Done? <==> q != 0)
            && (share.Done? ==>
                  && Times(share.value, Whole(q)).Done?
                  && 2 * Abs(Times(share.value, Whole(q)).value.units - m.units) <= Abs(q))
  {
    hide DivRound;
    if q != 0 {
      DivRoundScales(m.units, q, FACTOR);
      DivRoundError(m.units, q);
      TimesWhole(Money(DivRound(m.units, q)), m, q);
    }
  }

  /** A percentage is within half a ten-thousandth of the exact value. */
  lemma PercentError(m: Money, pct: Input)
    requires Of(pct).Done?
    ensures Percent(m, pct).Done?
    ensures 2 * Abs(Percent(m, pct).value.units * (FACTOR * 100) - m.units * Of(pct).value.units) <= FACTOR * 100
  {
    hide DivRound, Of;
    DivRoundError(m.units * Of(pct).value.units, FACTOR * 100);
  }

  // ── Rounding many amounts ─────────────────────────────────────────────────

  function RoundedToCents(units: seq<int>): (r: seq<int>)
    ensures |r| == |units|
  {
    seq(|units|, i requires 0 <= i < |units| => DivRound(units[i], 100) * 100)
  }

  lemma {:induction false} SumOfRounded(units: seq<int>)
    ensures Abs(Total(RoundedToCents(units)) - Total(units)) <= 50 * |units|
  {
    hide DivRound;
    if units != [] {
      var n := |units| - 1;
      SumOfRounded(units[..n]);
      assert RoundedToCents(units)[..n] == RoundedToCents(units[..n]);
      DivRoundError(units[n], 100);
    }
  }

  /** Rounding each of n amounts to cents misses the rounded sum by at most n + 1 half cents. */
  lemma RoundedSumError(units: seq<int>)
    ensures Round(Money(Total(units)), 2).Done?
    ensures Abs(Total(RoundedToCents(units)) - Round(Money(Total(units)), 2).value.units) <= 50 * (|units| + 1)
  {
    hide DivRound, Total, RoundedToCents;
    SumOfRounded(units);
    assert Pow10(2) == 10 * Pow10(1) == 100;
    DivRoundError(Total(units), 100);
  }

  // ── Every operation gives the nearest amount ──────────────────────────────

  /** Times, divided by and percent of any operand are the exact result rounded once, halves away from zero; only zero does not divide. */
  lemma ResultsAreNearest(m: Money, operand: Input)
    requires Of(operand).Done?
    ensures var f := Of(operand).value.units;
            && Times(m, operand).Done? && Nearest(m.units * f, 10000, Times(m, operand).value.units)
            && Percent(m, operand).Done? && Nearest(m.units * f, 1000000, Percent(m, operand).value.units)
            && (DividedBy(m, operand).Done? <==> f != 0)
            && (f != 0 ==> Nearest(m.units * 10000, f, DividedBy(m, operand).value.units))
  {
    hide DivRound, Nearest, Of;
    var f := Of(operand).value.units;
    DivRoundIsNearest(m.units * f, 10000, DivRound(m.units * f, 10000));
    DivRoundIsNearest(m.units * f, 1000000, DivRound(m.units * f, 1000000));
    if f != 0 {
      DivRoundIsNearest(m.units * 10000, f, DivRound(m.units * 10000, f));
    }
  }

  /** Rounding to 0 to 4 places gives the nearest multiple of the last place, halves away from zero. */
  lemma RoundIsNearest(m: Money, decimals: int) returns (q: int)
    ensures Round(m, decimals).Done? <==> 0 <= decimals <= 4
    ensures 0 <= decimals <= 4 ==>
              Nearest(m.units, Pow10(4 - decimals), q) && Round(m, decimals).value.units == q * Pow10(4 - decimals)
  {
    hide DivRound, Nearest;
    q := 0;
    if 0 <= decimals <= 4 {
      q := DivRound(m.units, Pow10(4 - decimals));
      DivRoundIsNearest(m.units, Pow10(4 - decimals), q);
    }
  }

  // ── What is read as an amount ─────────────────────────────────────────────

  function SignText(sign: Option<bool>): string {
    match sign
    case None => ""
    case Some(negative) => if negative then "-" else "+"
  }

  /** A sign or none, digits, and digits after a point or none. */
  ghost predicate IsDecimal(t: string, sign: Option<bool>, whole: string, fraction: string) {
    && whole != "" && AllDigits(whole) && AllDigits(fraction)
    && t == SignText(sign) + (whole + if fraction == "" then "" else "." + fraction)
  }

  lemma DecimalIsLiteral(text: string, sign: Option<bool>, whole: string, fraction: string)
    requires IsDecimal(Trim(text), sign, whole, fraction)
    ensures ParseLiteral(text) == Done(Literal(sign == Some(true), whole, fraction))
  {
    hide Trim, ParseUnsigned;
    var body := whole + if fraction == "" then "" else "." + fraction;
    UnsignedParses(whole, fraction, sign == Some(true));
    assert body[0] == whole[0] && IsDigit(body[0]);
    assert sign.Some? ==> Trim(text)[1..] == body;
    assert sign.None? ==> Trim(text) == body;
  }

  lemma UnsignedShape(body: string, negative: bool)
    requires ParseUnsigned(body, negative).Done?
    ensures var l := ParseUnsigned(body, negative).value;
            l.whole != "" && body == l.whole + if l.fraction == "" then "" else "." + l.fraction
  {
    var dot := IndexOf(body, '.');
    assert dot < |body| ==> body == body[..dot] + "." + body[dot + 1..];
  }

  lemma LiteralIsDecimal(text: string)
    requires ParseLiteral(text).Done?
    ensures var l := ParseLiteral(text).value;
            exists sign :: IsDecimal(Trim(text), sign, l.whole, l.fraction)
  {
    hide Trim, ParseUnsigned;
    var t, l := Trim(text), ParseLiteral(text).value;
    var signed := t != "" && (t[0] == '+' || t[0] == '-');
    var body := if signed then t[1..] else t;
    var sign := if signed then Some(t[0] == '-') else None;
    UnsignedShape(body, signed && t[0] == '-');
    assert t == SignText(sign) + body;
    assert IsDecimal(t, sign, l.whole, l.fraction);
  }

  /**
   * A text is read exactly when it is, trimmed, a sign or none, digits, and
   * digits after a point or none; and then as the nearest amount, however many
   * digits there are, halves away from zero.
   */
  lemma DecimalReads(text: string, scale: nat)
    ensures ParseDecimal(text, scale).Done? <==>
              exists sign, whole, fraction :: IsDecimal(Trim(text), sign, whole, fraction)
    ensures forall sign, whole, fraction :: IsDecimal(Trim(text), sign, whole, fraction) ==>
              var digits: int := Value(whole + fraction);
              && ParseDecimal(text, scale).Done?
              && Nearest((if sign == Some(true) then -digits else digits) * Pow10(scale), Pow10(|fraction|),
                         ParseDecimal(text, scale).value)
  {
    hide Trim, DivRound, Nearest, IsDecimal, ParseLiteral, Value;
    if ParseDecimal(text, scale).Done? {
      LiteralIsDecimal(text);
    }
    forall sign, whole, fraction | IsDecimal(Trim(text), sign, whole, fraction)
      ensures AllDigits(whole + fraction) && ParseDecimal(text, scale).Done?
      ensures var digits: int := Value(whole + fraction);
              Nearest((if sign == Some(true) then -digits else digits) * Pow10(scale), Pow10(|fraction|),
                      ParseDecimal(text, scale).value)
    {
      DecimalIsLiteral(text, sign, whole, fraction);
      DecimalDigits(Trim(text), sign, whole, fraction);
      var digits: int := Value(whole + fraction);
      var units := DivRound(digits * Pow10(scale), Pow10(|fraction|));
      DivRoundIsNearest(digits * Pow10(scale), Pow10(|fraction|), units);
      NearestSigns(digits * Pow10(scale), Pow10(|fraction|), units);
      MulSigns(digits, Pow10(scale));
    }
  }

  lemma DecimalDigits(t: string, sign: Option<bool>, whole: string, fraction: string)
    requires IsDecimal(t, sign, whole, fraction)
    ensures AllDigits(whole + fraction)
  {
  }
}
