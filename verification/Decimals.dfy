/** Decimal digits of natural numbers, padded with zeros as the source's padStart does. */
module Decimals {

  function Pow10(n: nat): (p: nat)
    ensures p > 0
  {
    if n == 0 then 1 else 10 * Pow10(n - 1)
  }

  predicate IsDigit(c: char) {
    '0' <= c <= '9'
  }

  predicate AllDigits(s: string) {
    forall i :: 0 <= i < |s| ==> IsDigit(s[i])
  }

  function DigitOf(n: nat): (c: char)
    requires n < 10
    ensures IsDigit(c) && ToNat(c) == n
  {
    '0' + n as char
  }

  function ToNat(c: char): (n: nat)
    requires IsDigit(c)
    ensures n < 10
  {
    c as int - '0' as int
  }

  /** A number's digits without leading zeros; "0" for zero. */
  function Digits(n: nat): string {
    if n < 10 then [DigitOf(n)] else Digits(n / 10) + [DigitOf(n % 10)]
  }

  function Value(s: string): nat
    requires AllDigits(s)
  {
    if s == "" then 0 else Value(s[..|s| - 1]) * 10 + ToNat(s[|s| - 1])
  }

  function PadStart(s: string, width: nat): string
    decreases width - |s|
  {
    if |s| >= width then s else PadStart("0" + s, width)
  }

  /** Digits of a number, at least `width` of them, with zeros in front only up to that width. */
  ghost predicate IsPadded(s: string, n: nat, width: nat) {
    && AllDigits(s) && Value(s) == n
    && |s| >= width && |s| > 0
    && (|s| > width && |s| > 1 ==> s[0] != '0')
  }

  lemma {:induction false} ValueConcat(a: string, b: string)
    requires AllDigits(a) && AllDigits(b)
    ensures AllDigits(a + b)
    ensures Value(a + b) == Value(a) * Pow10(|b|) + Value(b)
  {
    if b == "" {
      assert a + b == a;
    } else {
      hide Value, Pow10;
      var b', last := b[..|b| - 1], b[|b| - 1];
      ValueConcat(a, b');
      ValueLast(b', last);
      ValueLast(a + b', last);
      assert b == b' + [last] && a + b == a + b' + [last];
      TimesTen(Value(a), |b'|);
    }
  }

  lemma ValueLast(s: string, last: char)
    requires AllDigits(s) && IsDigit(last)
    ensures AllDigits(s + [last]) && Value(s + [last]) == Value(s) * 10 + ToNat(last)
  {
    assert (s + [last])[..|s|] == s;
  }

  lemma TimesTen(a: nat, n: nat)
    ensures a * Pow10(n + 1) == a * Pow10(n) * 10
  {
  }

  lemma {:induction false} ValueBound(s: string)
    requires AllDigits(s)
    ensures Value(s) < Pow10(|s|)
    ensures s != "" && s[0] != '0' ==> Value(s) >= Pow10(|s| - 1)
  {
    if |s| > 1 {
      ValueBound(s[..|s| - 1]);
    } else if |s| == 1 {
      assert s[..0] == "";
      assert Pow10(1) == 10 && Pow10(0) == 1;
    }
  }

  lemma {:induction false} PowMonotone(m: nat, n: nat)
    requires m <= n
    ensures Pow10(m) <= Pow10(n)
  {
    if m < n {
      PowMonotone(m, n - 1);
    }
  }

  lemma {:induction false} PowAdd(m: nat, n: nat)
    ensures Pow10(m + n) == Pow10(m) * Pow10(n)
  {
    if m > 0 {
      PowAdd(m - 1, n);
    }
  }

  lemma {:induction false} SameLengthSameValue(s: string, t: string)
    requires AllDigits(s) && AllDigits(t) && |s| == |t| && Value(s) == Value(t)
    ensures s == t
  {
    if s != "" {
      hide Value;
      var s', t' := s[..|s| - 1], t[..|t| - 1];
      assert s == s' + [s[|s| - 1]] && t == t' + [t[|t| - 1]];
      ValueLast(s', s[|s| - 1]);
      ValueLast(t', t[|t| - 1]);
      SameLengthSameValue(s', t');
    }
  }

  /** A number has one padded form. */
  lemma PaddedUnique(s: string, t: string, n: nat, width: nat)
    requires IsPadded(s, n, width) && IsPadded(t, n, width)
    ensures s == t
  {
    if |s| < |t| {
      PaddedShorter(s, t, n, width);
    } else if |t| < |s| {
      PaddedShorter(t, s, n, width);
    } else {
      SameLengthSameValue(s, t);
    }
  }

  lemma PaddedShorter(s: string, t: string, n: nat, width: nat)
    requires IsPadded(s, n, width) && IsPadded(t, n, width)
    ensures |s| >= |t|
  {
    if |s| < |t| {
      ValueBound(s);
      ValueBound(t);
      PowMonotone(|s|, |t| - 1);
    }
  }

  lemma {:induction false} DigitsPadded(n: nat)
    ensures IsPadded(Digits(n), n, 1)
  {
    if n >= 10 {
      DigitsPadded(n / 10);
      var s := Digits(n / 10);
      assert Digits(n)[..|s|] == s;
      assert AllDigits(Digits(n));
      if |s| == 1 {
        assert s[..0] == "";
        assert Value(s) == ToNat(s[0]);
      }
      assert Digits(n)[0] == s[0];
    } else {
      assert Digits(n)[..0] == "";
    }
  }

  lemma ValueLeadingZero(s: string)
    requires AllDigits(s)
    ensures AllDigits("0" + s) && Value("0" + s) == Value(s)
  {
    ValueConcat("0", s);
    assert "0"[..0] == "" && Value("0") == 0;
  }

  lemma {:induction false} PadKeeps(s: string, n: nat, from: nat, width: nat)
    requires from >= 1 && IsPadded(s, n, from) && |s| == from < width
    ensures IsPadded(PadStart(s, width), n, width)
    decreases width - from
  {
    ValueLeadingZero(s);
    if from + 1 < width {
      PadKeeps("0" + s, n, from + 1, width);
    }
  }

  /** Padding gives the padded form. */
  lemma PadIsPadded(n: nat, width: nat)
    requires width >= 1
    ensures IsPadded(PadStart(Digits(n), width), n, width)
  {
    DigitsPadded(n);
    var s := Digits(n);
    if |s| < width {
      PadKeeps(s, n, |s|, width);
    }
  }
}
