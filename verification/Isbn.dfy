/**
 * Check digits of ISBN-13 and ISBN-10 (apps/web/src/lib/isbn.ts) and the one
 * number a book is stored under (apps/api/src/modules/catalog/catalog.policy.ts).
 */
module Isbn {
  import opened Decimals
  import Text

  /** toUpperCase(), for the letters of ASCII. */
  function Upper(c: char): char {
    if 'a' <= c <= 'z' then c - 32 as char else c
  }

  predicate Ignored(c: char) {
    c == '-' || Text.IsSpace(c)
  }

  /** A typed number without its dashes and spaces. */
  function Compact(s: string): string {
    if s == "" then ""
    else
      var last := s[|s| - 1];
      Compact(s[..|s| - 1]) + if Ignored(last) then "" else [Upper(last)]
  }

  predicate IsFigure(c: char) {
    IsDigit(c) || c == 'X'
  }

  predicate Figures(d: string) {
    forall i :: 0 <= i < |d| ==> IsFigure(d[i])
  }

  function FigureValue(c: char): nat
    requires IsFigure(c)
  {
    if c == 'X' then 10 else ToNat(c)
  }

  function WeightedSum(d: string, weight: nat -> int): int
    requires Figures(d)
  {
    if d == "" then 0
    else WeightedSum(d[..|d| - 1], weight) + FigureValue(d[|d| - 1]) * weight(|d| - 1)
  }

  function Weight13(i: nat): int {
    if i % 2 == 0 then 1 else 3
  }

  function Weight10(i: nat): int {
    10 - i
  }

  predicate IsValid13(d: string) {
    |d| == 13 && AllDigits(d) && WeightedSum(d, Weight13) % 10 == 0
  }

  predicate IsValid10(d: string) {
    |d| == 10 && AllDigits(d[..9]) && IsFigure(d[9]) && Figures(d) && WeightedSum(d, Weight10) % 11 == 0
  }

  predicate IsValid(s: string) {
    var d := Compact(s);
    if |d| == 13 && AllDigits(d) then WeightedSum(d, Weight13) % 10 == 0
    else IsValid10(d)
  }

  // ── Typed numbers ─────────────────────────────────────────────────────────

  lemma {:induction false} CompactConcat(a: string, b: string)
    ensures Compact(a + b) == Compact(a) + Compact(b)
  {
    if b == "" {
      assert a + b == a;
    } else {
      assert (a + b)[..|a + b| - 1] == a + b[..|b| - 1];
      CompactConcat(a, b[..|b| - 1]);
    }
  }

  /** Where a character of a typed number stands in the compact one. */
  function Place(s: string, i: nat): nat
    requires i < |s|
  {
    |Compact(s[..i])|
  }

  lemma Split(s: string, i: nat)
    requires i < |s|
    ensures s == s[..i] + [s[i]] + s[i + 1..]
  {
  }

  lemma CompactParts(a: string, c: char, b: string)
    ensures Compact(a + [c] + b) == Compact(a) + Compact([c]) + Compact(b)
  {
    hide Compact;
    CompactConcat(a + [c], b);
    CompactConcat(a, [c]);
  }

  lemma CompactOne(c: char)
    ensures Compact([c]) == if Ignored(c) then "" else [Upper(c)]
  {
    assert [c][..0] == "";
  }

  /** The compact number around one character. */
  lemma CompactAround(s: string, i: nat)
    requires i < |s|
    ensures Compact(s) == Compact(s[..i]) + Compact([s[i]]) + Compact(s[i + 1..])
    ensures Compact([s[i]]) == if Ignored(s[i]) then "" else [Upper(s[i])]
  {
    CompactOne(s[i]);
    hide Compact, Ignored, Upper;
    Split(s, i);
    CompactParts(s[..i], s[i], s[i + 1..]);
  }

  lemma CompactChanged(s: string, i: nat, c: char)
    requires i < |s|
    ensures var (d, d') := (Compact(s), Compact(s[i := c]));
            && (Ignored(s[i]) && Ignored(c) ==> d' == d)
            && (Ignored(s[i]) && !Ignored(c) ==> |d'| == |d| + 1)
            && (!Ignored(s[i]) && Ignored(c) ==> |d'| == |d| - 1)
            && (!Ignored(s[i]) ==> Place(s, i) < |d| && d[Place(s, i)] == Upper(s[i]))
            && (!Ignored(s[i]) && !Ignored(c) ==> d' == d[Place(s, i) := Upper(c)])
  {
    var s' := s[i := c];
    CompactAround(s, i);
    CompactAround(s', i);
    assert s'[..i] == s[..i] && s'[i + 1..] == s[i + 1..];
  }

  lemma PlacesIncrease(s: string, i: nat, j: nat)
    requires i < j < |s| && !Ignored(s[i])
    ensures Place(s, i) < Place(s, j)
  {
    assert s[..j] == s[..i] + [s[i]] + s[i + 1..j];
    CompactConcat(s[..i] + [s[i]], s[i + 1..j]);
    CompactConcat(s[..i], [s[i]]);
    CompactOne(s[i]);
  }

  // ── Weighted sums ─────────────────────────────────────────────────────────

  lemma {:induction false} SumChanged(d: string, p: nat, c: char, weight: nat -> int)
    requires p < |d| && Figures(d) && IsFigure(c)
    ensures Figures(d[p := c])
    ensures WeightedSum(d[p := c], weight) == WeightedSum(d, weight) + (FigureValue(c) - FigureValue(d[p])) * weight(p)
  {
    var n := |d| - 1;
    var d' := d[p := c];
    if p < n {
      SumChanged(d[..n], p, c, weight);
      assert d'[..n] == d[..n][p := c];
    } else {
      assert d'[..n] == d[..n];
    }
  }

  /** A change of at most nine, weighted by 1 or 3, shows modulo 10. */
  lemma ShowsModulo10(sum: int, change: int, weight: int)
    requires sum % 10 == 0 && -9 <= change <= 9 && (weight == 1 || weight == 3)
    ensures (sum + change * weight) % 10 == 0 <==> change == 0
  {
    assert change * weight == if weight == 1 then change else 3 * change;
  }

  /** A change of at most ten, weighted by 1 to 10, shows modulo 11. */
  lemma ShowsModulo11(sum: int, change: int, weight: int)
    requires sum % 11 == 0 && -10 <= change <= 10 && 1 <= weight <= 10
    ensures (sum + change * weight) % 11 == 0 <==> change == 0
  {
    if weight == 1 {
    } else if weight == 2 {
    } else if weight == 3 {
    } else if weight == 4 {
    } else if weight == 5 {
    } else if weight == 6 {
    } else if weight == 7 {
    } else if weight == 8 {
    } else if weight == 9 {
    } else {
    }
  }

  lemma FigureValueUnique(a: char, b: char)
    requires IsFigure(a) && IsFigure(b)
    ensures FigureValue(a) == FigureValue(b) <==> a == b
  {
  }

  // ── The standards, place by place ─────────────────────────────────────────

  /** The number at a place: a digit's, or ten for an X. */
  function At(d: string, i: nat): int
    requires i < |d|
  {
    if d[i] == 'X' then 10 else d[i] as int - '0' as int
  }

  lemma {:induction false} SumAt(d: string, n: nat, weight: nat -> int)
    requires n <= |d| && Figures(d)
    ensures n == 0 ==> WeightedSum(d[..n], weight) == 0
    ensures n > 0 ==> WeightedSum(d[..n], weight) == WeightedSum(d[..n - 1], weight) + At(d, n - 1) * weight(n - 1)
  {
    if n > 0 {
      assert d[..n][..n - 1] == d[..n - 1];
    }
  }

  /** Thirteen digits are valid exactly when those of even places and three times those of odd places add up to tens. */
  lemma Standard13(d: string)
    requires |d| == 13 && AllDigits(d)
    ensures IsValid13(d) <==>
              (At(d, 0) + At(d, 2) + At(d, 4) + At(d, 6) + At(d, 8) + At(d, 10) + At(d, 12)
               + 3 * (At(d, 1) + At(d, 3) + At(d, 5) + At(d, 7) + At(d, 9) + At(d, 11))) % 10 == 0
  {
    hide WeightedSum, At;
    SumAt(d, 0, Weight13);
    SumAt(d, 1, Weight13);
    SumAt(d, 2, Weight13);
    SumAt(d, 3, Weight13);
    SumAt(d, 4, Weight13);
    SumAt(d, 5, Weight13);
    SumAt(d, 6, Weight13);
    SumAt(d, 7, Weight13);
    SumAt(d, 8, Weight13);
    SumAt(d, 9, Weight13);
    SumAt(d, 10, Weight13);
    SumAt(d, 11, Weight13);
    SumAt(d, 12, Weight13);
    SumAt(d, 13, Weight13);
    assert d[..13] == d;
  }

  /** Ten characters, the last a digit or an X, are valid exactly when they add up to elevens, weighted by ten down to one. */
  lemma Standard10(d: string)
    requires |d| == 10 && AllDigits(d[..9]) && (IsDigit(d[9]) || d[9] == 'X')
    ensures IsValid10(d) <==>
              (10 * At(d, 0) + 9 * At(d, 1) + 8 * At(d, 2) + 7 * At(d, 3) + 6 * At(d, 4) + 5 * At(d, 5)
               + 4 * At(d, 6) + 3 * At(d, 7) + 2 * At(d, 8) + At(d, 9)) % 11 == 0
  {
    assert forall i :: 0 <= i < 9 ==> d[..9][i] == d[i];
    assert Figures(d);
    hide WeightedSum, At;
    FirstHalf10(d);
    SecondHalf10(d);
    assert d[..10] == d;
  }

  lemma FirstHalf10(d: string)
    requires |d| == 10 && Figures(d)
    ensures WeightedSum(d[..5], Weight10) ==
            10 * At(d, 0) + 9 * At(d, 1) + 8 * At(d, 2) + 7 * At(d, 3) + 6 * At(d, 4)
  {
    hide WeightedSum, At, Figures;
    SumAt(d, 0, Weight10);
    SumAt(d, 1, Weight10);
    SumAt(d, 2, Weight10);
    SumAt(d, 3, Weight10);
    SumAt(d, 4, Weight10);
    SumAt(d, 5, Weight10);
  }

  lemma SecondHalf10(d: string)
    requires |d| == 10 && Figures(d)
    ensures WeightedSum(d[..10], Weight10) == WeightedSum(d[..5], Weight10)
            + 5 * At(d, 5) + 4 * At(d, 6) + 3 * At(d, 7) + 2 * At(d, 8) + At(d, 9)
  {
    hide WeightedSum, At, Figures;
    SumAt(d, 6, Weight10);
    SumAt(d, 7, Weight10);
    SumAt(d, 8, Weight10);
    SumAt(d, 9, Weight10);
    SumAt(d, 10, Weight10);
  }

  /** Only numbers of one of the two shapes are valid. */
  lemma ValidHasShape(s: string)
    requires IsValid(s)
    ensures var d := Compact(s);
            || (|d| == 13 && AllDigits(d) && IsValid13(d))
            || (|d| == 10 && AllDigits(d[..9]) && (IsDigit(d[9]) || d[9] == 'X') && IsValid10(d))
  {
  }

  /** However a number is typed: dashes and spaces anywhere, and a small x for a large one; nothing else is dropped. */
  lemma TypedAnyWay(a: string, c: char, b: string)
    ensures c == '-' || Text.IsSpace(c) ==> Compact(a + [c] + b) == Compact(a + b)
    ensures Compact(a + ['x'] + b) == Compact(a + ['X'] + b)
    ensures IsDigit(c) || c == 'X' ==> Compact(a + [c] + b) == Compact(a) + [c] + Compact(b)
  {
    CompactOne(c);
    CompactOne('x');
    CompactOne('X');
    hide Compact;
    CompactConcat(a, b);
    CompactParts(a, c, b);
    CompactParts(a, 'x', b);
    CompactParts(a, 'X', b);
    assert Compact(a) + "" == Compact(a);
  }

  /** Only the compact number counts. */
  lemma CompactCounts(s: string, t: string)
    requires Compact(s) == Compact(t)
    ensures (IsValid(s) <==> IsValid(t)) && StoredIsbn(s) == StoredIsbn(t) && SearchForms(s) == SearchForms(t)
  {
  }

  // ── What the check digits catch ───────────────────────────────────────────

  lemma Changed13(d: string, p: nat, c: char)
    requires IsValid13(d) && p < 13
    ensures IsValid13(d[p := c]) <==> c == d[p]
  {
    if IsDigit(c) {
      SumChanged(d, p, c, Weight13);
      FigureValueUnique(c, d[p]);
      ShowsModulo10(WeightedSum(d, Weight13), FigureValue(c) - FigureValue(d[p]), Weight13(p));
    } else {
      assert d[p := c][p] == c;
    }
  }

  lemma Changed10(d: string, p: nat, c: char)
    requires IsValid10(d) && p < 10
    ensures IsValid10(d[p := c]) <==> c == d[p]
  {
    if IsFigure(c) {
      SumChanged(d, p, c, Weight10);
      FigureValueUnique(c, d[p]);
      ShowsModulo11(WeightedSum(d, Weight10), FigureValue(c) - FigureValue(d[p]), Weight10(p));
      if c == d[p] {
        assert d[p := c] == d;
      }
    } else {
      assert d[p := c][p] == c;
    }
  }

  /**
   * One character of a valid ISBN replaced by any other: it stays valid only if
   * the number without dashes and spaces is still the same.
   */
  lemma OneChangeIsCaught(s: string, i: nat, c: char)
    requires i < |s| && IsValid(s)
    ensures IsValid(s[i := c]) <==> Compact(s[i := c]) == Compact(s)
  {
    hide Compact, WeightedSum, Ignored, Upper;
    CompactChanged(s, i, c);
    var d := Compact(s);
    if !Ignored(s[i]) && !Ignored(c) {
      if |d| == 13 {
        Changed13(d, Place(s, i), Upper(c));
      } else {
        Changed10(d, Place(s, i), Upper(c));
      }
    }
  }

  function Swapped(s: string, i: nat, j: nat): string
    requires i < |s| && j < |s|
  {
    s[i := s[j]][j := s[i]]
  }

  lemma Spread(a: int, b: int, v: int, w: int)
    ensures (b - a) * v + (a - b) * w == (b - a) * (v - w)
  {
  }

  lemma SumSwapped(d: string, p: nat, q: nat, weight: nat -> int)
    requires p < q < |d| && Figures(d)
    ensures Figures(Swapped(d, p, q))
    ensures WeightedSum(Swapped(d, p, q), weight)
            == WeightedSum(d, weight) + (FigureValue(d[q]) - FigureValue(d[p])) * (weight(p) - weight(q))
  {
    hide WeightedSum, IsFigure, FigureValue;
    var once := d[p := d[q]];
    SumChanged(d, p, d[q], weight);
    assert once[q] == d[q];
    SumChanged(once, q, d[p], weight);
    Spread(FigureValue(d[p]), FigureValue(d[q]), weight(p), weight(q));
  }

  /** Twice a change, added or taken away, shows modulo 10 unless the change is a multiple of 5. */
  lemma FivesShowNot(sum: int, change: int)
    requires sum % 10 == 0
    ensures (sum + 2 * change) % 10 == 0 <==> change % 5 == 0
    ensures (sum - 2 * change) % 10 == 0 <==> change % 5 == 0
  {
    var (m, q, r) := (sum / 10, change / 5, change % 5);
    TensDrop(m + q, 2 * r);
    TensDrop(m - q, -2 * r);
  }

  lemma TensDrop(tens: int, units: int)
    ensures (10 * tens + units) % 10 == units % 10
  {
  }

  lemma TimesTwo(change: int, weight: int)
    requires weight == 2 || weight == -2 || weight == 0
    ensures change * weight == if weight == 2 then 2 * change else if weight == 0 then 0 else -2 * change
  {
  }

  lemma Swapped13(d: string, p: nat, q: nat)
    requires IsValid13(d) && p < q < 13
    ensures IsValid13(Swapped(d, p, q)) <==> (q - p) % 2 == 0 || (ToNat(d[p]) - ToNat(d[q])) % 5 == 0
  {
    hide WeightedSum;
    SumSwapped(d, p, q, Weight13);
    var change := FigureValue(d[q]) - FigureValue(d[p]);
    assert Weight13(p) - Weight13(q) == if (q - p) % 2 == 0 then 0 else if p % 2 == 0 then -2 else 2;
    hide Weight13, FigureValue;
    TimesTwo(change, Weight13(p) - Weight13(q));
    FivesShowNot(WeightedSum(d, Weight13), change);
  }

  lemma Swapped10(d: string, p: nat, q: nat)
    requires IsValid10(d) && p < q < 10
    ensures IsValid10(Swapped(d, p, q)) <==> d[p] == d[q]
  {
    SumSwapped(d, p, q, Weight10);
    FigureValueUnique(d[p], d[q]);
    ShowsModulo11(WeightedSum(d, Weight10), FigureValue(d[q]) - FigureValue(d[p]), q - p);
    if d[p] == d[q] {
      assert Swapped(d, p, q) == d;
    } else {
      var d' := Swapped(d, p, q);
      assert WeightedSum(d', Weight10) % 11 != 0;
    }
  }

  lemma CompactSwapped(s: string, i: nat, j: nat)
    requires i < j < |s| && !Ignored(s[i]) && !Ignored(s[j])
    ensures Place(s, i) < Place(s, j) < |Compact(s)|
    ensures Compact(s)[Place(s, i)] == Upper(s[i]) && Compact(s)[Place(s, j)] == Upper(s[j])
    ensures Compact(Swapped(s, i, j)) == Swapped(Compact(s), Place(s, i), Place(s, j))
  {
    hide Compact, Upper, Ignored;
    PlacesIncrease(s, i, j);
    CompactChanged(s, i, s[j]);
    CompactChanged(s, j, s[j]);
    var once := s[i := s[j]];
    CompactChanged(once, j, s[i]);
    PlaceKept(s, i, j, s[j]);
  }

  lemma PlaceKept(s: string, i: nat, j: nat, c: char)
    requires i < j < |s| && !Ignored(s[i]) && !Ignored(c)
    ensures Place(s[i := c], j) == Place(s, j)
  {
    assert s[i := c][..j] == s[..j][i := c];
    CompactChanged(s[..j], i, c);
  }

  /**
   * Two digits of a valid ISBN-13 in each other's place are missed exactly when
   * an odd number of digits lies between them, or they differ by 0 or 5: next
   * to each other, different digits are missed exactly when they differ by 5.
   */
  lemma Swap13IsCaughtUnless(s: string, i: nat, j: nat)
    requires IsValid(s) && |Compact(s)| == 13
    requires i < j < |s| && !Ignored(s[i]) && !Ignored(s[j])
    ensures IsDigit(s[i]) && IsDigit(s[j])
    ensures IsValid(Swapped(s, i, j)) <==>
              (Place(s, j) - Place(s, i)) % 2 == 0 || (ToNat(s[i]) - ToNat(s[j])) % 5 == 0
  {
    hide Compact, WeightedSum, Ignored;
    CompactSwapped(s, i, j);
    Swapped13(Compact(s), Place(s, i), Place(s, j));
  }

  /** Two different characters of a valid ISBN-10 in each other's place are always caught. */
  lemma Swap10IsCaught(s: string, i: nat, j: nat)
    requires IsValid(s) && |Compact(s)| == 10
    requires i < j < |s| && !Ignored(s[i]) && !Ignored(s[j])
    ensures IsValid(Swapped(s, i, j)) <==> Upper(s[i]) == Upper(s[j])
  {
    hide Compact, WeightedSum, Ignored, Upper;
    CompactSwapped(s, i, j);
    Swapped10(Compact(s), Place(s, i), Place(s, j));
  }

  // ── The number a book is stored under ─────────────────────────────────────

  function CheckDigit13(core: string): char
    requires |core| == 12 && AllDigits(core)
  {
    DigitOf((10 - WeightedSum(core, Weight13) % 10) % 10)
  }

  function Isbn13Of(isbn10: string): string
    requires |isbn10| == 10 && AllDigits(isbn10[..9])
  {
    var core := "978" + isbn10[..9];
    core + [CheckDigit13(core)]
  }

  datatype Stored = Blank | Isbn(digits: string) | Invalid

  function StoredIsbn(raw: string): Stored {
    var d := Compact(raw);
    if d == "" then Blank
    else if IsValid13(d) then Isbn(d)
    else if IsValid10(d) then Isbn(Isbn13Of(d))
    else Invalid
  }

  /** The numbers a typed or scanned one should find. */
  function SearchForms(raw: string): seq<string> {
    var d := Compact(raw);
    if IsValid10(d) then [d, Isbn13Of(d)] else [d]
  }

  /** Twelve digits leave one check digit. */
  lemma OneCheckDigit13(core: string, c: char)
    requires |core| == 12 && AllDigits(core)
    ensures IsValid13(core + [c]) <==> c == CheckDigit13(core)
  {
    var d := core + [c];
    assert d[..12] == core && d[12] == c;
    if IsDigit(c) {
      FigureValueUnique(c, CheckDigit13(core));
    }
  }

  /** Nine digits leave one check character. */
  lemma OneCheckCharacter10(a: string, b: string)
    requires IsValid10(a) && IsValid10(b) && a[..9] == b[..9]
    ensures a == b
  {
    FigureValueUnique(a[9], b[9]);
    assert a == a[..9] + [a[9]] && b == b[..9] + [b[9]];
  }

  lemma Isbn13OfIsValid(d: string)
    requires IsValid10(d)
    ensures IsValid13(Isbn13Of(d)) && Isbn13Of(d)[..12] == "978" + d[..9]
  {
    var core := "978" + d[..9];
    OneCheckDigit13(core, CheckDigit13(core));
  }

  lemma {:induction false} DigitsCompact(d: string)
    requires AllDigits(d)
    ensures Compact(d) == d
  {
    if d != "" {
      DigitsCompact(d[..|d| - 1]);
    }
  }

  /** The form in the browser and the catalog accept the same numbers; what is stored is a valid ISBN-13. */
  lemma StoredIsValid(raw: string)
    ensures StoredIsbn(raw).Isbn? <==> IsValid(raw)
    ensures StoredIsbn(raw).Isbn? ==> IsValid13(StoredIsbn(raw).digits) && StoredIsbn(raw).digits in SearchForms(raw)
    ensures StoredIsbn(raw).Isbn? ==> StoredIsbn(StoredIsbn(raw).digits) == StoredIsbn(raw)
    ensures StoredIsbn(raw).Isbn? ==>
              var d := Compact(raw);
              if |d| == 13 then StoredIsbn(raw).digits == d else StoredIsbn(raw).digits[..12] == "978" + d[..9]
    ensures StoredIsbn(raw).Blank? <==> Compact(raw) == ""
    ensures SearchForms(raw) == [Compact(raw)] + if |Compact(raw)| == 10 && IsValid(raw) then [StoredIsbn(raw).digits] else []
  {
    hide WeightedSum, Compact;
    var d := Compact(raw);
    if IsValid13(d) {
      DigitsCompact(d);
    } else if IsValid10(d) {
      Isbn13OfIsValid(d);
      DigitsCompact(Isbn13Of(d));
      assert SearchForms(raw)[1] == Isbn13Of(d);
    }
  }

  /** The twelve digits that say which book a valid number means. */
  function Title(d: string): string
    requires IsValid13(d) || IsValid10(d)
  {
    if |d| == 13 then d[..12] else "978" + d[..9]
  }

  /**
   * Two valid numbers are stored as one exactly when they mean the same book: a
   * book cannot be entered twice, under its ISBN-10 and its ISBN-13 or under
   * one of them twice; nor can two books get the same number.
   */
  lemma StoredOncePerBook(a: string, b: string)
    requires IsValid(a) && IsValid(b)
    ensures StoredIsbn(a) == StoredIsbn(b) <==> Title(Compact(a)) == Title(Compact(b))
    ensures |Compact(a)| == |Compact(b)| ==> (StoredIsbn(a) == StoredIsbn(b) <==> Compact(a) == Compact(b))
  {
    hide WeightedSum, Compact, CheckDigit13;
    var d, e := Compact(a), Compact(b);
    StoredTitle(a);
    StoredTitle(b);
    var x, y := StoredIsbn(a).digits, StoredIsbn(b).digits;
    if Title(d) == Title(e) {
      SameTitle(x, y);
    }
    if |d| == |e| == 10 && Title(d) == Title(e) {
      assert d[..9] == Title(d)[3..] == Title(e)[3..] == e[..9];
      OneCheckCharacter10(d, e);
    }
  }

  lemma StoredTitle(raw: string)
    requires IsValid(raw)
    ensures StoredIsbn(raw).Isbn? && IsValid13(StoredIsbn(raw).digits)
    ensures Title(StoredIsbn(raw).digits) == Title(Compact(raw))
  {
    hide WeightedSum, Compact, CheckDigit13;
    var d := Compact(raw);
    if IsValid10(d) {
      Isbn13OfIsValid(d);
    }
  }

  lemma SameTitle(x: string, y: string)
    requires IsValid13(x) && IsValid13(y) && x[..12] == y[..12]
    ensures x == y
  {
    OneCheckDigit13(x[..12], x[12]);
    OneCheckDigit13(y[..12], y[12]);
    assert x == x[..12] + [x[12]] && y == y[..12] + [y[12]];
  }
}
