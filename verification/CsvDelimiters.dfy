/**
 * A file read by a reader that is not told its delimiter: what the text looks
 * like under the other delimiter, which of the two is detected, and exactly
 * when the file is read as it was written.
 */
module CsvDelimiters {
  import opened Text
  import opened CsvSyntax
  import opened Rfc4180

  // ── Tokens under the other delimiter ──────────────────────────────────────

  /** The token that `t`, read with the delimiter `d`, is when read with `e`. */
  function Swap(t: Token, d: char, e: char): Token {
    match t
    case Sep => Bare(d)
    case Bare(c) => if c == e then Sep else t
    case _ => t
  }

  function SwapAll(ts: seq<Token>, d: char, e: char): (r: seq<Token>)
    ensures |r| == |ts|
  {
    if ts == [] then [] else [Swap(ts[0], d, e)] + SwapAll(ts[1..], d, e)
  }

  lemma {:induction false} LexSwapped(text: string, d: char, e: char, quoted: bool)
    requires IsDelimiter(d) && IsDelimiter(e) && d != e
    ensures Lex(text, e, quoted) == SwapAll(Lex(text, d, quoted), d, e)
  {
    if text != "" {
      var ts := Lex(text, d, quoted);
      var n := |Raw(ts[0], d)|;
      LexSwapped(text[n..], d, e, match ts[0] case Quote => !quoted case _ => quoted);
    }
  }

  // ── Rows under the other delimiter ────────────────────────────────────────

  /** `b` goes on, with the character `c`, where `a` ends. */
  ghost predicate GoesOn(a: string, b: string, c: char) {
    |a| < |b| && b[..|a|] == a && b[|a|] == c
  }

  /**
   * The cells of one row under the delimiters `d` and `e`: one cell, the same,
   * or the first cell under one of them goes on, with that delimiter, under the other.
   */
  ghost predicate Parted(cells: seq<string>, others: seq<string>, d: char, e: char) {
    && cells != [] && others != []
    && (|cells| == |others| == 1 ==> cells == others)
    && (|cells| > 1 || |others| > 1 ==>
          || (|cells| > 1 && GoesOn(cells[0], others[0], d))
          || (|others| > 1 && GoesOn(others[0], cells[0], e)))
  }

  ghost predicate AllParted(rows: seq<CsvLine>, others: seq<CsvLine>, d: char, e: char) {
    && |rows| == |others|
    && forall k :: 0 <= k < |rows| ==> rows[k].line == others[k].line && Parted(rows[k].cells, others[k].cells, d, e)
  }

  lemma GoesOnAfter(x: string, a: string, b: string, c: char)
    requires GoesOn(a, b, c)
    ensures GoesOn(x + a, x + b, c)
  {
    assert (x + b)[..|x + a|] == x + b[..|a|];
  }

  lemma PartedPrepend(t: Token, cells: seq<string>, others: seq<string>, d: char, e: char)
    requires Parted(cells, others, d, e)
    ensures Parted(Prepend(t, cells), Prepend(Swap(t, d, e), others), d, e)
  {
    if t.Sep? || t == Bare(e) {
      assert forall c: char, s: string :: ([c] + s)[..0] == "";
    } else {
      if GoesOn(cells[0], others[0], d) {
        GoesOnAfter(Content(t), cells[0], others[0], d);
      }
      if GoesOn(others[0], cells[0], e) {
        GoesOnAfter(Content(t), others[0], cells[0], e);
      }
    }
  }

  lemma AllPartedFirst(a: CsvLine, b: CsvLine, rows: seq<CsvLine>, others: seq<CsvLine>, d: char, e: char)
    requires AllParted(rows, others, d, e) && a.line == b.line && Parted(a.cells, b.cells, d, e)
    ensures AllParted([a] + rows, [b] + others, d, e)
    ensures rows != [] ==> AllParted([a] + rows[1..], [b] + others[1..], d, e)
  {
  }

  /** The rows of a text under both delimiters start on the same lines, and each is parted. */
  lemma {:induction false} RowsParted(ts: seq<Token>, line: nat, d: char, e: char)
    ensures AllParted(Rows(ts, line), Rows(SwapAll(ts, d, e), line), d, e)
  {
    hide GoesOn;
    var blank := CsvLine(line, [""]);
    if ts == [] {
      AllPartedFirst(blank, blank, [], [], d, e);
    } else {
      var line' := if EndsALine(ts[0]) then line + 1 else line;
      RowsParted(ts[1..], line', d, e);
      var rest, others := Rows(ts[1..], line'), Rows(SwapAll(ts[1..], d, e), line');
      if ts[0].LineEnd? {
        AllPartedFirst(blank, blank, rest, others, d, e);
      } else {
        PartedPrepend(ts[0], rest[0].cells, others[0].cells, d, e);
        AllPartedFirst(CsvLine(line, Prepend(ts[0], rest[0].cells)),
                       CsvLine(line, Prepend(Swap(ts[0], d, e), others[0].cells)), rest, others, d, e);
      }
    }
  }

  // ── How wide they are ─────────────────────────────────────────────────────

  function Wider(widths: seq<nat>, n: nat): seq<nat>
    requires widths != []
  {
    [widths[0] + n] + widths[1..]
  }

  /** The cells of each row when the bare characters `e` part them. */
  function Widths(ts: seq<Token>, e: char): (widths: seq<nat>)
    ensures widths != []
  {
    if ts == [] then [1]
    else if ts[0].LineEnd? then [1] + Widths(ts[1..], e)
    else Wider(Widths(ts[1..], e), if ts[0] == Bare(e) then 1 else 0)
  }

  ghost predicate HaveWidths(rows: seq<CsvLine>, widths: seq<nat>) {
    |rows| == |widths| && forall k :: 0 <= k < |rows| ==> |rows[k].cells| == widths[k]
  }

  lemma WidthsPrepend(row: CsvLine, n: nat, rows: seq<CsvLine>, widths: seq<nat>)
    requires HaveWidths(rows, widths) && rows != []
    requires |row.cells| == |rows[0].cells| + n
    ensures HaveWidths([row] + rows[1..], Wider(widths, n))
  {
  }

  lemma WidthsOfBlank(line: nat, rows: seq<CsvLine>, widths: seq<nat>)
    requires HaveWidths(rows, widths)
    ensures HaveWidths([CsvLine(line, [""])] + rows, [1] + widths)
  {
  }

  lemma {:induction false} SwappedWidths(ts: seq<Token>, line: nat, d: char, e: char)
    requires d != e
    ensures HaveWidths(Rows(SwapAll(ts, d, e), line), Widths(ts, e))
  {
    if ts != [] {
      hide HaveWidths, Rows, Prepend, Wider;
      var line' := if EndsALine(ts[0]) then line + 1 else line;
      SwappedWidths(ts[1..], line', d, e);
      RowsFirst(SwapAll(ts, d, e), line);
      var t, rest := Swap(ts[0], d, e), Rows(SwapAll(ts[1..], d, e), line');
      if ts[0].LineEnd? {
        WidthsOfBlank(line, rest, Widths(ts[1..], e));
      } else {
        PrependWidth(t, rest[0].cells);
        WidthsPrepend(CsvLine(line, Prepend(t, rest[0].cells)), if t.Sep? then 1 else 0, rest, Widths(ts[1..], e));
      }
    }
  }

  lemma PrependWidth(t: Token, cells: seq<string>)
    requires cells != []
    ensures |Prepend(t, cells)| == |cells| + (if t.Sep? then 1 else 0)
  {
  }

  /** The characters `e` of a field that stand outside quotes. */
  function BareInField(f: Field, e: char): nat {
    match f
    case Plain(s) => Count(s, e)
    case Enclosed(_) => 0
  }

  /** The characters `e` of a record that stand outside quotes. */
  function BareIn(fs: seq<Field>, e: char): nat {
    if fs == [] then 0 else BareInField(fs[0], e) + BareIn(fs[1..], e)
  }

  lemma WidthsFirst(t: Token, ts: seq<Token>, e: char)
    requires !t.LineEnd?
    ensures Widths([t] + ts, e) == Wider(Widths(ts, e), if t == Bare(e) then 1 else 0)
  {
    assert ([t] + ts)[1..] == ts;
  }

  lemma {:induction false} BareWidths(s: string, ts: seq<Token>, e: char)
    ensures Widths(BareTokens(s) + ts, e) == Wider(Widths(ts, e), Count(s, e))
  {
    if s == "" {
      assert BareTokens(s) + ts == ts;
    } else {
      BareWidths(s[1..], ts, e);
      WidthsFirst(Bare(s[0]), BareTokens(s[1..]) + ts, e);
      Assoc([Bare(s[0])], BareTokens(s[1..]), ts);
    }
  }

  lemma {:induction false} QuotedWidths(s: string, ts: seq<Token>, e: char)
    ensures Widths(QuotedTokens(s) + ts, e) == Widths(ts, e)
  {
    if s == "" {
      assert QuotedTokens(s) + ts == ts;
    } else {
      var t := if s[0] == '"' then Doubled else Quoted(s[0]);
      QuotedWidths(s[1..], ts, e);
      WidthsFirst(t, QuotedTokens(s[1..]) + ts, e);
      Assoc([t], QuotedTokens(s[1..]), ts);
    }
  }

  lemma FieldWidths(f: Field, ts: seq<Token>, e: char)
    ensures Widths(FieldTokens(f) + ts, e) == Wider(Widths(ts, e), BareInField(f, e))
  {
    match f
    case Plain(s) => BareWidths(s, ts, e);
    case Enclosed(s) =>
      WidthsFirst(Quote, ts, e);
      QuotedWidths(s, [Quote] + ts, e);
      WidthsFirst(Quote, QuotedTokens(s) + ([Quote] + ts), e);
      Assoc([Quote], QuotedTokens(s), [Quote] + ts);
      Assoc([Quote] + QuotedTokens(s), [Quote], ts);
  }

  lemma {:induction false} RecordWidths(fs: seq<Field>, ts: seq<Token>, e: char)
    requires fs != []
    ensures Widths(RecordTokens(fs) + ts, e) == Wider(Widths(ts, e), BareIn(fs, e))
  {
    if |fs| == 1 {
      FieldWidths(fs[0], ts, e);
      assert BareIn(fs[1..], e) == 0;
    } else {
      var more := RecordTokens(fs[1..]) + ts;
      Assoc(FieldTokens(fs[0]) + [Sep], RecordTokens(fs[1..]), ts);
      Assoc(FieldTokens(fs[0]), [Sep], more);
      FieldWidths(fs[0], [Sep] + more, e);
      WidthsFirst(Sep, more, e);
      RecordWidths(fs[1..], ts, e);
    }
  }

  ghost predicate WidthsOf(rs: seq<seq<Field>>, widths: seq<nat>, e: char) {
    |widths| == |rs| && forall k :: 0 <= k < |rs| ==> widths[k] == 1 + BareIn(rs[k], e)
  }

  lemma {:induction false} FileWidths(rs: seq<seq<Field>>, eol: string, e: char)
    requires rs != [] && forall i :: 0 <= i < |rs| ==> rs[i] != []
    ensures WidthsOf(rs, Widths(FileTokens(rs, eol), e), e)
  {
    if |rs| == 1 {
      RecordWidths(rs[0], [], e);
      assert RecordTokens(rs[0]) + [] == RecordTokens(rs[0]);
    } else {
      var more := FileTokens(rs[1..], eol);
      FileWidths(rs[1..], eol, e);
      RecordWidths(rs[0], [LineEnd(eol)] + more, e);
      Assoc(RecordTokens(rs[0]), [LineEnd(eol)], more);
      assert ([LineEnd(eol)] + more)[1..] == more;
    }
  }

  // ── Rows under the wrong delimiter hold something else ────────────────────

  ghost predicate Narrow(rows: seq<CsvLine>, others: seq<CsvLine>) {
    && |rows| == |others|
    && forall k :: 0 <= k < |rows| ==> |rows[k].cells| == |others[k].cells| == 1
  }

  lemma NarrowFirst(rows: seq<CsvLine>, others: seq<CsvLine>)
    requires rows != [] && others != []
    requires |rows[0].cells| == |others[0].cells| == 1 && Narrow(rows[1..], others[1..])
    ensures Narrow(rows, others)
  {
    assert forall k :: 0 < k < |rows| ==> rows[k] == rows[1..][k - 1];
    assert forall k :: 0 < k < |others| ==> others[k] == others[1..][k - 1];
  }

  lemma AllPartedTail(rows: seq<CsvLine>, others: seq<CsvLine>, d: char, e: char)
    requires AllParted(rows, others, d, e) && Increasing(rows) && rows != []
    ensures AllParted(rows[1..], others[1..], d, e) && Increasing(rows[1..])
    ensures AllParted(others, rows, e, d) && Increasing(others)
  {
  }

  lemma GoesOnIs(a: string, b: string, c: char) returns (rest: string)
    requires GoesOn(a, b, c)
    ensures b == a + [c] + rest
  {
    rest := b[|a| + 1..];
  }

  lemma GoesOnHasText(a: string, b: string, c: char)
    requires !IsSpace(c)
    ensures GoesOn(a, b, c) ==> Trim(b) != ""
  {
    TrimEmpty(b);
  }

  /** Cells that read the same trimmed, or are blank under both delimiters, are one cell under both. */
  lemma SameIsNarrow(cells: seq<string>, others: seq<string>, d: char, e: char)
    requires Parted(cells, others, d, e) && !IsSpace(d) && !IsSpace(e)
    requires TrimAll(cells) == TrimAll(others) || (!HasText(cells) && !HasText(others))
    ensures |cells| == |others| == 1
  {
    hide Trim;
    assert Trim(cells[0]) == TrimAll(cells)[0] && Trim(others[0]) == TrimAll(others)[0];
    if GoesOn(cells[0], others[0], d) {
      var rest := GoesOnIs(cells[0], others[0], d);
      TrimLonger(cells[0], d, rest);
    }
    if GoesOn(others[0], cells[0], e) {
      var rest := GoesOnIs(others[0], cells[0], e);
      TrimLonger(others[0], e, rest);
    }
  }

  /** Cells with text under the delimiter `d` only start with the other one. */
  lemma TextUnderOne(cells: seq<string>, others: seq<string>, d: char, e: char)
    requires Parted(cells, others, d, e) && !IsSpace(d) && !IsSpace(e)
    requires HasText(cells) && !HasText(others)
    ensures Trim(cells[0]) != "" && Trim(cells[0])[0] == e
  {
    hide Trim;
    TrimEmpty(others[0]);
    GoesOnHasText(cells[0], others[0], d);
    var rest := GoesOnIs(others[0], cells[0], e);
    TrimStartsAt(others[0], e, rest);
  }

  lemma {:induction false} KeptHolds(rows: seq<CsvLine>, row: CsvLine)
    requires row in rows && HasText(row.cells)
    ensures row in Kept(rows)
  {
    if row != rows[0] {
      KeptHolds(rows[1..], row);
    }
  }

  /** The first row, kept or blank, and the rows kept after it. */
  lemma KeptParts(rows: seq<CsvLine>)
    requires rows != [] && Increasing(rows)
    ensures if HasText(rows[0].cells) then Kept(rows) != [] && Kept(rows)[0] == rows[0] && Kept(rows)[1..] == Kept(rows[1..])
            else Kept(rows) == Kept(rows[1..])
    ensures forall r :: r in Kept(rows[1..]) ==> rows[0].line < r.line
  {
    KeptAreRows(rows[1..]);
  }

  /** The same rows kept under both delimiters: no row is cut by either. */
  lemma {:induction false} KeptAlike(rows: seq<CsvLine>, others: seq<CsvLine>, d: char, e: char)
    requires AllParted(rows, others, d, e) && Increasing(rows) && !IsSpace(d) && !IsSpace(e)
    requires Kept(rows) == Kept(others)
    ensures Narrow(rows, others)
  {
    if rows != [] {
      AllPartedTail(rows, others, d, e);
      KeptParts(rows);
      KeptParts(others);
      hide Kept, HasText, Parted;
      assert HasText(rows[0].cells) <==> HasText(others[0].cells);
      SameIsNarrow(rows[0].cells, others[0].cells, d, e);
      KeptAlike(rows[1..], others[1..], d, e);
      NarrowFirst(rows, others);
    }
  }

  ghost predicate SameData(a: CsvFile, b: CsvFile) {
    a.header == b.header && a.rows == b.rows
  }

  /** The row kept first, and where it stands. */
  lemma FirstKept(rows: seq<CsvLine>) returns (k: nat)
    requires Kept(rows) != []
    ensures k < |rows| && Kept(rows)[0] == rows[k] && HasText(rows[k].cells)
  {
    KeptAreRows(rows);
    assert Kept(rows)[0] in Kept(rows);
    k :| k < |rows| && rows[k] == Kept(rows)[0];
  }

  /** Another row may be the first kept under `e`; it is blank under `d` if what follows it is the same. */
  lemma BlankUnderTheOther(rows: seq<CsvLine>, others: seq<CsvLine>, k: nat, d: char, e: char)
    requires AllParted(rows, others, d, e) && Increasing(rows)
    requires Kept(others) != [] && k < |rows| && Kept(others)[0] == others[k]
    requires 0 < k && Kept(rows[1..]) == Kept(others)[1..]
    ensures !HasText(rows[k].cells)
  {
    KeptIncrease(others);
    assert rows[k] == rows[1..][k - 1];
    if HasText(rows[k].cells) {
      KeptHolds(rows[1..], rows[k]);
    }
  }

  /** A header line kept under one delimiter only. */
  lemma HeaderElsewhere(rows: seq<CsvLine>, others: seq<CsvLine>, d: char, e: char)
    requires AllParted(rows, others, d, e) && Increasing(rows) && rows != []
    requires !IsSpace(d) && !IsSpace(e) && d != e
    requires HasText(rows[0].cells) && !HasText(others[0].cells)
    ensures !SameData(FileOf(d, Kept(rows)), FileOf(e, Kept(others)))
  {
    hide Trim, HasText, GoesOn, IsSpace;
    var kept := Kept(others);
    KeptParts(rows);
    if kept != [] {
      var k := FirstKept(others);
      TextUnderOne(rows[0].cells, others[0].cells, d, e);
      if Kept(rows[1..]) == kept[1..] {
        BlankUnderTheOther(rows, others, k, d, e);
        TextUnderOne(others[k].cells, rows[k].cells, e, d);
        assert TrimAll(rows[0].cells)[0] != TrimAll(others[k].cells)[0];
      }
    }
  }

  /** The same headers and rows under both delimiters: no row is cut by either. */
  lemma {:induction false} SameDataIsNarrow(rows: seq<CsvLine>, others: seq<CsvLine>, d: char, e: char)
    requires AllParted(rows, others, d, e) && Increasing(rows) && !IsSpace(d) && !IsSpace(e) && d != e
    requires SameData(FileOf(d, Kept(rows)), FileOf(e, Kept(others)))
    ensures Narrow(rows, others)
  {
    hide Trim, HasText, GoesOn, IsSpace, Kept, Parted;
    if rows != [] {
      AllPartedTail(rows, others, d, e);
      KeptParts(rows);
      KeptParts(others);
      if HasText(rows[0].cells) && !HasText(others[0].cells) {
        HeaderElsewhere(rows, others, d, e);
      } else if !HasText(rows[0].cells) && HasText(others[0].cells) {
        HeaderElsewhere(others, rows, e, d);
      } else {
        SameIsNarrow(rows[0].cells, others[0].cells, d, e);
        if HasText(rows[0].cells) {
          KeptAlike(rows[1..], others[1..], d, e);
        } else {
          SameDataIsNarrow(rows[1..], others[1..], d, e);
        }
        NarrowFirst(rows, others);
      }
    }
  }

  // ── What the reader gives back ────────────────────────────────────────────

  predicate DelimiterPair(d: char, e: char) {
    (d == ',' && e == ';') || (d == ';' && e == ',')
  }

  /** The delimiter `d` parts a header line into more cells than `e` would; the comma wins a tie. */
  predicate Outnumbers(header: seq<Field>, d: char, e: char) {
    if d == ',' then BareIn(header, e) < |header| else 1 + BareIn(header, e) < |header|
  }

  /** One field a record, and no `e` outside quotes. */
  ghost predicate Undivided(rs: seq<seq<Field>>, e: char) {
    forall k :: 0 <= k < |rs| ==> |rs[k]| == 1 && BareIn(rs[k], e) == 0
  }

  /** The rows of a written file under the other delimiter. */
  lemma RowsUnderTheOther(rs: seq<seq<Field>>, d: char, e: char, eol: string) returns (others: seq<CsvLine>)
    requires DelimiterPair(d, e) && WellFormedFile(rs, d) && IsLineEnd(eol)
    ensures others == Rows(Lex(FileText(rs, d, eol), e, false), 1)
    ensures AllParted(Placed(rs, 1), others, d, e) && Increasing(Placed(rs, 1))
    ensures forall k :: 0 <= k < |rs| ==> |others[k].cells| == 1 + BareIn(rs[k], e)
  {
    hide Lex, Rows, Placed, Parted, Widths;
    var ts := FileTokens(rs, eol);
    LexFile(rs, d, eol);
    LexSwapped(FileText(rs, d, eol), d, e, false);
    others := Rows(SwapAll(ts, d, e), 1);
    FileRows(rs, eol, 1);
    RowsParted(ts, 1, d, e);
    RowsIncrease(ts, 1);
    SwappedWidths(ts, 1, d, e);
    FileWidths(rs, eol, e);
  }

  /** Which delimiter is detected in a written file. */
  lemma WrittenDelimiter(rs: seq<seq<Field>>, d: char, e: char, eol: string)
    requires DelimiterPair(d, e) && WellFormedFile(rs, d) && IsLineEnd(eol)
    ensures var text := FileText(rs, d, eol);
            && |FirstCells(text, d)| == |rs[0]| && |FirstCells(text, e)| == 1 + BareIn(rs[0], e)
            && (Detected(text) == d <==> Outnumbers(rs[0], d, e))
  {
    hide Lex, Rows, Placed, FileText, AllParted;
    ReadsWhatIsWritten(rs, d, eol);
    var others := RowsUnderTheOther(rs, d, e, eol);
  }

  lemma UndividedIsNarrow(rs: seq<seq<Field>>, others: seq<CsvLine>, d: char, e: char)
    requires AllParted(Placed(rs, 1), others, d, e)
    requires forall k :: 0 <= k < |rs| ==> |others[k].cells| == 1 + BareIn(rs[k], e)
    ensures Undivided(rs, e) <==> Narrow(Placed(rs, 1), others)
    ensures Narrow(Placed(rs, 1), others) ==> Placed(rs, 1) == others
  {
    hide Placed, GoesOn;
    var rows := Placed(rs, 1);
    assert forall k :: 0 <= k < |rs| ==> |rows[k].cells| == |rs[k]|;
    if Narrow(rows, others) {
      forall k | 0 <= k < |rows|
        ensures rows[k] == others[k]
      {
      }
    }
  }

  /**
   * The whole reader on a file of section 2 of RFC 4180, written with a comma or
   * a semicolon, any choice of quoting and any one line end, with or without a
   * byte-order mark. Its records that are not blank come back, each on the line
   * where it starts, under the delimiter they were written with, if and only if
   * that delimiter outnumbers the other one outside the quotes of the first
   * record. Where it does not, even the header and the rows differ, unless no
   * record is divided by either.
   */
  lemma FileIsRead(input: string, rs: seq<seq<Field>>, d: char, e: char, eol: string)
    requires DelimiterPair(d, e) && WellFormedFile(rs, d) && IsLineEnd(eol)
    requires WithoutBom(input) == FileText(rs, d, eol)
    ensures var written := FileOf(d, Kept(Placed(rs, 1)));
            && (Meaning(input) == written <==> Outnumbers(rs[0], d, e))
            && (SameData(Meaning(input), written) <==> Outnumbers(rs[0], d, e) || Undivided(rs, e))
  {
    hide Lex, Rows, Kept, Placed, FileText, AllParted, Narrow, Undivided, Outnumbers;
    ReadsWhatIsWritten(rs, d, eol);
    WrittenDelimiter(rs, d, e, eol);
    if !Outnumbers(rs[0], d, e) {
      var others := RowsUnderTheOther(rs, d, e, eol);
      UndividedIsNarrow(rs, others, d, e);
      if SameData(Meaning(input), FileOf(d, Kept(Placed(rs, 1)))) {
        SameDataIsNarrow(Placed(rs, 1), others, d, e);
      }
    }
  }

  /** Two fields parted by a semicolon, and a comma in the first: read as parted by the comma. */
  lemma AnUnquotedComma()
    ensures var rs := [[Plain("a,b"), Plain("c")]];
            && WellFormedFile(rs, ';') && FileText(rs, ';', "\n") == "a,b;c"
            && Meaning("a,b;c") != FileOf(';', Kept(Placed(rs, 1)))
  {
    var fs := [Plain("a,b"), Plain("c")];
    assert "a,b"[1..] == ",b" && ",b"[1..] == "b" && Count("b", ',') == 0;
    assert fs[1..] == [Plain("c")] && RecordText([Plain("c")], ';') == "c";
    assert RecordText(fs, ';') == "a,b" + ";" + "c";
    assert Count("a,b", ',') == 1;
    FileIsRead("a,b;c", [fs], ';', ',', "\n");
  }
}
