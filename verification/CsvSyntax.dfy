/**
 * The file format the CSV reader accepts: section 2 of RFC 4180 with a chosen
 * delimiter, with LF, CR or CRLF line ends, and with quotes allowed anywhere in
 * a cell. A text is cut into tokens without losing a character; the tokens are
 * grouped into rows of cells.
 */
module CsvSyntax {
  import opened Text

  datatype Token =
    | Bare(c: char)
    | Quoted(c: char)
    | Doubled
    | Quote
    | Sep
    | LineEnd(raw: string)

  predicate IsDelimiter(d: char) {
    d != '"' && d != '\r' && d != '\n'
  }

  function LineEndAt(text: string): (raw: string)
    requires text != "" && (text[0] == '\r' || text[0] == '\n')
    ensures raw != "" && raw <= text && (raw == "\r\n" || raw == "\r" || raw == "\n")
  {
    if text[0] == '\r' && |text| > 1 && text[1] == '\n' then
      assert text[..2] == "\r\n"; "\r\n"
    else
      [text[0]]
  }

  function Lex(text: string, d: char, quoted: bool): seq<Token> {
    if text == "" then []
    else if quoted then
      if text[0] == '"' && |text| > 1 && text[1] == '"' then [Doubled] + Lex(text[2..], d, true)
      else if text[0] == '"' then [Quote] + Lex(text[1..], d, false)
      else [Quoted(text[0])] + Lex(text[1..], d, true)
    else if text[0] == '"' then [Quote] + Lex(text[1..], d, true)
    else if text[0] == d then [Sep] + Lex(text[1..], d, false)
    else if text[0] == '\r' || text[0] == '\n' then
      var raw := LineEndAt(text);
      [LineEnd(raw)] + Lex(text[|raw|..], d, false)
    else [Bare(text[0])] + Lex(text[1..], d, false)
  }

  /** The characters a token was read from. */
  function Raw(t: Token, d: char): string {
    match t
    case Bare(c) => [c]
    case Quoted(c) => [c]
    case Doubled => "\"\""
    case Quote => "\""
    case Sep => [d]
    case LineEnd(raw) => raw
  }

  function RawText(ts: seq<Token>, d: char): string {
    if ts == [] then "" else Raw(ts[0], d) + RawText(ts[1..], d)
  }

  /** The text after the first token, and whether it is in quotes. */
  lemma LexFirst(text: string, d: char, quoted: bool) returns (n: nat, quoted': bool)
    requires text != ""
    ensures var ts := Lex(text, d, quoted);
            && 0 < n <= |text| && ts != [] && Raw(ts[0], d) == text[..n]
            && quoted' == (if ts[0].Quote? then !quoted else quoted)
            && ts[1..] == Lex(text[n..], d, quoted')
            && ts == [ts[0]] + Lex(text[n..], d, quoted')
  {
    var ts := Lex(text, d, quoted);
    n, quoted' := |Raw(ts[0], d)|, if ts[0].Quote? then !quoted else quoted;
    assert Raw(ts[0], d) == text[..n];
  }

  /** Cutting into tokens loses nothing: their characters in order are the text. */
  lemma {:induction false} LexIsLossless(text: string, d: char, quoted: bool)
    ensures RawText(Lex(text, d, quoted), d) == text
  {
    if text != "" {
      var n, quoted' := LexFirst(text, d, quoted);
      LexIsLossless(text[n..], d, quoted');
    }
  }

  // ── Rows ──────────────────────────────────────────────────────────────────

  /** A row and the line of the file it starts on. */
  datatype CsvLine = CsvLine(line: nat, cells: seq<string>)

  /** What a token adds to its cell. */
  function Content(t: Token): string {
    match t
    case Bare(c) => [c]
    case Quoted(c) => [c]
    case Doubled => "\""
    case _ => ""
  }

  /** A token put in front of a row's cells. */
  function Prepend(t: Token, cells: seq<string>): (r: seq<string>)
    requires cells != []
    ensures r != []
  {
    if t.Sep? then [""] + cells else [Content(t) + cells[0]] + cells[1..]
  }

  /** Every row, the blank ones too; the first starts on `line`. */
  function Rows(ts: seq<Token>, line: nat): (rows: seq<CsvLine>)
    ensures rows != [] && rows[0].line == line
    ensures forall k :: 0 <= k < |rows| ==> rows[k].cells != []
  {
    if ts == [] then [CsvLine(line, [""])]
    else if ts[0].LineEnd? then [CsvLine(line, [""])] + Rows(ts[1..], line + 1)
    else
      var rest := Rows(ts[1..], if ts[0] == Quoted('\n') then line + 1 else line);
      [CsvLine(line, Prepend(ts[0], rest[0].cells))] + rest[1..]
  }

  lemma Assoc<T>(a: seq<T>, b: seq<T>, c: seq<T>)
    ensures a + b + c == a + (b + c)
  {
  }

  /** The first token, and the rows of the others. */
  lemma RowsFirst(ts: seq<Token>, line: nat)
    requires ts != []
    ensures var rest := Rows(ts[1..], if EndsALine(ts[0]) then line + 1 else line);
            Rows(ts, line) ==
            if ts[0].LineEnd? then [CsvLine(line, [""])] + rest
            else [CsvLine(line, Prepend(ts[0], rest[0].cells))] + rest[1..]
  {
  }

  predicate HasText(cells: seq<string>) {
    exists i :: 0 <= i < |cells| && Trim(cells[i]) != ""
  }

  /** A row is blank exactly when all it holds is white space. */
  lemma BlankIsWhite(cells: seq<string>)
    ensures !HasText(cells) <==> forall i :: 0 <= i < |cells| ==> AllSpace(cells[i])
  {
    hide Trim, AllSpace;
    forall i | 0 <= i < |cells|
      ensures Trim(cells[i]) == "" <==> AllSpace(cells[i])
    {
      TrimEmpty(cells[i]);
    }
  }

  /** The rows that are not blank, in order. */
  function Kept(rows: seq<CsvLine>): seq<CsvLine> {
    if rows == [] then []
    else (if HasText(rows[0].cells) then [rows[0]] else []) + Kept(rows[1..])
  }

  /** The cells of the first line under a delimiter. */
  function FirstCells(text: string, d: char): (cells: seq<string>)
    ensures cells != []
  {
    Rows(Lex(text, d, false), 1)[0].cells
  }

  /** The delimiter that cuts the header line into more cells; the comma when neither does. */
  function Detected(text: string): (d: char)
    ensures d == ',' || d == ';'
  {
    if |FirstCells(text, ';')| > |FirstCells(text, ',')| then ';' else ','
  }

  datatype CsvFile = CsvFile(delimiter: char, header: seq<string>, rows: seq<CsvLine>)

  const BOM := '\U{FEFF}'

  function WithoutBom(input: string): string {
    if input != "" && input[0] == BOM then input[1..] else input
  }

  function TrimAll(cells: seq<string>): (r: seq<string>)
    ensures |r| == |cells|
    ensures forall i :: 0 <= i < |r| ==> r[i] == Trim(cells[i])
  {
    seq(|cells|, i requires 0 <= i < |cells| => Trim(cells[i]))
  }

  function FileOf(d: char, records: seq<CsvLine>): CsvFile {
    if records == [] then CsvFile(d, [], [])
    else CsvFile(d, TrimAll(records[0].cells), records[1..])
  }

  /** What a file holds: its rows that are not blank, the first of them its header. */
  function Meaning(input: string): CsvFile {
    var text := WithoutBom(input);
    var d := Detected(text);
    FileOf(d, Kept(Rows(Lex(text, d, false), 1)))
  }

  // ── Line numbers ──────────────────────────────────────────────────────────

  function Count(s: string, c: char): nat {
    if s == "" then 0 else (if s[0] == c then 1 else 0) + Count(s[1..], c)
  }

  lemma {:induction false} CountConcat(a: string, b: string, c: char)
    ensures Count(a + b, c) == Count(a, c) + Count(b, c)
  {
    if a == "" {
      assert a + b == b;
    } else {
      assert (a + b)[1..] == a[1..] + b;
      CountConcat(a[1..], b, c);
    }
  }

  /** Row ends written as a carriage return alone. */
  function LoneReturns(ts: seq<Token>): nat {
    if ts == [] then 0 else (if ts[0] == LineEnd("\r") then 1 else 0) + LoneReturns(ts[1..])
  }

  /** How many tokens come before row `k`. */
  function TokensBefore(ts: seq<Token>, k: nat): (n: nat)
    ensures n <= |ts|
  {
    if k == 0 || ts == [] then 0
    else 1 + TokensBefore(ts[1..], if ts[0].LineEnd? then k - 1 else k)
  }

  /** Tokens that Lex produces: a line feed is quoted or ends a line. */
  ghost predicate Lexed(ts: seq<Token>) {
    forall i :: 0 <= i < |ts| ==>
      && (ts[i].Bare? ==> ts[i].c != '\n' && ts[i].c != '\r')
      && (ts[i].LineEnd? ==> ts[i].raw == "\r\n" || ts[i].raw == "\r" || ts[i].raw == "\n")
  }

  lemma {:induction false} LexGivesLexed(text: string, d: char, quoted: bool)
    ensures Lexed(Lex(text, d, quoted))
  {
    if text != "" {
      var n, quoted' := LexFirst(text, d, quoted);
      LexGivesLexed(text[n..], d, quoted');
    }
  }

  /** Whether the reader moves to the next line of the file after a token. */
  predicate EndsALine(t: Token) {
    t.LineEnd? || t == Quoted('\n')
  }

  /** Line feeds and lone carriage returns ending rows, in the text of some tokens. */
  function LineEndsIn(ts: seq<Token>, d: char): nat {
    Count(RawText(ts, d), '\n') + LoneReturns(ts)
  }

  lemma LineEndsInFirst(ts: seq<Token>, d: char)
    requires ts != [] && Lexed(ts) && IsDelimiter(d)
    ensures LineEndsIn(ts, d) == (if EndsALine(ts[0]) then 1 else 0) + LineEndsIn(ts[1..], d)
  {
    CountConcat(Raw(ts[0], d), RawText(ts[1..], d), '\n');
    assert forall c: char :: [c][1..] == "";
    assert "\"\""[1..] == "\"";
    assert "\r\n"[1..] == "\n";
  }

  lemma RowsTail(ts: seq<Token>, line: nat, k: nat)
    requires ts != [] && 0 < k < |Rows(ts, line)|
    ensures var k' := if ts[0].LineEnd? then k - 1 else k;
            var line' := if EndsALine(ts[0]) then line + 1 else line;
            k' < |Rows(ts[1..], line')| && Rows(ts, line)[k] == Rows(ts[1..], line')[k']
  {
    hide Rows, Prepend;
    RowsFirst(ts, line);
  }

  lemma {:induction false} RowLine(ts: seq<Token>, line: nat, k: nat, d: char)
    requires Lexed(ts) && IsDelimiter(d)
    requires k < |Rows(ts, line)|
    ensures Rows(ts, line)[k].line == line + LineEndsIn(ts[..TokensBefore(ts, k)], d)
  {
    if k > 0 && ts != [] {
      var k' := if ts[0].LineEnd? then k - 1 else k;
      RowsTail(ts, line, k);
      RowLine(ts[1..], if EndsALine(ts[0]) then line + 1 else line, k', d);
      var before := ts[..TokensBefore(ts, k)];
      assert before[1..] == ts[1..][..TokensBefore(ts[1..], k')];
      LineEndsInFirst(before, d);
    }
  }

  function RowEnds(ts: seq<Token>): nat {
    if ts == [] then 0 else (if ts[0].LineEnd? then 1 else 0) + RowEnds(ts[1..])
  }

  lemma {:induction false} BeforeRow(ts: seq<Token>, line: nat, k: nat)
    requires k < |Rows(ts, line)|
    ensures var before := ts[..TokensBefore(ts, k)];
            RowEnds(before) == k && (k > 0 ==> before != [] && before[|before| - 1].LineEnd?)
  {
    if k > 0 && ts != [] {
      var k' := if ts[0].LineEnd? then k - 1 else k;
      BeforeRow(ts[1..], if EndsALine(ts[0]) then line + 1 else line, k');
      var before := ts[..TokensBefore(ts, k)];
      assert before[1..] == ts[1..][..TokensBefore(ts[1..], k')];
    }
  }

  /**
   * Row `k` of a text (blank rows counted) starts right after the `k`-th row
   * end, and its line is 1 more than the line feeds in the text before it and
   * the row ends written there as a carriage return alone.
   */
  lemma LineNumbers(text: string, d: char, k: nat)
    requires IsDelimiter(d)
    requires k < |Rows(Lex(text, d, false), 1)|
    ensures var ts := Lex(text, d, false);
            var before := ts[..TokensBefore(ts, k)];
            && RawText(before, d) <= text
            && RowEnds(before) == k && (k > 0 ==> before != [] && before[|before| - 1].LineEnd?)
            && Rows(ts, 1)[k].line == 1 + Count(RawText(before, d), '\n') + LoneReturns(before)
  {
    var ts := Lex(text, d, false);
    LexGivesLexed(text, d, false);
    RowLine(ts, 1, k, d);
    BeforeRow(ts, 1, k);
    LexIsLossless(text, d, false);
    RawTextPrefix(ts, TokensBefore(ts, k), d);
  }

  lemma {:induction false} RawTextPrefix(ts: seq<Token>, n: nat, d: char)
    requires n <= |ts|
    ensures RawText(ts, d) == RawText(ts[..n], d) + RawText(ts[n..], d)
  {
    if n > 0 {
      RawTextPrefix(ts[1..], n - 1, d);
      assert ts[..n][1..] == ts[1..][..n - 1];
    } else {
      assert ts[..0] == [] && ts[0..] == ts;
    }
  }

  ghost predicate Increasing(rows: seq<CsvLine>) {
    forall i, j :: 0 <= i < j < |rows| ==> rows[i].line < rows[j].line
  }

  lemma IncreasingFirst(row: CsvLine, rest: seq<CsvLine>)
    requires Increasing(rest) && (rest != [] ==> row.line < rest[0].line)
    ensures Increasing([row] + rest)
  {
  }

  lemma IncreasingTail(rows: seq<CsvLine>)
    requires Increasing(rows) && rows != []
    ensures Increasing(rows[1..]) && (|rows| > 1 ==> rows[0].line < rows[1..][0].line)
  {
  }

  lemma {:induction false} RowsIncrease(ts: seq<Token>, line: nat)
    ensures Increasing(Rows(ts, line))
  {
    if ts == [] {
      assert |Rows(ts, line)| == 1;
    } else {
      hide Rows, Prepend, Increasing;
      var rest := Rows(ts[1..], if EndsALine(ts[0]) then line + 1 else line);
      RowsFirst(ts, line);
      RowsIncrease(ts[1..], if EndsALine(ts[0]) then line + 1 else line);
      if ts[0].LineEnd? {
        IncreasingFirst(CsvLine(line, [""]), rest);
      } else {
        IncreasingTail(rest);
        IncreasingFirst(CsvLine(line, Prepend(ts[0], rest[0].cells)), rest[1..]);
      }
    }
  }

  lemma {:induction false} KeptAreRows(rows: seq<CsvLine>)
    ensures forall r :: r in Kept(rows) ==> r in rows && HasText(r.cells)
  {
    if rows != [] {
      KeptAreRows(rows[1..]);
    }
  }

  lemma {:induction false} KeptIncrease(rows: seq<CsvLine>)
    requires Increasing(rows)
    ensures Increasing(Kept(rows))
  {
    if rows != [] {
      KeptIncrease(rows[1..]);
      var rest := Kept(rows[1..]);
      KeptAreRows(rows[1..]);
      hide Kept, HasText;
      forall j | 0 <= j < |rest|
        ensures rows[0].line < rest[j].line
      {
        assert rest[j] in rest;
      }
    }
  }

  /** The rows of a file are in order of their lines, all different, and none is blank. */
  lemma FileLinesIncrease(input: string)
    ensures Increasing(Meaning(input).rows)
    ensures forall r :: r in Meaning(input).rows ==> HasText(r.cells)
  {
    var text := WithoutBom(input);
    var ts := Lex(text, Detected(text), false);
    RowsIncrease(ts, 1);
    KeptIncrease(Rows(ts, 1));
    KeptAreRows(Rows(ts, 1));
  }
}
