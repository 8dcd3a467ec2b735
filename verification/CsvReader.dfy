/** The CSV reader: its loops, against the grammar of CsvSyntax (apps/api/src/lib/csvRead.ts). */
module CsvReader {
  import opened Text
  import opened CsvSyntax

  /** A row in progress, put in front of the rows still to come. */
  ghost function Attach(start: nat, cells: seq<string>, cell: string, rest: seq<CsvLine>): seq<CsvLine>
    requires rest != [] && rest[0].cells != []
  {
    [CsvLine(start, cells + [cell + rest[0].cells[0]] + rest[0].cells[1..])] + rest[1..]
  }

  ghost function FirstCount(text: string, d: char, quoted: bool): nat {
    |Rows(Lex(text, d, quoted), 1)[0].cells|
  }

  lemma {:induction false} FirstRowAnyLine(ts: seq<Token>, a: nat, b: nat)
    ensures Rows(ts, a)[0].cells == Rows(ts, b)[0].cells
  {
    if ts != [] && !ts[0].LineEnd? {
      var more := if EndsALine(ts[0]) then 1 else 0;
      FirstRowAnyLine(ts[1..], a + more, b + more);
    }
  }

  /** One character of the delimiter count; a doubled quote passes as two toggles. */
  lemma FirstCountStep(text: string, d: char, quoted: bool)
    requires text != "" && IsDelimiter(d)
    requires quoted || (text[0] != '\n' && text[0] != '\r')
    ensures FirstCount(text, d, quoted) ==
            FirstCount(text[1..], d, if text[0] == '"' then !quoted else quoted)
            + (if !quoted && text[0] == d then 1 else 0)
  {
    var ts := Lex(text, d, quoted);
    FirstRowAnyLine(ts[1..], 1, 2);
    if quoted && text[0] == '"' && |text| > 1 && text[1] == '"' {
      assert text[1..][1..] == text[2..];
      assert Lex(text[1..], d, false) == [Quote] + Lex(text[2..], d, true);
    }
  }

  method DelimiterOf(text: string) returns (d: char)
    ensures d == Detected(text)
  {
    var commas, semicolons, quoted, i := 0, 0, false, 0;
    while i < |text|
      invariant 0 <= i <= |text|
      invariant FirstCount(text, ',', false) == commas + FirstCount(text[i..], ',', quoted)
      invariant FirstCount(text, ';', false) == semicolons + FirstCount(text[i..], ';', quoted)
    {
      var ch := text[i];
      if ch != '"' && !quoted && (ch == '\n' || ch == '\r') {
        break;
      }
      FirstCountStep(text[i..], ',', quoted);
      FirstCountStep(text[i..], ';', quoted);
      assert text[i..][1..] == text[i + 1..];
      if ch == '"' {
        quoted := !quoted;
      } else if !quoted && ch == ',' {
        commas := commas + 1;
      } else if !quoted && ch == ';' {
        semicolons := semicolons + 1;
      }
      i := i + 1;
    }
    assert FirstCount(text[i..], ',', quoted) == FirstCount(text[i..], ';', quoted) == 1;
    d := if semicolons > commas then ';' else ',';
  }

  lemma AttachText(start: nat, cells: seq<string>, cell: string, t: Token, line: nat, rest: seq<CsvLine>)
    requires rest != [] && rest[0].cells != []
    requires !t.Sep? && !t.LineEnd?
    ensures Attach(start, cells, cell, [CsvLine(line, Prepend(t, rest[0].cells))] + rest[1..])
         == Attach(start, cells, cell + Content(t), rest)
  {
    assert cell + (Content(t) + rest[0].cells[0]) == cell + Content(t) + rest[0].cells[0];
  }

  lemma AttachSep(start: nat, cells: seq<string>, cell: string, line: nat, rest: seq<CsvLine>)
    requires rest != [] && rest[0].cells != []
    ensures Attach(start, cells, cell, [CsvLine(line, Prepend(Sep, rest[0].cells))] + rest[1..])
         == Attach(start, cells + [cell], "", rest)
  {
    assert "" + rest[0].cells[0] == rest[0].cells[0];
    assert cell + "" == cell;
    assert cells + [cell] + rest[0].cells == cells + [cell] + [rest[0].cells[0]] + rest[0].cells[1..];
  }

  lemma AttachEnd(start: nat, cells: seq<string>, cell: string, line: nat, rest: seq<CsvLine>)
    ensures Attach(start, cells, cell, [CsvLine(line, [""])] + rest) == [CsvLine(start, cells + [cell])] + rest
  {
    var none: seq<string> := [""][1..];
    assert none == [] && cell + "" == cell;
    assert cells + [cell] + none == cells + [cell];
    assert [CsvLine(line, [""])] + rest == [CsvLine(line, [""])] + rest[0..];
  }

  lemma AttachNothing(start: nat, rest: seq<CsvLine>)
    requires rest != [] && rest[0].cells != [] && rest[0].line == start
    ensures Attach(start, [], "", rest) == rest
  {
    assert "" + rest[0].cells[0] == rest[0].cells[0];
    assert [] + [rest[0].cells[0]] + rest[0].cells[1..] == rest[0].cells;
    assert CsvLine(start, rest[0].cells) == rest[0];
  }

  // ── The scanner on tokens ─────────────────────────────────────────────────

  /** The scanner between two tokens: rows recorded, the row and the cell in progress, lines. */
  datatype Scan = Scan(records: seq<CsvLine>, cells: seq<string>, cell: string, line: nat, start: nat)

  function Recorded(row: CsvLine): seq<CsvLine> {
    if HasText(row.cells) then [row] else []
  }

  function Take(s: Scan, t: Token): Scan {
    match t
    case Sep => s.(cells := s.cells + [s.cell], cell := "")
    case LineEnd(_) =>
      Scan(s.records + Recorded(CsvLine(s.start, s.cells + [s.cell])), [], "", s.line + 1, s.line + 1)
    case _ => s.(cell := s.cell + Content(t), line := if EndsALine(t) then s.line + 1 else s.line)
  }

  function Scanned(s: Scan, ts: seq<Token>): seq<CsvLine>
    decreases |ts|
  {
    if ts == [] then s.records + Recorded(CsvLine(s.start, s.cells + [s.cell]))
    else Scanned(Take(s, ts[0]), ts[1..])
  }

  lemma KeptFirst(row: CsvLine, rest: seq<CsvLine>)
    ensures Kept([row] + rest) == Recorded(row) + Kept(rest)
  {
    assert ([row] + rest)[1..] == rest;
  }

  /** The rows recorded, the row in progress, and what the tokens to come add to them. */
  ghost function Total(s: Scan, ts: seq<Token>): seq<CsvLine> {
    s.records + Kept(Attach(s.start, s.cells, s.cell, Rows(ts, s.line)))
  }

  lemma TakeKeepsTotal(s: Scan, ts: seq<Token>)
    requires ts != []
    ensures Total(s, ts) == Total(Take(s, ts[0]), ts[1..])
  {
    hide Kept, Recorded, Attach, Rows, Prepend, Content;
    var t, s' := ts[0], Take(s, ts[0]);
    var rest := Rows(ts[1..], s'.line);
    RowsFirst(ts, s.line);
    if t.Sep? {
      AttachSep(s.start, s.cells, s.cell, s.line, rest);
    } else if t.LineEnd? {
      AttachEnd(s.start, s.cells, s.cell, s.line, rest);
      AttachNothing(s'.line, rest);
      KeptFirst(CsvLine(s.start, s.cells + [s.cell]), rest);
      Assoc(s.records, Recorded(CsvLine(s.start, s.cells + [s.cell])), Kept(rest));
    } else {
      AttachText(s.start, s.cells, s.cell, t, s.line, rest);
    }
  }

  lemma BlankRow(line: nat)
    ensures Recorded(CsvLine(line, [""])) == []
  {
  }

  /** Taking tokens one by one records what grouping them into rows gives. */
  lemma {:induction false} ScannedIsTotal(s: Scan, ts: seq<Token>)
    ensures Scanned(s, ts) == Total(s, ts)
    decreases |ts|
  {
    if ts == [] {
      AttachEnd(s.start, s.cells, s.cell, s.line, []);
      KeptFirst(CsvLine(s.start, s.cells + [s.cell]), []);
      assert [CsvLine(s.line, [""])] == [CsvLine(s.line, [""])] + [];
    } else {
      TakeKeepsTotal(s, ts);
      ScannedIsTotal(Take(s, ts[0]), ts[1..]);
    }
  }

  const START := Scan([], [], "", 1, 1)

  lemma ScannedFromStart(ts: seq<Token>)
    ensures Scanned(START, ts) == Kept(Rows(ts, 1))
  {
    ScannedIsTotal(START, ts);
    AttachNothing(1, Rows(ts, 1));
  }

  lemma LexNothing(d: char, quoted: bool)
    ensures Lex("", d, quoted) == []
  {
  }

  /** The first token at a position, and the tokens after it. */
  lemma LexAt(text: string, i: nat, d: char, quoted: bool)
    requires i < |text| && IsDelimiter(d)
    ensures var ch := text[i];
            var doubled := quoted && ch == '"' && i + 1 < |text| && text[i + 1] == '"';
            var crlf := !quoted && ch == '\r' && i + 1 < |text| && text[i + 1] == '\n';
            var ts := Lex(text[i..], d, quoted);
            && ts != []
            && ts[1..] == Lex(text[if doubled || crlf then i + 2 else i + 1..], d,
                              if ch == '"' && !doubled then !quoted else quoted)
            && (quoted ==> ts[0] == if doubled then Doubled else if ch == '"' then Quote else Quoted(ch))
            && (!quoted && ch == '"' ==> ts[0] == Quote)
            && (!quoted && ch == d ==> ts[0] == Sep)
            && (!quoted && ch != d && (ch == '\r' || ch == '\n') ==> ts[0].LineEnd?)
            && (!quoted && ch != d && ch != '"' && ch != '\r' && ch != '\n' ==> ts[0] == Bare(ch))
  {
  }

  /** The scanner: one pass over the text with a quote flag, the cell and the row in progress. */
  method ScanRecords(text: string, delimiter: char) returns (records: seq<CsvLine>)
    requires IsDelimiter(delimiter)
    ensures records == Kept(Rows(Lex(text, delimiter, false), 1))
  {
    hide Rows, Kept, HasText, Lex, Recorded;
    records := [];
    var cells: seq<string>, cell := [], "";
    var quoted, line, start := false, 1, 1;
    var i := 0;
    ghost var ts := Lex(text, delimiter, false);
    ScannedFromStart(ts);
    while i < |text|
      invariant 0 <= i <= |text|
      invariant ts == Lex(text[i..], delimiter, quoted)
      invariant Kept(Rows(Lex(text, delimiter, false), 1)) == Scanned(Scan(records, cells, cell, line, start), ts)
    {
      var ch := text[i];
      LexAt(text, i, delimiter, quoted);
      ghost var before := Scan(records, cells, cell, line, start);
      if quoted {
        if ch == '"' && i + 1 < |text| && text[i + 1] == '"' {
          cell := cell + "\"";
          i := i + 1;
        } else if ch == '"' {
          quoted := false;
        } else {
          if ch == '\n' {
            line := line + 1;
          }
          cell := cell + [ch];
        }
      } else if ch == '"' {
        quoted := true;
      } else if ch == delimiter {
        cells, cell := cells + [cell], "";
      } else if ch == '\r' || ch == '\n' {
        if ch == '\r' && i + 1 < |text| && text[i + 1] == '\n' {
          i := i + 1;
        }
        records, cells, cell := EndRecord(records, start, cells, cell);
        line := line + 1;
        start := line;
      } else {
        cell := cell + [ch];
      }
      i := i + 1;
      assert Scan(records, cells, cell, line, start) == Take(before, ts[0]);
      ts := ts[1..];
    }
    assert text[i..] == "";
    LexNothing(delimiter, quoted);
    if cell == "" && cells == [] {
      BlankRow(start);
      assert cells + [cell] == [""];
    }
    if cell != "" || |cells| > 0 {
      records, cells, cell := EndRecord(records, start, cells, cell);
    }
  }

  method ReadCsv(input: string) returns (file: CsvFile)
    ensures file == Meaning(input)
  {
    var text := WithoutBom(input);
    var delimiter := DelimiterOf(text);
    var records := ScanRecords(text, delimiter);
    file := FileOf(delimiter, records);
  }

  /** Ends the cell and the row in progress; a row with nothing in it is not recorded. */
  method EndRecord(records: seq<CsvLine>, start: nat, cells: seq<string>, cell: string)
    returns (records': seq<CsvLine>, cells': seq<string>, cell': string)
    ensures records' == records + Recorded(CsvLine(start, cells + [cell]))
    ensures cells' == [] && cell' == ""
  {
    var row := cells + [cell];
    records' := records;
    if HasText(row) {
      records' := records + [CsvLine(start, row)];
    }
    cells', cell' := [], "";
  }

  // ── A cell as written ─────────────────────────────────────────────────────

  /** An apostrophe in front of what a spreadsheet would run as a formula. */
  predicate LooksGuarded(s: string) {
    |s| > 1 && s[0] == '\'' && s[1] in "=+-@\t\r"
  }

  function CellText(raw: string): string {
    var text := Trim(raw);
    if LooksGuarded(text) then text[1..] else text
  }
}
