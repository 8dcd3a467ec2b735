/**
 * Files as section 2 of RFC 4180 writes them: fields plain or enclosed in
 * quotes, records joined by one kind of line end. The reader's grammar gives
 * back what was written, and says where each record starts.
 */
module Rfc4180 {
  import opened CsvSyntax

  datatype Field = Plain(text: string) | Enclosed(text: string)

  predicate NeedsQuotes(s: string, d: char) {
    d in s || '"' in s || '\n' in s || '\r' in s
  }

  predicate WellFormed(f: Field, d: char) {
    f.Plain? ==> !NeedsQuotes(f.text, d)
  }

  function DoubleQuotes(s: string): string {
    if s == "" then "" else (if s[0] == '"' then "\"\"" else [s[0]]) + DoubleQuotes(s[1..])
  }

  function FieldText(f: Field): string {
    match f
    case Plain(s) => s
    case Enclosed(s) => "\"" + DoubleQuotes(s) + "\""
  }

  function Join(parts: seq<string>, sep: string): string {
    if parts == [] then ""
    else if |parts| == 1 then parts[0]
    else parts[0] + sep + Join(parts[1..], sep)
  }

  function FieldTexts(fs: seq<Field>): (r: seq<string>)
    ensures |r| == |fs|
  {
    if fs == [] then [] else [FieldText(fs[0])] + FieldTexts(fs[1..])
  }

  function RecordText(fs: seq<Field>, d: char): string {
    Join(FieldTexts(fs), [d])
  }

  function RecordTexts(rs: seq<seq<Field>>, d: char): (r: seq<string>)
    ensures |r| == |rs|
  {
    if rs == [] then [] else [RecordText(rs[0], d)] + RecordTexts(rs[1..], d)
  }

  /** Records joined by a line end; a line end after the last is an empty record more. */
  function FileText(rs: seq<seq<Field>>, d: char, eol: string): string {
    Join(RecordTexts(rs, d), eol)
  }

  ghost predicate WellFormedRecord(fs: seq<Field>, d: char) {
    fs != [] && forall i :: 0 <= i < |fs| ==> WellFormed(fs[i], d)
  }

  ghost predicate WellFormedFile(rs: seq<seq<Field>>, d: char) {
    rs != [] && forall i :: 0 <= i < |rs| ==> WellFormedRecord(rs[i], d)
  }

  predicate IsLineEnd(eol: string) {
    eol == "\r\n" || eol == "\n" || eol == "\r"
  }

  // ── Its tokens ────────────────────────────────────────────────────────────

  function BareTokens(s: string): seq<Token> {
    if s == "" then [] else [Bare(s[0])] + BareTokens(s[1..])
  }

  function QuotedTokens(s: string): seq<Token> {
    if s == "" then [] else [if s[0] == '"' then Doubled else Quoted(s[0])] + QuotedTokens(s[1..])
  }

  function FieldTokens(f: Field): seq<Token> {
    match f
    case Plain(s) => BareTokens(s)
    case Enclosed(s) => [Quote] + QuotedTokens(s) + [Quote]
  }

  function RecordTokens(fs: seq<Field>): seq<Token>
    requires fs != []
  {
    if |fs| == 1 then FieldTokens(fs[0]) else FieldTokens(fs[0]) + [Sep] + RecordTokens(fs[1..])
  }

  function FileTokens(rs: seq<seq<Field>>, eol: string): seq<Token>
    requires rs != [] && forall i :: 0 <= i < |rs| ==> rs[i] != []
  {
    if |rs| == 1 then RecordTokens(rs[0])
    else RecordTokens(rs[0]) + [LineEnd(eol)] + FileTokens(rs[1..], eol)
  }

  lemma {:induction false} LexPlain(s: string, rest: string, d: char)
    requires !NeedsQuotes(s, d)
    ensures Lex(s + rest, d, false) == BareTokens(s) + Lex(rest, d, false)
  {
    if s == "" {
      assert s + rest == rest;
    } else {
      assert (s + rest)[1..] == s[1..] + rest;
      LexPlain(s[1..], rest, d);
    }
  }

  lemma {:induction false} LexQuoted(s: string, rest: string, d: char)
    requires rest != "" ==> rest[0] != '"'
    ensures Lex(DoubleQuotes(s) + "\"" + rest, d, true) == QuotedTokens(s) + [Quote] + Lex(rest, d, false)
  {
    hide Lex;
    if s == "" {
      assert "" + "\"" + rest == "\"" + rest;
      LexClosing(rest, d);
    } else {
      var first := if s[0] == '"' then "\"\"" else [s[0]];
      var more := DoubleQuotes(s[1..]) + "\"" + rest;
      LexInQuotes(s[0], more, d);
      LexQuoted(s[1..], rest, d);
      Assoc(first, DoubleQuotes(s[1..]), "\"");
      Assoc(first, DoubleQuotes(s[1..]) + "\"", rest);
      var token := if s[0] == '"' then Doubled else Quoted(s[0]);
      Assoc([token], QuotedTokens(s[1..]), [Quote]);
      Assoc([token], QuotedTokens(s[1..]) + [Quote], Lex(rest, d, false));
    }
  }

  lemma LexClosing(rest: string, d: char)
    requires rest != "" ==> rest[0] != '"'
    ensures Lex("\"" + rest, d, true) == [Quote] + Lex(rest, d, false)
  {
    assert ("\"" + rest)[1..] == rest;
  }

  /** One character inside quotes, doubled if it is a quote. */
  lemma LexInQuotes(c: char, more: string, d: char)
    ensures Lex((if c == '"' then "\"\"" else [c]) + more, d, true) ==
            [if c == '"' then Doubled else Quoted(c)] + Lex(more, d, true)
  {
    if c == '"' {
      assert ("\"\"" + more)[2..] == more;
    } else {
      assert ([c] + more)[1..] == more;
    }
  }

  ghost predicate EndsField(rest: string, d: char) {
    rest == "" || rest[0] == d || rest[0] == '\r' || rest[0] == '\n'
  }

  lemma LexField(f: Field, rest: string, d: char)
    requires WellFormed(f, d) && IsDelimiter(d) && EndsField(rest, d)
    ensures Lex(FieldText(f) + rest, d, false) == FieldTokens(f) + Lex(rest, d, false)
  {
    match f
    case Plain(s) => LexPlain(s, rest, d);
    case Enclosed(s) =>
      var text := FieldText(f) + rest;
      assert text[1..] == DoubleQuotes(s) + "\"" + rest;
      LexQuoted(s, rest, d);
  }

  lemma LexSep(more: string, d: char)
    requires IsDelimiter(d)
    ensures Lex([d] + more, d, false) == [Sep] + Lex(more, d, false)
  {
    assert ([d] + more)[1..] == more;
  }

  lemma LexFieldSep(f: Field, more: string, ts: seq<Token>, d: char)
    requires WellFormed(f, d) && IsDelimiter(d)
    requires Lex(more, d, false) == ts
    ensures Lex(FieldText(f) + [d] + more, d, false) == FieldTokens(f) + [Sep] + ts
  {
    hide Lex;
    LexField(f, [d] + more, d);
    LexSep(more, d);
    Assoc(FieldText(f), [d], more);
    Assoc(FieldTokens(f), [Sep], ts);
  }

  lemma {:induction false} LexRecord(fs: seq<Field>, rest: string, d: char)
    requires WellFormedRecord(fs, d) && IsDelimiter(d)
    requires rest == "" || rest[0] == '\r' || rest[0] == '\n'
    ensures Lex(RecordText(fs, d) + rest, d, false) == RecordTokens(fs) + Lex(rest, d, false)
  {
    hide Lex;
    if |fs| == 1 {
      LexField(fs[0], rest, d);
    } else {
      LexRecord(fs[1..], rest, d);
      LexFieldSep(fs[0], RecordText(fs[1..], d) + rest, RecordTokens(fs[1..]) + Lex(rest, d, false), d);
      Assoc(FieldText(fs[0]) + [d], RecordText(fs[1..], d), rest);
      Assoc(FieldTokens(fs[0]) + [Sep], RecordTokens(fs[1..]), Lex(rest, d, false));
    }
  }

  /** A record's text never starts with a line feed, which would join a carriage return before it. */
  lemma RecordStart(fs: seq<Field>, d: char)
    requires WellFormedRecord(fs, d) && IsDelimiter(d)
    ensures RecordText(fs, d) != "" ==> RecordText(fs, d)[0] != '\n'
  {
    var f := fs[0];
    assert WellFormed(f, d);
    if f.Plain? && f.text != "" {
      assert f.text[0] in f.text;
    }
  }

  lemma LexLineEnd(eol: string, more: string, d: char)
    requires IsDelimiter(d) && IsLineEnd(eol)
    requires eol == "\r" && more != "" ==> more[0] != '\n'
    ensures Lex(eol + more, d, false) == [LineEnd(eol)] + Lex(more, d, false)
  {
    assert LineEndAt(eol + more) == eol;
    assert (eol + more)[|eol|..] == more;
  }

  lemma {:induction false} LexFile(rs: seq<seq<Field>>, d: char, eol: string)
    requires WellFormedFile(rs, d) && IsDelimiter(d) && IsLineEnd(eol)
    ensures Lex(FileText(rs, d, eol), d, false) == FileTokens(rs, eol)
  {
    if |rs| == 1 {
      LexRecord(rs[0], "", d);
      assert RecordText(rs[0], d) + "" == RecordText(rs[0], d);
    } else {
      hide Lex;
      var first, more := RecordText(rs[0], d), FileText(rs[1..], d, eol);
      FileStart(rs[1..], d, eol);
      LexFile(rs[1..], d, eol);
      LexLineEnd(eol, more, d);
      LexRecord(rs[0], eol + more, d);
      Assoc(first, eol, more);
      Assoc(RecordTokens(rs[0]), [LineEnd(eol)], FileTokens(rs[1..], eol));
    }
  }

  lemma FileStart(rs: seq<seq<Field>>, d: char, eol: string)
    requires WellFormedFile(rs, d) && IsDelimiter(d) && IsLineEnd(eol)
    ensures var text := FileText(rs, d, eol);
            eol == "\r" && text != "" ==> text[0] != '\n'
  {
    RecordStart(rs[0], d);
  }

  // ── Its rows ──────────────────────────────────────────────────────────────

  function Texts(fs: seq<Field>): (r: seq<string>)
    ensures |r| == |fs|
    ensures forall i :: 0 <= i < |r| ==> r[i] == fs[i].text
  {
    if fs == [] then [] else [fs[0].text] + Texts(fs[1..])
  }

  /** The line feeds written inside a field; a well-formed plain one has none. */
  function FieldLines(f: Field): nat {
    match f
    case Plain(_) => 0
    case Enclosed(s) => Count(s, '\n')
  }

  function RecordLines(fs: seq<Field>): nat {
    if fs == [] then 0 else FieldLines(fs[0]) + RecordLines(fs[1..])
  }

  /** The records with the lines they start on. */
  function Placed(rs: seq<seq<Field>>, line: nat): (r: seq<CsvLine>)
    ensures |r| == |rs|
    ensures forall k :: 0 <= k < |r| ==> r[k].cells == Texts(rs[k])
  {
    if rs == [] then []
    else [CsvLine(line, Texts(rs[0]))] + Placed(rs[1..], line + RecordLines(rs[0]) + 1)
  }

  /** Rows whose first cell is extended to the left, starting on `line`. */
  ghost function Extend(line: nat, s: string, rows: seq<CsvLine>): seq<CsvLine>
    requires rows != [] && rows[0].cells != []
  {
    [CsvLine(line, [s + rows[0].cells[0]] + rows[0].cells[1..])] + rows[1..]
  }

  lemma ExtendTwice(line: nat, a: string, line': nat, b: string, rows: seq<CsvLine>)
    requires rows != [] && rows[0].cells != []
    ensures Extend(line, a, Extend(line', b, rows)) == Extend(line, a + b, rows)
  {
    assert a + (b + rows[0].cells[0]) == a + b + rows[0].cells[0];
  }

  lemma ExtendByNothing(rows: seq<CsvLine>)
    requires rows != [] && rows[0].cells != []
    ensures Extend(rows[0].line, "", rows) == rows
  {
    assert "" + rows[0].cells[0] == rows[0].cells[0];
    assert [rows[0].cells[0]] + rows[0].cells[1..] == rows[0].cells;
    assert CsvLine(rows[0].line, rows[0].cells) == rows[0];
  }

  lemma RowsContent(t: Token, ts: seq<Token>, line: nat)
    requires !t.Sep? && !t.LineEnd?
    ensures Rows([t] + ts, line) == Extend(line, Content(t), Rows(ts, if EndsALine(t) then line + 1 else line))
  {
    assert ([t] + ts)[1..] == ts;
  }

  lemma RowsQuote(ts: seq<Token>, line: nat)
    ensures Rows([Quote] + ts, line) == Rows(ts, line)
  {
    RowsContent(Quote, ts, line);
    ExtendByNothing(Rows(ts, line));
  }

  /** A content token in front of tokens whose rows are known. */
  lemma RowsContentThen(t: Token, s: string, ts: seq<Token>, line: nat, rows: seq<CsvLine>)
    requires !t.Sep? && !t.LineEnd?
    requires rows != [] && rows[0].cells != []
    requires var line' := if EndsALine(t) then line + 1 else line; Rows(ts, line') == Extend(line', s, rows)
    ensures Rows([t] + ts, line) == Extend(line, Content(t) + s, rows)
  {
    var line' := if EndsALine(t) then line + 1 else line;
    RowsContent(t, ts, line);
    ExtendTwice(line, Content(t), line', s, rows);
  }

  lemma RowsLineEnd(eol: string, ts: seq<Token>, line: nat)
    ensures Rows([LineEnd(eol)] + ts, line) == [CsvLine(line, [""])] + Rows(ts, line + 1)
  {
    assert ([LineEnd(eol)] + ts)[1..] == ts;
  }

  lemma {:induction false} BareRows(s: string, ts: seq<Token>, line: nat)
    ensures Rows(BareTokens(s) + ts, line) == Extend(line, s, Rows(ts, line))
  {
    hide Rows;
    if s == "" {
      assert BareTokens(s) + ts == ts;
      ExtendByNothing(Rows(ts, line));
    } else {
      BareRows(s[1..], ts, line);
      RowsContentThen(Bare(s[0]), s[1..], BareTokens(s[1..]) + ts, line, Rows(ts, line));
      Assoc([Bare(s[0])], BareTokens(s[1..]), ts);
      assert [s[0]] + s[1..] == s;
    }
  }

  lemma {:induction false} QuotedRows(s: string, ts: seq<Token>, line: nat)
    ensures Rows(QuotedTokens(s) + ts, line) == Extend(line, s, Rows(ts, line + Count(s, '\n')))
  {
    hide Rows;
    if s == "" {
      assert QuotedTokens(s) + ts == ts;
      ExtendByNothing(Rows(ts, line));
    } else {
      var t := if s[0] == '"' then Doubled else Quoted(s[0]);
      QuotedRows(s[1..], ts, if EndsALine(t) then line + 1 else line);
      RowsContentThen(t, s[1..], QuotedTokens(s[1..]) + ts, line, Rows(ts, line + Count(s, '\n')));
      Assoc([t], QuotedTokens(s[1..]), ts);
      assert [s[0]] + s[1..] == s;
    }
  }

  lemma QuoteThen(a: seq<Token>, b: seq<Token>, line: nat)
    ensures Rows([Quote] + a + b, line) == Rows(a + b, line)
  {
    Assoc([Quote], a, b);
    RowsQuote(a + b, line);
  }

  lemma EnclosedRows(s: string, ts: seq<Token>, line: nat)
    ensures Rows([Quote] + QuotedTokens(s) + [Quote] + ts, line) ==
            Extend(line, s, Rows(ts, line + Count(s, '\n')))
  {
    hide Rows;
    QuotedRows(s, [Quote] + ts, line);
    RowsQuote(ts, line + Count(s, '\n'));
    QuoteThen(QuotedTokens(s), [Quote] + ts, line);
    Assoc([Quote] + QuotedTokens(s), [Quote], ts);
  }

  lemma FieldRows(f: Field, ts: seq<Token>, line: nat)
    ensures Rows(FieldTokens(f) + ts, line) == Extend(line, f.text, Rows(ts, line + FieldLines(f)))
  {
    hide Rows;
    match f
    case Plain(s) => BareRows(s, ts, line);
    case Enclosed(s) => EnclosedRows(s, ts, line);
  }

  lemma FieldThenSep(f: Field, more: seq<Token>, ts: seq<Token>, line: nat, cells: seq<string>, rows: seq<CsvLine>)
    requires var line' := line + FieldLines(f); Rows(more + ts, line') == [CsvLine(line', cells)] + rows
    ensures Rows(FieldTokens(f) + [Sep] + more + ts, line) == [CsvLine(line, [f.text] + cells)] + rows
  {
    FieldRows(f, [Sep] + (more + ts), line);
    assert ([Sep] + (more + ts))[1..] == more + ts;
    assert f.text + "" == f.text;
    Assoc(FieldTokens(f) + [Sep], more, ts);
    Assoc(FieldTokens(f), [Sep], more + ts);
  }

  lemma FieldThenEnd(f: Field, ts: seq<Token>, line: nat)
    requires ts == [] || ts[0].LineEnd?
    ensures Rows(FieldTokens(f) + ts, line) == [CsvLine(line, [f.text])] + Rows(ts, line + FieldLines(f))[1..]
  {
    FieldRows(f, ts, line);
    var cells := Rows(ts, line + FieldLines(f))[0].cells;
    assert cells == [""] && f.text + "" == f.text;
    assert [f.text + cells[0]] + cells[1..] == [f.text];
  }

  lemma LastField(fs: seq<Field>, ts: seq<Token>, line: nat)
    requires |fs| == 1
    requires ts == [] || ts[0].LineEnd?
    ensures var rest := Rows(ts, line + RecordLines(fs));
            Rows(RecordTokens(fs) + ts, line) == [CsvLine(line, Texts(fs))] + rest[1..]
  {
    assert fs[1..] == [];
    assert RecordLines(fs) == FieldLines(fs[0]);
    assert Texts(fs) == [fs[0].text];
    FieldThenEnd(fs[0], ts, line);
  }

  lemma MoreFields(fs: seq<Field>, ts: seq<Token>, line: nat, rows: seq<CsvLine>)
    requires |fs| > 1
    requires var line' := line + FieldLines(fs[0]);
             Rows(RecordTokens(fs[1..]) + ts, line') == [CsvLine(line', Texts(fs[1..]))] + rows
    ensures Rows(RecordTokens(fs) + ts, line) == [CsvLine(line, Texts(fs))] + rows
  {
    hide Rows;
    FieldThenSep(fs[0], RecordTokens(fs[1..]), ts, line, Texts(fs[1..]), rows);
  }

  lemma {:induction false} RecordRows(fs: seq<Field>, ts: seq<Token>, line: nat)
    requires fs != []
    requires ts == [] || ts[0].LineEnd?
    ensures var rest := Rows(ts, line + RecordLines(fs));
            Rows(RecordTokens(fs) + ts, line) == [CsvLine(line, Texts(fs))] + rest[1..]
  {
    hide Rows;
    if |fs| == 1 {
      LastField(fs, ts, line);
    } else {
      RecordRows(fs[1..], ts, line + FieldLines(fs[0]));
      var rest := Rows(ts, line + RecordLines(fs));
      MoreFields(fs, ts, line, rest[1..]);
    }
  }

  lemma RecordThenLineEnd(fs: seq<Field>, eol: string, more: seq<Token>, line: nat)
    requires fs != []
    ensures Rows(RecordTokens(fs) + [LineEnd(eol)] + more, line) ==
            [CsvLine(line, Texts(fs))] + Rows(more, line + RecordLines(fs) + 1)
  {
    hide Rows;
    RecordRows(fs, [LineEnd(eol)] + more, line);
    RowsLineEnd(eol, more, line + RecordLines(fs));
    Assoc(RecordTokens(fs), [LineEnd(eol)], more);
  }

  lemma LastRecord(fs: seq<Field>, line: nat)
    requires fs != []
    ensures Rows(RecordTokens(fs), line) == [CsvLine(line, Texts(fs))]
  {
    RecordRows(fs, [], line);
    assert RecordTokens(fs) + [] == RecordTokens(fs);
    assert Rows([], line + RecordLines(fs))[1..] == [];
  }

  lemma {:induction false} FileRows(rs: seq<seq<Field>>, eol: string, line: nat)
    requires rs != [] && forall i :: 0 <= i < |rs| ==> rs[i] != []
    ensures Rows(FileTokens(rs, eol), line) == Placed(rs, line)
  {
    hide Rows;
    if |rs| == 1 {
      LastRecord(rs[0], line);
    } else {
      RecordThenLineEnd(rs[0], eol, FileTokens(rs[1..], eol), line);
      FileRows(rs[1..], eol, line + RecordLines(rs[0]) + 1);
    }
  }

  /**
   * Under the delimiter it was written with, the grammar gives back every record
   * of an RFC 4180 file, each on the line where it starts, for any choice of
   * quoting and any one line end. Which delimiter the reader takes is the matter
   * of CsvDelimiters.
   */
  lemma ReadsWhatIsWritten(rs: seq<seq<Field>>, d: char, eol: string)
    requires WellFormedFile(rs, d) && IsDelimiter(d) && IsLineEnd(eol)
    ensures Rows(Lex(FileText(rs, d, eol), d, false), 1) == Placed(rs, 1)
  {
    LexFile(rs, d, eol);
    FileRows(rs, eol, 1);
  }
}
