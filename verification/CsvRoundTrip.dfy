/** What the CSV reader gives back of a file the CSV writer built, and exactly when that is the file's data. */
module CsvRoundTrip {
  import opened Text
  import opened CsvSyntax
  import opened Rfc4180
  import opened CsvDelimiters
  import opened CsvReader
  import opened CsvWriter

  // ── A written file is an RFC 4180 file ────────────────────────────────────

  function FieldOf(cell: string): (f: Field)
    ensures f.text == cell && WellFormed(f, ',')
  {
    if NeedsQuotes(cell, ',') then Enclosed(cell) else Plain(cell)
  }

  function Fields(cells: seq<string>): (fs: seq<Field>)
    ensures Texts(fs) == cells && |fs| == |cells|
    ensures forall i :: 0 <= i < |fs| ==> fs[i] == FieldOf(cells[i])
  {
    if cells == [] then [] else [FieldOf(cells[0])] + Fields(cells[1..])
  }

  /** A line without cells holds one empty field. */
  function Record(cells: seq<string>): (fs: seq<Field>)
    ensures WellFormedRecord(fs, ',')
  {
    if cells == [] then [Plain("")] else Fields(cells)
  }

  function Headers(columns: seq<Column>): (r: seq<string>)
    ensures |r| == |columns|
    ensures forall i :: 0 <= i < |r| ==> r[i] == columns[i].header
  {
    if columns == [] then [] else [columns[0].header] + Headers(columns[1..])
  }

  /** A row's cells as written: printed, and guarded in free-text columns. */
  function GuardedCells(row: Row, columns: seq<Column>): (r: seq<string>)
    ensures |r| == |columns|
    ensures forall i :: 0 <= i < |r| ==>
              r[i] == Guard(FormatValue(row, columns[i]), columns[i].columnType.StringColumn?)
  {
    if columns == [] then []
    else [Guard(FormatValue(row, columns[0]), columns[0].columnType.StringColumn?)] + GuardedCells(row, columns[1..])
  }

  function GuardedRows(rows: seq<Row>, columns: seq<Column>): (r: seq<seq<string>>)
    ensures |r| == |rows|
    ensures forall i :: 0 <= i < |r| ==> r[i] == GuardedCells(rows[i], columns)
  {
    if rows == [] then [] else [GuardedCells(rows[0], columns)] + GuardedRows(rows[1..], columns)
  }

  function Records(rows: seq<seq<string>>): (rs: seq<seq<Field>>)
    ensures |rs| == |rows|
    ensures forall i :: 0 <= i < |rs| ==> rs[i] == Record(rows[i])
  {
    if rows == [] then [] else [Record(rows[0])] + Records(rows[1..])
  }

  lemma {:induction false} HeaderIsRecord(columns: seq<Column>)
    ensures FieldTexts(Fields(Headers(columns))) == HeaderCells(columns)
  {
    if columns != [] {
      HeaderIsRecord(columns[1..]);
    }
  }

  lemma {:induction false} RowIsRecord(row: Row, columns: seq<Column>)
    ensures FieldTexts(Fields(GuardedCells(row, columns))) == RowCells(row, columns)
  {
    if columns != [] {
      RowIsRecord(row, columns[1..]);
    }
  }

  lemma {:induction false} DataAreRecords(rows: seq<Row>, columns: seq<Column>)
    ensures RecordTexts(Records(GuardedRows(rows, columns)), ',') == DataLines(rows, columns)
  {
    if rows != [] {
      RowIsRecord(rows[0], columns);
      DataAreRecords(rows[1..], columns);
    }
  }

  function Written(rows: seq<Row>, columns: seq<Column>): seq<seq<Field>> {
    [Record(Headers(columns))] + Records(GuardedRows(rows, columns))
  }

  /** Text that a spreadsheet would run as a formula. */
  predicate IsFormula(s: string) {
    s != "" && (s[0] == '=' || s[0] == '+' || s[0] == '-' || s[0] == '@')
  }

  /** A value as printed, nothing for null; in free text a formula, and only that, has an apostrophe in front. */
  ghost predicate HoldsValue(text: string, row: Row, c: Column) {
    var value := if c.key in row && row[c.key].Printed? then row[c.key].text else "";
    && (c.columnType.StringColumn? ==> !IsFormula(text))
    && text == if c.columnType.StringColumn? && IsFormula(value) then "'" + value else value
  }

  ghost predicate RecordHolds(fs: seq<Field>, row: Row, columns: seq<Column>) {
    |fs| == |columns| && forall j :: 0 <= j < |columns| ==> HoldsValue(fs[j].text, row, columns[j])
  }

  /** The headers, and under them the values. */
  ghost predicate HoldsValues(rs: seq<seq<Field>>, rows: seq<Row>, columns: seq<Column>) {
    && |rs| == 1 + |rows|
    && (columns != [] ==> Texts(rs[0]) == Headers(columns))
    && (columns != [] ==> forall i :: 0 <= i < |rows| ==> RecordHolds(rs[i + 1], rows[i], columns))
  }

  lemma GuardHoldsValue(row: Row, c: Column)
    ensures HoldsValue(Guard(FormatValue(row, c), c.columnType.StringColumn?), row, c)
  {
  }

  lemma RowHoldsValues(row: Row, columns: seq<Column>)
    requires columns != []
    ensures RecordHolds(Record(GuardedCells(row, columns)), row, columns)
  {
    hide Guard, FormatValue, HoldsValue;
    var cells := GuardedCells(row, columns);
    forall j: nat | j < |columns|
      ensures HoldsValue(Fields(cells)[j].text, row, columns[j])
    {
      GuardHoldsValue(row, columns[j]);
    }
  }

  lemma WrittenHoldsValues(rows: seq<Row>, columns: seq<Column>)
    ensures HoldsValues(Written(rows, columns), rows, columns)
  {
    hide RecordHolds, Record, GuardedCells;
    if columns != [] {
      RecordHoldsCells(Headers(columns));
      forall i: nat | i < |rows|
        ensures RecordHolds(Written(rows, columns)[i + 1], rows[i], columns)
      {
        RowHoldsValues(rows[i], columns);
      }
    }
  }

  /** What is written is an RFC 4180 file of the headers and the values; no field of free text is a formula. */
  lemma WrittenIsFile(rows: seq<Row>, columns: seq<Column>)
    ensures WellFormedFile(Written(rows, columns), ',')
    ensures BuildCsv(rows, columns) == FileText(Written(rows, columns), ',', "\r\n")
    ensures HoldsValues(Written(rows, columns), rows, columns)
  {
    hide HoldsValues;
    WrittenHoldsValues(rows, columns);
    HeaderIsRecord(columns);
    DataAreRecords(rows, columns);
    var rs := Written(rows, columns);
    assert rs[1..] == Records(GuardedRows(rows, columns));
    assert RecordTexts(rs, ',') == [Join(HeaderCells(columns), ",")] + DataLines(rows, columns);
  }

  // ── Under the other delimiter ─────────────────────────────────────────────

  predicate Visible(t: Token) {
    Content(t) != "" && !IsSpace(Content(t)[0])
  }

  lemma HasTextPrepend(t: Token, cells: seq<string>)
    requires cells != []
    ensures HasText(Prepend(t, cells)) <==> Visible(t) || HasText(cells)
  {
    hide HasText, Trim, Visible;
    if t.Sep? {
      HasTextFirst("", cells);
      TrimEmpty("");
      VisibleContent(t, "");
      assert Content(t) + "" == "";
    } else {
      HasTextFirst(Content(t) + cells[0], cells[1..]);
      HasTextFirst(cells[0], cells[1..]);
      assert cells == [cells[0]] + cells[1..];
      VisibleContent(t, cells[0]);
    }
  }

  lemma HasTextFirst(cell: string, cells: seq<string>)
    ensures HasText([cell] + cells) <==> Trim(cell) != "" || HasText(cells)
  {
    hide Trim;
    var all := [cell] + cells;
    assert all[0] == cell && forall i :: 0 <= i < |cells| ==> all[i + 1] == cells[i];
  }

  lemma VisibleContent(t: Token, cell: string)
    ensures Trim(Content(t) + cell) != "" <==> Visible(t) || Trim(cell) != ""
  {
    var text := Content(t) + cell;
    TrimEmpty(text);
    TrimEmpty(cell);
    hide Trim;
    assert forall i :: 0 <= i < |cell| ==> text[|Content(t)| + i] == cell[i];
    if Content(t) != "" {
      assert text[0] == Content(t)[0];
    } else {
      assert text == cell;
    }
  }

  /**
   * A row's cells under the comma, and under the semicolon: with text under the
   * semicolon it has text under the comma or is cut into several cells by it;
   * and cut into several by the comma it has text under the semicolon.
   */
  ghost predicate Matches(commaCells: seq<string>, semicolonCells: seq<string>) {
    && (HasText(semicolonCells) ==> HasText(commaCells) || |commaCells| > 1)
    && (|commaCells| > 1 ==> HasText(semicolonCells))
  }

  lemma MatchesPrepend(t: Token, commaCells: seq<string>, semicolonCells: seq<string>)
    requires commaCells != [] && semicolonCells != [] && Matches(commaCells, semicolonCells)
    ensures Matches(Prepend(t, commaCells), Prepend(Swap(t, ',', ';'), semicolonCells))
  {
    HasTextPrepend(t, commaCells);
    HasTextPrepend(Swap(t, ',', ';'), semicolonCells);
  }

  ghost predicate AllMatch(commaRows: seq<CsvLine>, semicolonRows: seq<CsvLine>) {
    && |commaRows| == |semicolonRows|
    && forall k :: 0 <= k < |commaRows| ==> Matches(commaRows[k].cells, semicolonRows[k].cells)
  }

  lemma AllMatchFirst(a: CsvLine, b: CsvLine, commaRows: seq<CsvLine>, semicolonRows: seq<CsvLine>)
    requires AllMatch(commaRows, semicolonRows) && Matches(a.cells, b.cells)
    ensures AllMatch([a] + commaRows, [b] + semicolonRows)
    ensures commaRows != [] ==> AllMatch([a] + commaRows[1..], [b] + semicolonRows[1..])
  {
  }

  lemma {:induction false} SwappedRows(ts: seq<Token>, line: nat)
    ensures AllMatch(Rows(ts, line), Rows(SwapAll(ts, ',', ';'), line))
  {
    var blank := CsvLine(line, [""]);
    assert !HasText([""]) && Matches([""], [""]);
    if ts == [] {
      AllMatchFirst(blank, blank, [], []);
    } else {
      var line' := if EndsALine(ts[0]) then line + 1 else line;
      SwappedRows(ts[1..], line');
      var rest, restSwapped := Rows(ts[1..], line'), Rows(SwapAll(ts[1..], ',', ';'), line');
      if ts[0].LineEnd? {
        AllMatchFirst(blank, blank, rest, restSwapped);
      } else {
        assert Matches(rest[0].cells, restSwapped[0].cells);
        MatchesPrepend(ts[0], rest[0].cells, restSwapped[0].cells);
        AllMatchFirst(CsvLine(line, Prepend(ts[0], rest[0].cells)),
                      CsvLine(line, Prepend(Swap(ts[0], ',', ';'), restSwapped[0].cells)), rest, restSwapped);
      }
    }
  }

  // ── What is read back ─────────────────────────────────────────────────────

  /** The rows that are not blank. */
  function Filled(rows: seq<seq<string>>): seq<seq<string>> {
    if rows == [] then [] else (if HasText(rows[0]) then [rows[0]] else []) + Filled(rows[1..])
  }

  function CellsOf(rows: seq<CsvLine>): (r: seq<seq<string>>)
    ensures |r| == |rows|
  {
    if rows == [] then [] else [rows[0].cells] + CellsOf(rows[1..])
  }

  /** The file holds the trimmed headers and, in order, the rows that are not blank, as guarded. */
  predicate ReadsBack(file: CsvFile, rows: seq<Row>, columns: seq<Column>) {
    && file.header == TrimAll(Headers(columns))
    && CellsOf(file.rows) == Filled(GuardedRows(rows, columns))
  }

  /** The file has the trimmed headers and as many rows as are not blank. */
  predicate ReadsShape(file: CsvFile, rows: seq<Row>, columns: seq<Column>) {
    file.header == TrimAll(Headers(columns)) && |file.rows| == |Filled(GuardedRows(rows, columns))|
  }

  lemma BackHasShape(file: CsvFile, rows: seq<Row>, columns: seq<Column>)
    ensures ReadsBack(file, rows, columns) ==> ReadsShape(file, rows, columns)
  {
  }

  /** Semicolons of the headers written without quotes. */
  function BareSemicolons(columns: seq<Column>): nat {
    BareIn(Fields(Headers(columns)), ';')
  }

  lemma {:induction false} KeptCells(rows: seq<seq<string>>, line: nat)
    requires forall i :: 0 <= i < |rows| ==> rows[i] != []
    ensures CellsOf(Kept(Placed(Records(rows), line))) == Filled(rows)
  {
    if rows == [] {
      assert Records(rows) == [] && Placed([], line) == [];
    } else {
      var rest := PlacedRecords(rows, line);
      hide Placed, Kept, Records, HasText;
      KeptCells(rows[1..], rest);
      KeptFirstCells(CsvLine(line, rows[0]), Placed(Records(rows[1..]), rest));
    }
  }

  /** The first record stands on its line, the others from some later line on. */
  lemma PlacedRecords(rows: seq<seq<string>>, line: nat) returns (rest: nat)
    requires rows != [] && rows[0] != []
    ensures Placed(Records(rows), line) == [CsvLine(line, rows[0])] + Placed(Records(rows[1..]), rest)
  {
    hide Placed, Records, Record, Texts, RecordLines;
    RecordsFirst(rows);
    RecordHoldsCells(rows[0]);
    rest := line + RecordLines(Record(rows[0])) + 1;
    PlacedFirst(Record(rows[0]), Records(rows[1..]), line);
  }

  lemma RecordsFirst(rows: seq<seq<string>>)
    requires rows != []
    ensures Records(rows) == [Record(rows[0])] + Records(rows[1..])
  {
  }

  lemma RecordHoldsCells(cells: seq<string>)
    requires cells != []
    ensures Texts(Record(cells)) == cells
  {
  }

  lemma KeptFirstCells(first: CsvLine, rest: seq<CsvLine>)
    ensures CellsOf(Kept([first] + rest)) == (if HasText(first.cells) then [first.cells] else []) + CellsOf(Kept(rest))
  {
    KeptFirst(first, rest);
    if HasText(first.cells) {
      assert ([first] + Kept(rest))[1..] == Kept(rest);
    } else {
      assert [] + Kept(rest) == Kept(rest);
    }
  }

  /** Without columns every line is blank. */
  lemma {:induction false} KeptBlank(rows: seq<seq<string>>, line: nat)
    requires forall i :: 0 <= i < |rows| ==> rows[i] == []
    ensures Kept(Placed(Records(rows), line)) == [] && Filled(rows) == []
  {
    if rows != [] {
      var rs := Records(rows);
      assert rs[1..] == Records(rows[1..]);
      KeptBlank(rows[1..], line + RecordLines(rs[0]) + 1);
      assert Texts([Plain("")]) == [""] && !HasText([""]);
    }
  }

  /** Row by row, what is kept under the semicolon is kept under the comma. */
  lemma {:induction false} FewerKept(commaRows: seq<CsvLine>, semicolonRows: seq<CsvLine>)
    requires |commaRows| == |semicolonRows|
    requires forall k :: 0 <= k < |commaRows| ==> HasText(semicolonRows[k].cells) ==> HasText(commaRows[k].cells)
    ensures |Kept(semicolonRows)| <= |Kept(commaRows)|
  {
    if commaRows != [] {
      FewerKept(commaRows[1..], semicolonRows[1..]);
    }
  }

  lemma {:induction false} KeptHasText(rows: seq<CsvLine>)
    ensures Kept(rows) != [] ==> HasText(Kept(rows)[0].cells)
  {
    if rows != [] {
      KeptHasText(rows[1..]);
    }
  }

  lemma TrimAllHasText(cells: seq<string>)
    ensures HasText(cells) <==> exists i :: 0 <= i < |cells| && TrimAll(cells)[i] != ""
  {
    var trimmed := TrimAll(cells);
    assert forall i :: 0 <= i < |cells| ==> trimmed[i] == Trim(cells[i]);
  }

  /** A header line and rows under it are read right exactly when the header line is kept. */
  lemma HeaderKept(headers: seq<string>, rows: seq<CsvLine>)
    requires headers != []
    ensures var file := FileOf(',', Kept([CsvLine(1, headers)] + rows));
            && (HasText(headers) ==> file.header == TrimAll(headers) && CellsOf(file.rows) == CellsOf(Kept(rows)))
            && (!HasText(headers) ==> !(file.header == TrimAll(headers) && |file.rows| == |Kept(rows)|))
  {
    var tail := Kept(rows);
    KeptHasText(rows);
    KeptFirst(CsvLine(1, headers), rows);
    var records := Recorded(CsvLine(1, headers)) + tail;
    TrimAllHasText(headers);
    if HasText(headers) {
      assert records[0] == CsvLine(1, headers) && records[1..] == tail;
    } else if tail != [] {
      assert records == tail;
      TrimAllHasText(tail[0].cells);
    }
  }

  /** A header line cut into too many cells is never read right. */
  lemma HeaderTooWide(first: CsvLine, rows: seq<CsvLine>, headers: seq<string>, filled: nat)
    requires |first.cells| > |headers| > 0
    requires !HasText(first.cells) ==> |Kept(rows)| <= filled
    ensures var file := FileOf(';', Kept([first] + rows));
            !(file.header == TrimAll(headers) && |file.rows| == filled)
  {
    var tail := Kept(rows);
    KeptFirst(first, rows);
    var records := Recorded(first) + tail;
    if HasText(first.cells) {
      assert records[0] == first;
    } else {
      assert records == tail;
    }
  }

  /** A written file as rows: its header line, and the data lines under it. */
  lemma WrittenRows(rows: seq<Row>, columns: seq<Column>) returns (data: seq<CsvLine>)
    requires columns != []
    ensures Placed(Written(rows, columns), 1) == [CsvLine(1, Headers(columns))] + data
    ensures CellsOf(Kept(data)) == Filled(GuardedRows(rows, columns))
    ensures forall k :: 0 <= k < |data| ==> |data[k].cells| == |columns|
  {
    hide Placed, Kept, GuardedRows, Records, Headers, Fields, CellsOf, Filled, Texts, RecordLines, Record;
    var header := Record(Headers(columns));
    RecordHoldsCells(Headers(columns));
    PlacedFirst(header, Records(GuardedRows(rows, columns)), 1);
    data := DataRows(GuardedRows(rows, columns), 2 + RecordLines(header), |columns|);
  }

  lemma PlacedFirst(fs: seq<Field>, rs: seq<seq<Field>>, line: nat)
    ensures Placed([fs] + rs, line) == [CsvLine(line, Texts(fs))] + Placed(rs, line + RecordLines(fs) + 1)
  {
    hide Texts, RecordLines;
    var all := [fs] + rs;
    assert all[0] == fs && all[1..] == rs;
  }

  lemma DataRows(rows: seq<seq<string>>, line: nat, width: nat) returns (data: seq<CsvLine>)
    requires width > 0 && forall i :: 0 <= i < |rows| ==> |rows[i]| == width
    ensures data == Placed(Records(rows), line)
    ensures CellsOf(Kept(data)) == Filled(rows)
    ensures forall k :: 0 <= k < |data| ==> |data[k].cells| == width
  {
    data := Placed(Records(rows), line);
    KeptCells(rows, line);
    forall k | 0 <= k < |data|
      ensures |data[k].cells| == width
    {
      assert Records(rows)[k] == Record(rows[k]);
    }
  }

  /** Read with the comma: right exactly when the header line is not blank. */
  lemma ReadWithComma(rows: seq<Row>, columns: seq<Column>)
    requires columns != []
    ensures var file := FileOf(',', Kept(Placed(Written(rows, columns), 1)));
            && (ReadsBack(file, rows, columns) <==> HasText(Headers(columns)))
            && (ReadsShape(file, rows, columns) <==> HasText(Headers(columns)))
  {
    hide Rows, Kept, Placed, SwapAll;
    var data := WrittenRows(rows, columns);
    HeaderKept(Headers(columns), data);
  }

  /** Rows read with the comma and with the semicolon, the header line too wide under the semicolon. */
  lemma TooWide(headers: seq<string>, placed: seq<CsvLine>, filled: seq<seq<string>>, swapped: seq<CsvLine>)
    requires headers != [] && CellsOf(Kept(placed)) == filled
    requires AllMatch([CsvLine(1, headers)] + placed, swapped)
    requires forall k :: 0 <= k < |placed| ==> |placed[k].cells| == |headers|
    requires |swapped[0].cells| > |headers|
    ensures var file := FileOf(';', Kept(swapped));
            !(file.header == TrimAll(headers) && |file.rows| == |filled|)
  {
    hide Kept, FileOf, Matches, Trim;
    var all := [CsvLine(1, headers)] + placed;
    assert all[1..] == placed;
    if !HasText(swapped[0].cells) {
      NarrowRows(all, swapped);
      FewerKept(placed, swapped[1..]);
    }
    assert swapped == [swapped[0]] + swapped[1..];
    HeaderTooWide(swapped[0], swapped[1..], headers, |filled|);
  }

  /** Read with the semicolon: never right. */
  lemma ReadWithSemicolon(rows: seq<Row>, columns: seq<Column>)
    requires columns != []
    requires |Rows(SwapAll(FileTokens(Written(rows, columns), "\r\n"), ',', ';'), 1)[0].cells| > |columns|
    ensures var ts := FileTokens(Written(rows, columns), "\r\n");
            !ReadsShape(FileOf(';', Kept(Rows(SwapAll(ts, ',', ';'), 1))), rows, columns)
  {
    hide Rows, Kept, Placed, SwapAll;
    var ts := FileTokens(Written(rows, columns), "\r\n");
    var data := WrittenRows(rows, columns);
    FileRows(Written(rows, columns), "\r\n", 1);
    SwappedRows(ts, 1);
    TooWide(Headers(columns), data, Filled(GuardedRows(rows, columns)), Rows(SwapAll(ts, ',', ';'), 1));
  }

  /** Rows of a single cell have text under the comma whenever they have under the semicolon. */
  lemma NarrowRows(commaRows: seq<CsvLine>, semicolonRows: seq<CsvLine>)
    requires commaRows != [] && AllMatch(commaRows, semicolonRows)
    requires !HasText(semicolonRows[0].cells)
    requires forall k :: 0 <= k < |commaRows| ==> |commaRows[k].cells| == |commaRows[0].cells|
    ensures |commaRows[1..]| == |semicolonRows[1..]|
    ensures forall k :: 0 <= k < |commaRows[1..]| ==>
              HasText(semicolonRows[1..][k].cells) ==> HasText(commaRows[1..][k].cells)
  {
    assert Matches(commaRows[0].cells, semicolonRows[0].cells);
    forall k | 0 <= k < |commaRows| - 1
      ensures HasText(semicolonRows[1..][k].cells) ==> HasText(commaRows[1..][k].cells)
    {
      assert Matches(commaRows[k + 1].cells, semicolonRows[k + 1].cells);
    }
  }

  lemma ReadWithoutColumns(rows: seq<Row>, d: char)
    ensures ReadsBack(FileOf(d, Kept(Placed(Written(rows, []), 1))), rows, [])
  {
    hide Placed, Kept, GuardedRows, HasText;
    var guarded := GuardedRows(rows, []);
    assert ([[]] + guarded)[1..] == guarded;
    RecordsFirst([[]] + guarded);
    KeptBlank([[]] + guarded, 1);
    KeptBlank(guarded, 1);
  }

  /** Which delimiter a written file is read with, and the rows that gives. */
  lemma ReadWritten(rows: seq<Row>, columns: seq<Column>)
    ensures var rs := Written(rows, columns);
            var file := Meaning([BOM] + BuildCsv(rows, columns));
            var swapped := Rows(SwapAll(FileTokens(rs, "\r\n"), ',', ';'), 1);
            if BareIn(rs[0], ';') < |rs[0]| then file == FileOf(',', Kept(Placed(rs, 1)))
            else file == FileOf(';', Kept(swapped)) && |swapped[0].cells| > |rs[0]|
  {
    hide Kept, Lex, Rows, Placed, SwapAll, FileTokens, FileText, FileOf, Written, BareIn;
    var text, rs := BuildCsv(rows, columns), Written(rows, columns);
    assert WithoutBom([BOM] + text) == text;
    WrittenIsFile(rows, columns);
    WrittenDelimiter(rs, ',', ';', "\r\n");
    ReadsWhatIsWritten(rs, ',', "\r\n");
    SemicolonTokens(rs);
  }

  /**
   * A file written with a byte-order mark and read back holds the trimmed
   * headers and exactly the rows that are not blank, in order, if and only if
   * its header line has text and fewer semicolons outside quotes than columns
   * (or there is no column at all). Otherwise not even the headers and the
   * number of rows are right.
   */
  lemma RoundTrip(rows: seq<Row>, columns: seq<Column>)
    ensures ReadsBack(Meaning([BOM] + BuildCsv(rows, columns)), rows, columns) <==>
            columns == [] || (HasText(Headers(columns)) && BareSemicolons(columns) < |columns|)
    ensures ReadsShape(Meaning([BOM] + BuildCsv(rows, columns)), rows, columns) <==>
            columns == [] || (HasText(Headers(columns)) && BareSemicolons(columns) < |columns|)
  {
    hide Kept, Rows, FileOf, Placed, SwapAll, FileTokens, HasText, Meaning, BuildCsv, ReadsBack, ReadsShape;
    ReadWritten(rows, columns);
    var rs := Written(rows, columns);
    BackHasShape(Meaning([BOM] + BuildCsv(rows, columns)), rows, columns);
    if columns == [] {
      ReadWithoutColumns(rows, ',');
      assert rs[0] == [Plain("")] && BareIn(rs[0], ';') == 0;
    } else if BareSemicolons(columns) < |columns| {
      ReadWithComma(rows, columns);
    } else {
      ReadWithSemicolon(rows, columns);
    }
  }

  lemma SemicolonTokens(rs: seq<seq<Field>>)
    requires WellFormedFile(rs, ',')
    ensures Lex(FileText(rs, ',', "\r\n"), ';', false) == SwapAll(FileTokens(rs, "\r\n"), ',', ';')
  {
    LexFile(rs, ',', "\r\n");
    LexSwapped(FileText(rs, ',', "\r\n"), ',', ';', false);
  }

  /**
   * A cell as read gives the original value, trimmed, except one that itself
   * starts with an apostrophe before a formula character, a tab or a carriage
   * return: it loses the apostrophe.
   */
  lemma CellReadsBack(v: string, isFreeText: bool)
    ensures var t := Trim(v);
            var guarded := |t| > 1 && t[0] == '\''
                           && (IsFormula(t[1..]) || t[1] == '\t' || t[1] == '\r');
            && (CellText(Guard(v, isFreeText)) == t <==> !guarded)
            && (guarded ==> CellText(Guard(v, isFreeText)) == t[1..])
            && (guarded <==> LooksGuarded(t))
  {
    if Guard(v, isFreeText) != v {
      TrimPrepend('\'', v);
      TrimPrepend(v[0], v[1..]);
      assert v == [v[0]] + v[1..];
      assert TrimStart(v) == v;
    }
  }
}
