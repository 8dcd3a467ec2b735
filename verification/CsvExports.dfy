/** A whole export read back as the values it was made of. */
module CsvExports {
  import opened Text
  import opened CsvSyntax
  import opened CsvReader
  import opened CsvWriter
  import opened CsvRoundTrip

  /** The values of a row as printed, before any apostrophe. */
  function PlainCells(row: Row, columns: seq<Column>): (r: seq<string>)
    ensures |r| == |columns|
    ensures forall i :: 0 <= i < |r| ==> r[i] == FormatValue(row, columns[i])
  {
    if columns == [] then [] else [FormatValue(row, columns[0])] + PlainCells(row, columns[1..])
  }

  function PlainRows(rows: seq<Row>, columns: seq<Column>): (r: seq<seq<string>>)
    ensures |r| == |rows|
  {
    if rows == [] then [] else [PlainCells(rows[0], columns)] + PlainRows(rows[1..], columns)
  }

  function CellTexts(cells: seq<string>): (r: seq<string>)
    ensures |r| == |cells|
    ensures forall i :: 0 <= i < |r| ==> r[i] == CellText(cells[i])
  {
    if cells == [] then [] else [CellText(cells[0])] + CellTexts(cells[1..])
  }

  function RowTexts(rows: seq<seq<string>>): (r: seq<seq<string>>)
    ensures |r| == |rows|
  {
    if rows == [] then [] else [CellTexts(rows[0])] + RowTexts(rows[1..])
  }

  function TrimmedRows(rows: seq<seq<string>>): (r: seq<seq<string>>)
    ensures |r| == |rows|
  {
    if rows == [] then [] else [TrimAll(rows[0])] + TrimmedRows(rows[1..])
  }

  /** The trimmed headers and, in order, the rows whose values are not blank, with every value trimmed. */
  predicate ReadsOriginal(file: CsvFile, rows: seq<Row>, columns: seq<Column>) {
    && file.header == TrimAll(Headers(columns))
    && RowTexts(CellsOf(file.rows)) == TrimmedRows(Filled(PlainRows(rows, columns)))
  }

  predicate NoneGuarded(cells: seq<string>) {
    forall i :: 0 <= i < |cells| ==> !LooksGuarded(Trim(cells[i]))
  }

  predicate AllUnguarded(rows: seq<seq<string>>) {
    forall k :: 0 <= k < |rows| ==> NoneGuarded(rows[k])
  }

  /** A guard does not make a blank value count, nor the other way round. */
  lemma GuardKeepsBlank(v: string, isFreeText: bool)
    ensures Trim(Guard(v, isFreeText)) == "" <==> Trim(v) == ""
  {
    if Guard(v, isFreeText) != v {
      TrimEmpty(v);
      TrimEmpty(Guard(v, isFreeText));
      assert !IsSpace(v[0]) && !IsSpace('\'');
      assert Guard(v, isFreeText)[0] == '\'';
    }
  }

  lemma GuardKeepsText(row: Row, columns: seq<Column>)
    ensures HasText(GuardedCells(row, columns)) <==> HasText(PlainCells(row, columns))
  {
    hide Trim, Guard;
    var guarded, plain := GuardedCells(row, columns), PlainCells(row, columns);
    forall i | 0 <= i < |columns|
      ensures Trim(guarded[i]) == "" <==> Trim(plain[i]) == ""
    {
      GuardKeepsBlank(plain[i], columns[i].columnType.StringColumn?);
    }
  }

  lemma RowReadsBack(row: Row, columns: seq<Column>)
    ensures CellTexts(GuardedCells(row, columns)) == TrimAll(PlainCells(row, columns)) <==> NoneGuarded(PlainCells(row, columns))
  {
    hide Trim, Guard, CellText, LooksGuarded;
    var guarded, plain := GuardedCells(row, columns), PlainCells(row, columns);
    forall i | 0 <= i < |columns|
      ensures CellTexts(guarded)[i] == TrimAll(plain)[i] <==> !LooksGuarded(Trim(plain[i]))
    {
      CellReadsBack(plain[i], columns[i].columnType.StringColumn?);
    }
    if NoneGuarded(plain) {
      assert CellTexts(guarded) == TrimAll(plain);
    }
  }

  lemma UnguardedFirst(cells: seq<string>, rows: seq<seq<string>>)
    ensures AllUnguarded([cells] + rows) <==> NoneGuarded(cells) && AllUnguarded(rows)
  {
    var all := [cells] + rows;
    assert all[0] == cells && forall k :: 0 <= k < |rows| ==> all[k + 1] == rows[k];
  }

  lemma FirstText(guarded: seq<string>, plain: seq<string>, rows: seq<seq<string>>, plains: seq<seq<string>>)
    requires |rows| == |plains|
    ensures RowTexts([guarded] + rows) == TrimmedRows([plain] + plains) <==>
            CellTexts(guarded) == TrimAll(plain) && RowTexts(rows) == TrimmedRows(plains)
  {
    var a, b := RowTexts([guarded] + rows), TrimmedRows([plain] + plains);
    assert ([guarded] + rows)[1..] == rows && ([plain] + plains)[1..] == plains;
    assert a[0] == CellTexts(guarded) && b[0] == TrimAll(plain);
    assert a[1..] == RowTexts(rows) && b[1..] == TrimmedRows(plains);
  }

  lemma {:induction false} RowsReadBack(rows: seq<Row>, columns: seq<Column>)
    ensures var (guarded, plain) := (Filled(GuardedRows(rows, columns)), Filled(PlainRows(rows, columns)));
            && |guarded| == |plain|
            && (RowTexts(guarded) == TrimmedRows(plain) <==> AllUnguarded(plain))
  {
    if rows != [] {
      hide HasText, AllUnguarded, NoneGuarded, CellTexts, TrimAll, GuardedCells, PlainCells, RowTexts, TrimmedRows;
      RowsReadBack(rows[1..], columns);
      GuardKeepsText(rows[0], columns);
      RowReadsBack(rows[0], columns);
      var guarded, plain := Filled(GuardedRows(rows[1..], columns)), Filled(PlainRows(rows[1..], columns));
      FilledFirst(GuardedCells(rows[0], columns), GuardedRows(rows[1..], columns));
      FilledFirst(PlainCells(rows[0], columns), PlainRows(rows[1..], columns));
      FirstText(GuardedCells(rows[0], columns), PlainCells(rows[0], columns), guarded, plain);
      UnguardedFirst(PlainCells(rows[0], columns), plain);
    }
  }

  lemma FilledFirst(cells: seq<string>, rows: seq<seq<string>>)
    ensures Filled([cells] + rows) == if HasText(cells) then [cells] + Filled(rows) else Filled(rows)
  {
    assert ([cells] + rows)[1..] == rows;
  }

  /**
   * A file sent and read back, every cell through cellText, gives the trimmed
   * headers and exactly the rows of values that are not blank, trimmed and in
   * order, if and only if its header line has text and fewer semicolons outside
   * quotes than columns (or there is no column), and no value of those rows
   * itself starts, trimmed, with an apostrophe before a formula character.
   */
  lemma ExportReadsBack(rows: seq<Row>, columns: seq<Column>)
    ensures ReadsOriginal(Meaning([BOM] + BuildCsv(rows, columns)), rows, columns) <==>
            && (columns == [] || (HasText(Headers(columns)) && BareSemicolons(columns) < |columns|))
            && AllUnguarded(Filled(PlainRows(rows, columns)))
  {
    hide HasText, BareSemicolons, AllUnguarded, Filled, PlainRows, GuardedRows, RowTexts, TrimmedRows, Meaning, BuildCsv;
    RoundTrip(rows, columns);
    RowsReadBack(rows, columns);
  }
}
