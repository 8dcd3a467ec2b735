/** Building a CSV export (apps/api/src/lib/csvBuilder.ts). */
module CsvWriter {
  import opened Rfc4180

  datatype ColumnType = StringColumn | NumberColumn | IntegerColumn | DateColumn

  datatype Column = Column(key: string, header: string, columnType: ColumnType)

  /** A value as its column prints it, or null. */
  datatype Value = Null | Printed(text: string)

  type Row = map<string, Value>

  function FormatValue(row: Row, c: Column): string {
    if c.key !in row || row[c.key].Null? then "" else row[c.key].text
  }

  /** Text a spreadsheet would run as a formula gets an apostrophe in front. */
  function Guard(v: string, isFreeText: bool): string {
    if isFreeText && |v| > 0 && v[0] in "=+-@" then "'" + v else v
  }

  function EscapeCell(v: string, isFreeText: bool): string {
    var cell := Guard(v, isFreeText);
    if ',' in cell || '"' in cell || '\n' in cell || '\r' in cell then
      "\"" + DoubleQuotes(cell) + "\""
    else
      cell
  }

  function HeaderCells(columns: seq<Column>): seq<string> {
    if columns == [] then []
    else [EscapeCell(columns[0].header, false)] + HeaderCells(columns[1..])
  }

  function RowCells(row: Row, columns: seq<Column>): seq<string> {
    if columns == [] then []
    else [EscapeCell(FormatValue(row, columns[0]), columns[0].columnType.StringColumn?)] + RowCells(row, columns[1..])
  }

  function DataLines(rows: seq<Row>, columns: seq<Column>): seq<string> {
    if rows == [] then [] else [Join(RowCells(rows[0], columns), ",")] + DataLines(rows[1..], columns)
  }

  function BuildCsv(rows: seq<Row>, columns: seq<Column>): string {
    Join([Join(HeaderCells(columns), ",")] + DataLines(rows, columns), "\r\n")
  }
}
