/** The in-memory worksheet the diff writes and the HTML renderer reads:
    columns with header labels, and rows of cells carrying a value and a fill. */
module Worksheet {
  import opened Js

  /** A cell's `fill`: none, a pattern fill with an optional foreground ARGB colour,
      or a fill of another type (a gradient). */
  datatype Fill = NoFill | Pattern(pattern: string, argb: Option<string>) | OtherFill

  /** The fill the diff gives a changed cell: solid yellow. */
  const Highlight: Fill := Pattern("solid", Some("FFFFFF00"))

  /** The renderer's test: `fill.type === 'pattern' && fill.fgColor && fill.fgColor.argb === 'FFFFFF00'`. */
  predicate IsHighlighted(f: Fill) {
    f.Pattern? && f.argb == Some("FFFFFF00")
  }

  lemma HighlightIsHighlighted()
    ensures IsHighlighted(Highlight) && !IsHighlighted(NoFill)
  {
  }

  datatype Cell = Cell(value: Value, fill: Fill)

  /** ExcelJS `row.hasValues`: some cell holds a value other than `undefined`. A fill
      alone does not count. */
  predicate HasValue(row: seq<Cell>) {
    exists j :: 0 <= j < |row| && !row[j].value.Absent?
  }

  /** One entry of `worksheet.columns`. */
  datatype Column = Column(header: string, key: string, width: nat)

  /** A worksheet: its columns and the data rows after the header row. */
  datatype Sheet = Sheet(columns: seq<Column>, rows: seq<seq<Cell>>)

  /** The header row ExcelJS writes from the column headers. */
  function HeaderRow(columns: seq<Column>): (r: seq<Cell>)
    ensures |r| == |columns|
    ensures forall j :: 0 <= j < |r| ==> r[j] == Cell(Str(columns[j].header), NoFill)
  {
    if columns == [] then [] else HeaderRow(columns[..|columns| - 1]) + [Cell(Str(columns[|columns| - 1].header), NoFill)]
  }

  /** The table of rows the saved workbook holds: the header row, then the data rows. */
  function Rows(sheet: Sheet): (t: seq<seq<Cell>>)
    ensures |t| == 1 + |sheet.rows| && t[0] == HeaderRow(sheet.columns) && t[1..] == sheet.rows
  {
    [HeaderRow(sheet.columns)] + sheet.rows
  }
}
