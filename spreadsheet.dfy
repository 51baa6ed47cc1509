/** The workbook as the spreadsheet library exposes it to the repository:
    named sheets of cells addressed by (row, column), both counted from 1. */
module Spreadsheet {
  import opened Models

  /** A value written into a cell. */
  datatype Cell = Text(text: string) | Date(date: DateTime)

  /** The cells that hold a value; an address absent from the map is empty. */
  type Grid = map<(int, int), Cell>

  /** Styling applied to the six columns of one row: the title row is bold,
      thin-bordered on all four sides and filled light gray; a data row is
      thin-bordered on all four sides. */
  datatype RowStyle = TitleStyle | BorderedStyle

  datatype Sheet = Sheet(name: string, cells: Grid, styles: map<int, RowStyle>)

  /** A workbook under construction: its sheets in the order they were added. */
  type Workbook = seq<Sheet>

  /** Why an export fails: a sheet with this name already exists, or the
      workbook to save holds no sheet at all. */
  datatype ExportError = DuplicateSheetName(name: string) | EmptyWorkbook

  function SheetNames(wb: Workbook): (names: set<string>)
    ensures forall k :: 0 <= k < |wb| ==> wb[k].name in names
    ensures forall n :: n in names ==> exists k :: 0 <= k < |wb| && wb[k].name == n
  {
    set k | 0 <= k < |wb| :: wb[k].name
  }

  /** The four cells of a data row the import reads, as the library returns
      them: a text cell read as a string is `None` when the cell is empty, and
      the group-id cell is already coerced to an integer, 0 when empty. */
  datatype ImportRow = ImportRow(
    userName: Option<string>,
    userEmail: Option<string>,
    createdBy: Option<string>,
    groupId: int)

  /** The first sheet of an uploaded workbook: `lastRow` is the last row that
      holds data, and `rows` gives the rows that hold any of the four cells. */
  datatype ImportSheet = ImportSheet(lastRow: int, rows: map<int, ImportRow>)

  const EMPTY_ROW := ImportRow(None, None, None, 0)

  /** What reading the four cells of row `r` yields. */
  function ReadRow(sheet: ImportSheet, r: int): (row: ImportRow)
    ensures r in sheet.rows ==> row == sheet.rows[r]
    ensures row in sheet.rows.Values || row == EMPTY_ROW
  {
    if r in sheet.rows then sheet.rows[r] else EMPTY_ROW
  }
}
