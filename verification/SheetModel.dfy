/**
 The worksheet as data: the parts of xlsxWorksheet (xmlWorksheet.go) that the grid operations
 read or write, the density that lets positional and by-name access agree, and the abstract view.
 */
module SheetModel {
  import opened Wrappers
  import opened CellNames

  /** A cell without its name. F points into the sheet's formula records. */
  datatype CellData = CellData(S: int, T: string, F: Option<nat>, V: string, preserveSpace: bool)

  const BLANK := CellData(0, "", None, "", false)

  datatype Cell = Cell(R: string, data: CellData)

  datatype RowAttrs = RowAttrs(Ht: real, CustomHeight: bool, Hidden: bool, OutlineLevel: nat)

  const PLAIN_ROW := RowAttrs(0.0, false, false, 0)

  datatype Row = Row(R: int, attrs: RowAttrs, C: seq<Cell>)

  datatype Hyperlink = Hyperlink(Ref: string, RID: string, Location: string)

  datatype Col = Col(Min: int, Max: int, Width: real, Style: int)

  datatype Sheet = Sheet(
    rows: seq<Row>,
    links: Option<seq<Hyperlink>>,
    merges: Option<seq<string>>,
    filter: Option<string>,
    cols: Option<seq<Col>>,
    formulas: seq<string>)

  const EMPTY_SHEET := Sheet([], None, None, None, None, [])

  datatype Direction = Columns | Rows

  function BlankRow(r: int): (row: Row) { Row(r, PLAIN_ROW, []) }

  function BlankCell(c: nat, r: nat): (cell: Cell) { Cell(CellName(c, r), BLANK) }

  /** A row is dense when its cells are named for columns 1, 2, 3, ... of its own line. */
  ghost predicate DenseRow(row: Row, r: nat) {
    && row.R == r
    && forall j :: 0 <= j < |row.C| ==> row.C[j].R == CellName(j + 1, r)
  }

  /** A grid is dense when its rows are lines 1, 2, 3, ..., each of them dense. */
  ghost predicate Dense(rows: seq<Row>) {
    forall i :: 0 <= i < |rows| ==> DenseRow(rows[i], i + 1)
  }

  predicate InGrid(rows: seq<Row>, c: int, r: int) {
    1 <= r <= |rows| && 1 <= c <= |rows[r - 1].C|
  }

  /** The abstract sheet: what stands at each position, blank outside the stored grid. */
  function At(rows: seq<Row>, c: int, r: int): (data: CellData) {
    if InGrid(rows, c, r) then rows[r - 1].C[c - 1].data else BLANK
  }

  function AttrsAt(rows: seq<Row>, r: int): (attrs: RowAttrs) {
    if 1 <= r <= |rows| then rows[r - 1].attrs else PLAIN_ROW
  }

  /** Number of cells stored on a line. */
  function WidthAt(rows: seq<Row>, r: int): (width: nat) {
    if 1 <= r <= |rows| then |rows[r - 1].C| else 0
  }

  /** Where line (or column) v stands once a new line n is in place; every line but n is one of these. */
  function Shift(v: int, n: int): (v': int) {
    if v >= n then v + 1 else v
  }

  /** Line r of D is line q of rows, in width, attributes and content. */
  ghost predicate SameLine(D: seq<Row>, r: int, rows: seq<Row>, q: int) {
    && WidthAt(D, r) == WidthAt(rows, q)
    && AttrsAt(D, r) == AttrsAt(rows, q)
    && (forall c :: c >= 1 ==> At(D, c, r) == At(rows, c, q))
  }

  /** Two dense grids of one shape and one content are the same grid. */
  lemma DenseGridsAgree(a: seq<Row>, b: seq<Row>)
    requires Dense(a) && Dense(b) && |a| == |b|
    requires forall r :: 1 <= r <= |a| ==> SameLine(a, r, b, r)
    ensures a == b
  {
    forall i | 0 <= i < |a|
      ensures a[i] == b[i]
    {
      assert DenseRow(a[i], i + 1) && DenseRow(b[i], i + 1);
      assert SameLine(a, i + 1, b, i + 1);
      forall j | 0 <= j < |a[i].C|
        ensures a[i].C[j] == b[i].C[j]
      {
        assert At(a, j + 1, i + 1) == At(b, j + 1, i + 1);
      }
      assert a[i].C == b[i].C;
    }
  }

  // ---------- Go conveniences: results whose error is discarded

  function CoordsOf(cell: string): (at: (int, int)) {
    match CellNameToCoordinates(cell)
    case Ok(at) => at
    case Err(_) => (-1, -1)
  }

  function NameOf(col: int, row: int): (name: string) {
    match CoordinatesToCellName(col, row)
    case Ok(name) => name
    case Err(_) => ""
  }
}
