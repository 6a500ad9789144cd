/**
 What InsertRow, RemoveRow and DuplicateRowTo (rows.go), InsertCol and RemoveCol (col.go) make of
 a sheet.
 */
module EditSpec {
  import opened Wrappers
  import opened CellNames
  import opened SheetModel
  import opened AdjustSpec

  /** The first row numbered r, or -1. */
  function FirstNumbered(rows: seq<Row>, r: int): (k: int)
    ensures -1 <= k < |rows|
    ensures k >= 0 ==> rows[k].R == r && forall i :: 0 <= i < k ==> rows[i].R != r
    ensures k < 0 ==> forall i :: 0 <= i < |rows| ==> rows[i].R != r
  {
    if rows == [] then -1
    else if rows[0].R == r then 0
    else
      var k := FirstNumbered(rows[1..], r);
      if k < 0 then -1 else k + 1
  }

  function InsertRow(s: Sheet, row: int): (result: (Sheet, Outcome)) {
    if row < 1 then (s, Failed(InvalidRowNumber(row))) else AdjustHelper(s, Rows, row, 1)
  }

  function RemoveRow(s: Sheet, row: int): (result: (Sheet, Outcome)) {
    if row < 1 then (s, Failed(InvalidRowNumber(row)))
    else if row > |s.rows| then (s, Done)
    else
      var k := FirstNumbered(s.rows, row);
      if k < 0 then (s, Done)
      else AdjustHelper(s.(rows := s.rows[..k] + s.rows[k + 1..]), Rows, row, -1)
  }

  function InsertCol(s: Sheet, col: string): (result: (Sheet, Outcome)) {
    match ColumnNumber(col)
    case Err(e) => (s, Failed(e))
    case Ok(num) => AdjustHelper(s, Columns, num, 1)
  }

  function Letters(cell: string): (letters: string) {
    match SplitCellName(cell) case Ok(parts) => parts.0 case Err(_) => ""
  }

  function FirstIndex(s: seq<string>, x: string): (k: int)
    ensures -1 <= k < |s|
    ensures k >= 0 ==> s[k] == x && forall j :: 0 <= j < k ==> s[j] != x
    ensures k < 0 ==> forall j :: 0 <= j < |s| ==> s[j] != x
  {
    if s == [] then -1
    else if s[0] == x then 0
    else
      var k := FirstIndex(s[1..], x);
      if k < 0 then -1 else k + 1
  }

  function AllLetters(C: seq<Cell>): (letters: seq<string>)
    ensures |letters| == |C| && forall j :: 0 <= j < |C| ==> letters[j] == Letters(C[j].R)
  {
    seq(|C|, j requires 0 <= j < |C| => Letters(C[j].R))
  }

  /** The first cell whose column letters are col, letter case included, or -1. */
  function FirstLettered(C: seq<Cell>, col: string): (k: int)
    ensures -1 <= k < |C|
  {
    FirstIndex(AllLetters(C), col)
  }

  function DropCell(r: Row, col: string): (r': Row) {
    var k := FirstLettered(r.C, col);
    if k < 0 then r else r.(C := r.C[..k] + r.C[k + 1..])
  }

  function DropColumn(rows: seq<Row>, col: string): (rows': seq<Row>)
    ensures |rows'| == |rows| && forall i :: 0 <= i < |rows| ==> rows'[i] == DropCell(rows[i], col)
  {
    seq(|rows|, i requires 0 <= i < |rows| => DropCell(rows[i], col))
  }

  function RemoveCol(s: Sheet, col: string): (result: (Sheet, Outcome)) {
    match ColumnNumber(col)
    case Err(e) => (s, Failed(e))
    case Ok(num) => AdjustHelper(s.(rows := DropColumn(s.rows, col)), Columns, num, -1)
  }

  /**
   DuplicateRowTo: the copy is taken before the adjustment but shares its cells with the source,
   so it sees the names that the adjustment gives them.
   */
  function DuplicateRowTo(s: Sheet, row: int, row2: int): (result: (Sheet, Outcome)) {
    if row < 1 then (s, Failed(InvalidRowNumber(row)))
    else if row > |s.rows| || row2 < 1 || row == row2 then (s, Done)
    else
      var k := FirstNumbered(s.rows, row);
      if k < 0 then (s, Done)
      else
        var shared := ShiftRow(s.rows[k], row2, 1);
        var (s1, o) := AdjustHelper(s, Rows, row2, 1);
        if !o.Done? then (s1, o)
        else
          var k2 := FirstNumbered(s1.rows, row2);
          var rowCopy := RenumberRow(shared, row2);
          if k2 < 0 && |s1.rows| >= row2 then (s1, Done)
          else if k2 >= 0 then (s1.(rows := s1.rows[k2 := rowCopy]), Done)
          else (s1.(rows := s1.rows + [rowCopy]), Done)
  }
}
