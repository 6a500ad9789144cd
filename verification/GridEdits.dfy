/** On a dense grid, every structural edit is the simple edit of the abstract sheet, and the grid stays dense. */
module GridEdits {
  import opened Wrappers
  import opened CellNames
  import opened SheetModel
  import opened AdjustSpec
  import opened EditSpec
  import opened Normalise

  // ---------- what the edits mean

  ghost predicate BlankLine(D: seq<Row>, r: int) {
    WidthAt(D, r) == 0 && AttrsAt(D, r) == PLAIN_ROW
  }

  /** Line n is new and blank; lines from n on have moved down by one. */
  ghost predicate LineInserted(D: seq<Row>, rows: seq<Row>, n: int) {
    && Dense(D)
    && |D| == (if n <= |rows| then |rows| + 1 else |rows|)
    && BlankLine(D, n)
    && (forall q :: q >= 1 ==> SameLine(D, Shift(q, n), rows, q))
  }

  /** Line n is gone; lines below it have moved up by one. */
  ghost predicate LineRemoved(D: seq<Row>, rows: seq<Row>, n: int) {
    && Dense(D)
    && |D| == |rows| - 1
    && (forall q :: q >= 1 ==> SameLine(D, q, rows, Shift(q, n)))
  }

  /** On line r, column n of D is new and blank and columns from n on have moved right. */
  ghost predicate CellInserted(D: seq<Row>, rows: seq<Row>, r: int, n: int) {
    && WidthAt(D, r) == WidthAt(rows, r) + (if WidthAt(rows, r) >= n then 1 else 0)
    && AttrsAt(D, r) == AttrsAt(rows, r)
    && At(D, n, r) == BLANK
    && (forall c :: c >= 1 ==> At(D, Shift(c, n), r) == At(rows, c, r))
  }

  /** Column n is new and blank on every line; rows that end before it are untouched. */
  ghost predicate ColumnInserted(D: seq<Row>, rows: seq<Row>, n: int) {
    && Dense(D)
    && |D| == |rows|
    && (forall r :: r >= 1 ==> CellInserted(D, rows, r, n))
  }

  /** On line r, column n of rows is gone and columns right of it have moved left. */
  ghost predicate CellRemoved(D: seq<Row>, rows: seq<Row>, r: int, n: int) {
    && WidthAt(D, r) == WidthAt(rows, r) - (if WidthAt(rows, r) >= n then 1 else 0)
    && AttrsAt(D, r) == AttrsAt(rows, r)
    && (forall c :: c >= 1 ==> At(D, c, r) == At(rows, Shift(c, n), r))
  }

  ghost predicate ColumnRemoved(D: seq<Row>, rows: seq<Row>, n: int) {
    && Dense(D)
    && |D| == |rows|
    && (forall r :: r >= 1 ==> CellRemoved(D, rows, r, n))
  }

  // ---------- rows that are dense one by one

  /** Rows in ascending order, each dense on its own line. */
  ghost predicate Spaced(rows: seq<Row>) {
    && (forall k :: 0 <= k < |rows| ==> rows[k].R >= 1 && DenseRow(rows[k], rows[k].R))
    && (forall i, k :: 0 <= i < k < |rows| ==> rows[i].R < rows[k].R)
  }

  lemma SpacedLine(rows: seq<Row>, k: nat)
    requires Spaced(rows) && k < |rows|
    ensures LastNumbered(rows, rows[k].R) == k
    ensures NamedWidth(rows, rows[k].R) == |rows[k].C| && NamedAttrs(rows, rows[k].R) == rows[k].attrs
    ensures forall c :: NamedAt(rows, c, rows[k].R) == if 1 <= c <= |rows[k].C| then rows[k].C[c - 1].data else BLANK
  {
    hide CellName, ColOf;
    assert DenseRow(rows[k], rows[k].R);
    DenseCells(rows[k].C, rows[k].R);
  }

  lemma SpacedIsAscending(rows: seq<Row>)
    requires Spaced(rows)
    ensures Ascending(rows)
  {
    hide CellName, AscendingCells;
    forall i | 0 <= i < |rows|
      ensures AscendingCells(rows[i].C, rows[i].R)
    {
      assert DenseRow(rows[i], rows[i].R);
      DenseCells(rows[i].C, rows[i].R);
    }
  }

  lemma RenumberDense(row: Row, a: nat, b: nat)
    requires a >= 1 && b >= 1 && DenseRow(row, a)
    ensures DenseRow(RenumberRow(row, b), b)
    ensures Renumbered(RenumberRow(row, b), row)
  {
    hide CellName, RenumberCell;
    forall j | 0 <= j < |row.C|
      ensures RenumberRow(row, b).C[j] == Cell(CellName(j + 1, b), row.C[j].data)
    {
      RenumberNamed(row.C[j], j + 1, a, b);
    }
  }

  lemma RenumberNamed(c: Cell, col: nat, a: nat, b: nat)
    requires col >= 1 && a >= 1 && b >= 1 && c.R == CellName(col, a)
    ensures RenumberCell(c, b) == Cell(CellName(col, b), c.data)
  {
    CoordinatesRoundTrip(col, a);
    CellNames.RenameRow(col, b);
  }

  // ---------- inserting and removing a line

  /** Row A is row B under another number. */
  ghost predicate Renumbered(A: Row, B: Row) {
    && A.attrs == B.attrs && |A.C| == |B.C|
    && (forall j :: 0 <= j < |B.C| ==> A.C[j].data == B.C[j].data)
  }

  lemma ShiftedRows(rows: seq<Row>, n: int)
    requires Dense(rows) && n >= 1
    ensures Spaced(AdjustRows(rows, n, 1))
    ensures forall k :: 0 <= k < |rows| ==> AdjustRows(rows, n, 1)[k].R == Shift(k + 1, n)
    ensures forall k :: 0 <= k < |rows| ==> Renumbered(AdjustRows(rows, n, 1)[k], rows[k])
  {
    hide CellName, RenumberCell;
    var A := AdjustRows(rows, n, 1);
    forall k | 0 <= k < |rows|
      ensures A[k].R == Shift(k + 1, n) && DenseRow(A[k], A[k].R) && Renumbered(A[k], rows[k])
    {
      assert DenseRow(rows[k], k + 1);
      RenumberDense(rows[k], k + 1, k + 2);
    }
  }

  lemma HeldLine(D: seq<Row>, A: seq<Row>, rows: seq<Row>, k: nat)
    requires Holds(D, A) && Spaced(A) && k < |A| == |rows| && Renumbered(A[k], rows[k])
    ensures SameLine(D, A[k].R, rows, k + 1)
  {
    hide Dense, DenseRow, NamedAt, NamedWidth, NamedAttrs;
    SpacedLine(A, k);
    forall c | c >= 1
      ensures At(D, c, A[k].R) == At(rows, c, k + 1)
    {
      assert At(D, c, A[k].R) == NamedAt(A, c, A[k].R);
    }
  }

  /** InsertRow on the grid. */
  lemma InsertLine(rows: seq<Row>, n: int)
    requires Dense(rows) && n >= 1
    ensures Check(AdjustRows(rows, n, 1)).1 == Done
    ensures LineInserted(Check(AdjustRows(rows, n, 1)).0, rows, n)
  {
    hide CellName, Check, NamedAt, NamedWidth, NamedAttrs, AdjustRows, Spaced, Renumbered, Dense, Ascending;
    var A := AdjustRows(rows, n, 1);
    ShiftedRows(rows, n);
    SpacedIsAscending(A);
    CheckAscending(A);
    var D := Check(A).0;
    forall q | q >= 1
      ensures SameLine(D, Shift(q, n), rows, q)
    {
      if q <= |A| {
        HeldLine(D, A, rows, q - 1);
      } else {
        assert Shift(q, n) > |D|;
      }
    }
    MissingLine(A, n);
  }

  lemma InsertedSize(D: seq<Row>, rows: seq<Row>, n: int)
    requires LineInserted(D, rows, n)
    ensures |D| == if n <= |rows| then |rows| + 1 else |rows|
  {
  }

  lemma UntouchedBelow(D: seq<Row>, rows: seq<Row>, n: int)
    requires Dense(rows) && n > |rows| && LineInserted(D, rows, n)
    ensures D == rows
  {
    hide Dense, At, AttrsAt, WidthAt;
    forall q | 1 <= q <= |D|
      ensures SameLine(D, q, rows, q)
    {
      assert SameLine(D, Shift(q, n), rows, q);
    }
    DenseGridsAgree(D, rows);
  }

  lemma MissingLine(A: seq<Row>, r: int)
    requires forall k :: 0 <= k < |A| ==> A[k].R != r
    ensures NamedWidth(A, r) == 0 && NamedAttrs(A, r) == PLAIN_ROW && forall c :: NamedAt(A, c, r) == BLANK
  {
  }

  lemma LinesAgree(A: seq<Row>, k: nat, rows: seq<Row>, q: nat)
    requires k < |A| && q < |rows| && Renumbered(A[k], rows[q])
    ensures SameLine(A, k + 1, rows, q + 1)
  {
  }

  lemma DenseNumber(rows: seq<Row>, n: int)
    requires Dense(rows)
    ensures FirstNumbered(rows, n) == if 1 <= n <= |rows| then n - 1 else -1
  {
    hide CellName;
    var k := FirstNumbered(rows, n);
    if k >= 0 { assert DenseRow(rows[k], k + 1); }
    if 1 <= n <= |rows| { assert DenseRow(rows[n - 1], n); }
  }

  /** RemoveRow on the grid: the rows below close up, and nothing is left to check. */
  lemma RemoveLine(rows: seq<Row>, n: int)
    requires Dense(rows) && 1 <= n <= |rows|
    ensures var A := AdjustRows(rows[..n - 1] + rows[n..], n, -1);
            LineRemoved(A, rows, n) && Check(A) == (A, Done)
  {
    hide CellName, Check, RenumberCell;
    var cut := rows[..n - 1] + rows[n..];
    var A := AdjustRows(cut, n, -1);
    forall k | 0 <= k < |A|
      ensures DenseRow(A[k], k + 1) && Renumbered(A[k], rows[Shift(k + 1, n) - 1])
    {
      var q := Shift(k + 1, n) - 1;
      assert cut[k] == rows[q] && DenseRow(rows[q], q + 1);
      RenumberDense(rows[q], q + 1, k + 1);
    }
    forall q | q >= 1
      ensures SameLine(A, q, rows, Shift(q, n))
    {
      if q <= |A| { LinesAgree(A, q - 1, rows, Shift(q, n) - 1); }
    }
    CheckDense(A);
  }

  // ---------- inserting and removing a column

  lemma ShiftNamed(c: Cell, col: nat, row: nat, n: int, offset: int)
    requires col >= 1 && row >= 1 && c.R == CellName(col, row) && col + offset >= 1
    ensures ShiftCell(c, n, offset) == if n <= col then Cell(CellName(col + offset, row), c.data) else c
    ensures ColOf(c) == col
  {
    CoordinatesRoundTrip(col, row);
  }

  /** The cells of a dense row after the columns from n on have moved right. */
  ghost predicate CellsMovedRight(A: seq<Cell>, C: seq<Cell>, r: nat, n: int) {
    && |A| == |C|
    && (forall j :: 0 <= j < |C| ==> A[j].data == C[j].data)
    && (forall j :: 0 <= j < |C| ==> A[j].R == CellName(Shift(j + 1, n), r) && ColOf(A[j]) == Shift(j + 1, n))
  }

  lemma MoveCellsRight(row: Row, r: nat, n: int)
    requires r >= 1 && n >= 1 && DenseRow(row, r)
    ensures CellsMovedRight(ShiftCells(row, n, 1).C, row.C, r, n)
  {
    hide CellName, ShiftCell, ColOf;
    var A := ShiftCells(row, n, 1).C;
    forall j | 0 <= j < |row.C|
      ensures A[j] == Cell(CellName(Shift(j + 1, n), r), row.C[j].data)
      ensures ColOf(A[j]) == Shift(j + 1, n)
    {
      ShiftNamed(row.C[j], j + 1, r, n, 1);
      ShiftNamed(A[j], Shift(j + 1, n), r, n, 1);
    }
  }

  lemma MovedRightNamed(A: seq<Cell>, C: seq<Cell>, r: nat, n: int)
    requires r >= 1 && n >= 1 && CellsMovedRight(A, C, r, n)
    ensures AscendingCells(A, r)
    ensures LastColumn(A) == |C| + (if |C| >= n then 1 else 0)
    ensures NamedCell(A, n) == BLANK
    ensures forall c :: c >= 1 ==> NamedCell(A, Shift(c, n)) == if c <= |C| then C[c - 1].data else BLANK
  {
    hide CellName, ColOf, LastInColumn;
    forall c | c >= 1
      ensures NamedCell(A, Shift(c, n)) == if c <= |C| then C[c - 1].data else BLANK
    {
      var k := LastInColumn(A, Shift(c, n));
      if c <= |C| { assert ColOf(A[c - 1]) == Shift(c, n); }
    }
  }

  lemma HeldCells(D: seq<Row>, A: seq<Row>, rows: seq<Row>, r: nat, n: int)
    requires n >= 1 && 1 <= r <= |A| == |rows| && Holds(D, A)
    requires LastNumbered(A, r) == r - 1 && A[r - 1].attrs == rows[r - 1].attrs
    requires CellsMovedRight(A[r - 1].C, rows[r - 1].C, r, n)
    ensures CellInserted(D, rows, r, n)
  {
    hide Dense, DenseRow, NamedCell, LastColumn, CellsMovedRight, AscendingCells;
    MovedRightNamed(A[r - 1].C, rows[r - 1].C, r, n);
    forall c | c >= 1
      ensures At(D, Shift(c, n), r) == At(rows, c, r)
    {
      assert At(D, Shift(c, n), r) == NamedAt(A, Shift(c, n), r);
    }
    assert At(D, n, r) == NamedAt(A, n, r);
  }

  lemma InOrder(A: seq<Row>, r: nat)
    requires 1 <= r <= |A| && forall k :: 0 <= k < |A| ==> A[k].R == k + 1
    ensures LastNumbered(A, r) == r - 1
  {
    assert A[r - 1].R == r;
  }

  /** InsertCol on the grid. */
  lemma InsertColumn(rows: seq<Row>, n: int)
    requires Dense(rows) && n >= 1
    ensures Check(AdjustCols(rows, n, 1)).1 == Done
    ensures ColumnInserted(Check(AdjustCols(rows, n, 1)).0, rows, n)
  {
    hide CellName, ColOf, Check, ShiftCell, AscendingCells, CellsMovedRight;
    var A := AdjustCols(rows, n, 1);
    forall k | 0 <= k < |A|
      ensures A[k].R == k + 1 && A[k].attrs == rows[k].attrs
      ensures CellsMovedRight(A[k].C, rows[k].C, k + 1, n)
      ensures AscendingCells(A[k].C, k + 1)
    {
      assert DenseRow(rows[k], k + 1);
      MoveCellsRight(rows[k], k + 1, n);
      MovedRightNamed(A[k].C, rows[k].C, k + 1, n);
    }
    CheckAscending(A);
    var D := Check(A).0;
    forall r | r >= 1
      ensures CellInserted(D, rows, r, n)
    {
      if r <= |A| {
        InOrder(A, r);
        HeldCells(D, A, rows, r, n);
      }
    }
  }

  lemma LettersOfName(col: nat, row: nat)
    requires col >= 1 && row >= 1
    ensures Letters(CellName(col, row)) == ColumnName(col)
  {
    CoordinatesRoundTrip(col, row);
  }

  lemma ColumnNamesDistinct(a: nat, b: nat)
    ensures ColumnName(a) == ColumnName(b) <==> a == b
  {
    ColumnValueOfName(a);
    ColumnValueOfName(b);
  }

  /** In a dense row the canonical letters of column n find the n-th cell. */
  lemma FindColumn(row: Row, r: nat, n: nat)
    requires r >= 1 && n >= 1 && DenseRow(row, r)
    ensures FirstLettered(row.C, ColumnName(n)) == if n <= |row.C| then n - 1 else -1
  {
    hide CellName, Letters, ColumnName, FirstIndex;
    var letters := AllLetters(row.C);
    forall j | 0 <= j < |row.C|
      ensures letters[j] == ColumnName(n) <==> j + 1 == n
    {
      LettersOfName(j + 1, r);
      ColumnNamesDistinct(j + 1, n);
    }
    var k := FirstIndex(letters, ColumnName(n));
    if n <= |row.C| { assert letters[n - 1] == ColumnName(n); }
  }

  ghost predicate CellCut(A: Row, row: Row, n: int) {
    && A.attrs == row.attrs
    && |A.C| == |row.C| - (if n <= |row.C| then 1 else 0)
    && (forall j :: 0 <= j < |A.C| ==> A.C[j].data == row.C[Shift(j + 1, n) - 1].data)
  }

  lemma DropDense(row: Row, r: nat, n: nat)
    requires r >= 1 && n >= 1 && DenseRow(row, r)
    ensures var cut := DropCell(row, ColumnName(n));
            && cut.R == row.R && cut.attrs == row.attrs
            && |cut.C| == |row.C| - (if n <= |row.C| then 1 else 0)
            && forall j :: 0 <= j < |cut.C| ==> cut.C[j] == row.C[Shift(j + 1, n) - 1]
  {
    hide CellName, Letters, ColumnName, FirstLettered;
    FindColumn(row, r, n);
  }

  lemma RemoveFromRow(row: Row, r: nat, n: nat)
    requires r >= 1 && n >= 1 && DenseRow(row, r)
    ensures var A := ShiftCells(DropCell(row, ColumnName(n)), n, -1);
            DenseRow(A, r) && A.R == row.R && CellCut(A, row, n)
  {
    hide CellName, ShiftCell, DropCell, ColumnName;
    DropDense(row, r, n);
    var cut := DropCell(row, ColumnName(n));
    forall j | 0 <= j < |cut.C|
      ensures ShiftCell(cut.C[j], n, -1) == Cell(CellName(j + 1, r), row.C[Shift(j + 1, n) - 1].data)
    {
      ShiftLeft(cut.C[j], Shift(j + 1, n), r, n);
    }
  }

  lemma ShiftLeft(c: Cell, col: nat, row: nat, n: int)
    requires col >= 1 && row >= 1 && n >= 1 && col != n && c.R == CellName(col, row)
    ensures ShiftCell(c, n, -1) == Cell(CellName(if col > n then col - 1 else col, row), c.data)
  {
    hide CellName, CellNameToCoordinates;
    CoordinatesRoundTrip(col, row);
  }

  lemma CutLine(A: seq<Row>, rows: seq<Row>, r: nat, n: int)
    requires n >= 1 && 1 <= r <= |A| == |rows| && CellCut(A[r - 1], rows[r - 1], n)
    ensures CellRemoved(A, rows, r, n)
  {
  }

  /** RemoveCol on the grid, with the canonical letters of the column. */
  lemma RemoveColumn(rows: seq<Row>, n: nat)
    requires Dense(rows) && n >= 1
    ensures var A := AdjustCols(DropColumn(rows, ColumnName(n)), n, -1);
            ColumnRemoved(A, rows, n) && Check(A) == (A, Done)
  {
    hide CellName, ShiftCell, DropCell, ColumnName, Check, CellCut;
    var A := AdjustCols(DropColumn(rows, ColumnName(n)), n, -1);
    forall k | 0 <= k < |A|
      ensures DenseRow(A[k], k + 1) && CellCut(A[k], rows[k], n)
    {
      assert DenseRow(rows[k], k + 1);
      RemoveFromRow(rows[k], k + 1, n);
    }
    forall r | r >= 1
      ensures CellRemoved(A, rows, r, n)
    {
      if r <= |A| { CutLine(A, rows, r, n); }
    }
    CheckDense(A);
  }
}
