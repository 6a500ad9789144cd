/** RemoveCol compares column letters with case: what it does under any accepted spelling, and when it removes the column. */
module ColumnLetters {
  import opened Wrappers
  import opened CellNames
  import opened SheetModel
  import opened AdjustSpec
  import opened EditSpec
  import opened CellSpec
  import opened Normalise
  import opened GridEdits
  import opened Areas
  import opened References
  import opened SheetEdits
  import opened Removals

  // ---------- letters that no cell carries

  lemma OtherLetters(row: Row, r: nat, col: string)
    requires r >= 1 && DenseRow(row, r) && forall m: nat :: col != ColumnName(m)
    ensures DropCell(row, col) == row
  {
    hide CellName, Letters, ColumnName, FirstIndex;
    var letters := AllLetters(row.C);
    forall j | 0 <= j < |row.C|
      ensures letters[j] != col
    {
      LettersOfName(j + 1, r);
    }
    var k := FirstIndex(letters, col);
  }

  lemma NotCanonicalLetters(col: string, n: nat)
    requires ColumnNumber(col) == Ok(n) && col != ColumnName(n)
    ensures forall m: nat :: col != ColumnName(m)
  {
    forall m: nat
      ensures col != ColumnName(m)
    {
      ColumnValueOfName(m);
    }
  }

  /** Moving columns left without removing one: the row keeps its cells, and two of them one name. */
  lemma MovedOntoOthers(row: Row, r: nat, n: nat)
    requires r >= 1 && n >= 1 && DenseRow(row, r)
    ensures var A := ShiftCells(row, n, -1);
            && CheckCells(A.C, r) == (A.C, Done)
            && (|row.C| < Max(n, 2) ==> A == row)
            && (|row.C| >= Max(n, 2) ==> !DenseRow(A, r))
  {
    hide CellName, CellNameToCoordinates, ShiftCell;
    var A := ShiftCells(row, n, -1);
    forall j | 0 <= j < |row.C|
      ensures var c := if j + 1 >= n && j > 0 then j else j + 1;
              A.C[j] == Cell(CellName(c, r), row.C[j].data) && CellNameToCoordinates(CellName(c, r)) == Ok((c, r))
    {
      MovedOnto(row.C[j], j + 1, r, n);
      CoordinatesRoundTrip(j + 1, r);
      if j > 0 { CoordinatesRoundTrip(j, r); }
    }
    if |row.C| < Max(n, 2) {
      assert A.C == row.C;
    } else {
      var j := Max(n, 2) - 1;
      NamesDistinct(j, r, j + 1, r);
      assert A.C[j].R == CellName(j, r);
    }
  }

  lemma MovedOnto(c: Cell, col: nat, row: nat, n: nat)
    requires col >= 1 && row >= 1 && n >= 1 && c.R == CellName(col, row)
    ensures ShiftCell(c, n, -1) == Cell(CellName(if col >= n && col > 1 then col - 1 else col, row), c.data)
  {
    hide CellName, CellNameToCoordinates;
    CoordinatesRoundTrip(col, row);
  }

  /**
   RemoveCol compares column letters with case. Called with other letters than the canonical ones
   it removes nothing but still moves names left: the grid stays dense, and then unchanged, exactly
   when no row reaches the column (the second one for column A).
   */
  lemma RemoveColOtherLetters(rows: seq<Row>, col: string, n: nat)
    requires Dense(rows) && ColumnNumber(col) == Ok(n) && col != ColumnName(n) && n >= 1
    ensures var A := AdjustCols(DropColumn(rows, col), n, -1);
            var narrow := forall k :: 0 <= k < |rows| ==> |rows[k].C| < Max(n, 2);
            && Check(A) == (A, Done)
            && (Dense(A) <==> narrow)
            && (narrow ==> A == rows)
  {
    hide CellName, ColumnName, ColumnNumber, DropCell, ShiftCell, ShiftCells, CheckCells, CheckRows, CheckSheet, DenseRow, Max;
    NotCanonicalLetters(col, n);
    var A := AdjustCols(DropColumn(rows, col), n, -1);
    forall k | 0 <= k < |rows|
      ensures A[k] == ShiftCells(rows[k], n, -1) && A[k].R == k + 1
      ensures CheckCells(A[k].C, k + 1) == (A[k].C, Done)
      ensures |rows[k].C| < Max(n, 2) ==> A[k] == rows[k]
      ensures |rows[k].C| >= Max(n, 2) ==> !DenseRow(A[k], k + 1)
    {
      RowNumbered(rows[k], k + 1);
      OtherLetters(rows[k], k + 1, col);
      MovedOntoOthers(rows[k], k + 1, n);
    }
    CheckSheetInOrder(A);
    CheckRowsFixed(A, 0);
    if forall k :: 0 <= k < |rows| ==> |rows[k].C| < Max(n, 2) {
      assert A == rows;
    } else {
      var k :| 0 <= k < |rows| && |rows[k].C| >= Max(n, 2);
      assert !DenseRow(A[k], k + 1);
    }
  }

  lemma RowNumbered(row: Row, r: nat)
    requires DenseRow(row, r)
    ensures row.R == r
  {
  }

  lemma CheckSheetInOrder(A: seq<Row>)
    requires forall k :: 0 <= k < |A| ==> A[k].R == k + 1
    ensures CheckSheet(A) == A
  {
    forall k | 0 <= k < |A|
      ensures CheckSheet(A)[k] == A[k]
    {
      InOrder(A, k + 1);
    }
  }

  lemma {:induction false} CheckRowsFixed(A: seq<Row>, i: nat)
    requires i <= |A| && forall k :: 0 <= k < |A| ==> CheckCells(A[k].C, k + 1) == (A[k].C, Done)
    ensures CheckRows(A, i) == (A, Done)
    decreases |A| - i
  {
    hide CheckCells;
    if i < |A| {
      assert A[i := A[i].(C := A[i].C)] == A;
      CheckRowsFixed(A, i + 1);
    }
  }

  // ---------- when the column is removed

  /** What RemoveCol makes of the cells, before links, areas and filter. */
  function CutRows(rows: seq<Row>, col: string, n: int): (rows': seq<Row>) {
    AdjustCols(DropColumn(rows, col), n, -1)
  }

  lemma {:induction false} NothingToRemove(rows: seq<Row>, n: int)
    requires Dense(rows) && n >= 1 && forall k :: 0 <= k < |rows| ==> |rows[k].C| < n
    ensures ColumnRemoved(rows, rows, n)
  {
    hide Dense;
    forall r | r >= 1
      ensures CellRemoved(rows, rows, r, n)
    {
    }
  }

  lemma TooWide(D: seq<Row>, rows: seq<Row>, base: seq<Row>, n: int, k: nat)
    requires k < |rows| && |rows[k].C| >= n && (forall r :: WidthAt(base, r) == WidthAt(rows, r))
    requires !Dense(D) || D == rows
    ensures !ColumnRemoved(D, base, n)
  {
    hide Dense, At, AttrsAt;
    assert WidthAt(rows, k + 1) == |rows[k].C|;
    assert ColumnRemoved(D, base, n) ==> CellRemoved(D, base, k + 1, n);
  }

  /** On the cells, with base standing for the same cells whatever rows are hidden. */
  lemma CutExact(rows: seq<Row>, base: seq<Row>, col: string, n: nat)
    requires Dense(rows) && ColumnNumber(col) == Ok(n) && n >= 1
    requires forall r :: WidthAt(base, r) == WidthAt(rows, r)
    ensures Check(CutRows(rows, col, n)) == (CutRows(rows, col, n), Done)
    ensures col == ColumnName(n) || (forall k :: 0 <= k < |rows| ==> |rows[k].C| < n) ==>
              ColumnRemoved(CutRows(rows, col, n), rows, n)
    ensures col != ColumnName(n) && (exists k :: 0 <= k < |rows| && |rows[k].C| >= n) ==>
              !ColumnRemoved(CutRows(rows, col, n), base, n)
  {
    hide Dense, ColumnRemoved, ColumnName, ColumnNumber, AdjustCols, DropColumn, CheckSheet, CheckRows, WidthAt;
    var A := CutRows(rows, col, n);
    if col == ColumnName(n) {
      RemoveColumn(rows, n);
    } else {
      RemoveColOtherLetters(rows, col, n);
      if k :| 0 <= k < |rows| && |rows[k].C| >= n {
        TooWide(A, rows, base, n, k);
      } else {
        NothingToRemove(rows, n);
      }
    }
  }

  lemma UnhideDrops(rows: seq<Row>, col: string, first: int, last: int)
    ensures Unhide(DropColumn(rows, col), first, last) == DropColumn(Unhide(rows, first, last), col)
  {
    hide Letters;
    var a, b := Unhide(DropColumn(rows, col), first, last), DropColumn(Unhide(rows, first, last), col);
    forall k | 0 <= k < |rows|
      ensures a[k] == b[k]
    {
    }
  }

  /** Clearing the filter before or after the cut comes to the same. */
  lemma ShownCut(rows: seq<Row>, filter: Option<string>, col: string, n: int)
    ensures LeftShown(CutRows(rows, col, n), filter, Columns, n) == CutRows(LeftShown(rows, filter, Columns, n), col, n)
  {
    hide Unhide, AreaOf, AdjustCols, DropColumn;
    if filter.Some? {
      var a := AreaOf(filter.value);
      UnhideCommutes(DropColumn(rows, col), n, -1, a.r1, a.r2);
      UnhideDrops(rows, col, a.r1, a.r2);
    }
  }

  /** However links and areas fare, the rows come out cut, with or without those that clearing the filter shows. */
  lemma RowsAfter(s: Sheet, col: string, n: int)
    requires s.filter.Some? ==> CanonicalFilter(s.filter.value)
    requires ColumnNumber(col) == Ok(n)
    requires var D := CutRows(LeftShown(s.rows, s.filter, Columns, n), col, n); Check(D) == (D, Done)
    ensures var D := RemoveCol(s, col).0.rows;
            D == CutRows(s.rows, col, n) || D == CutRows(LeftShown(s.rows, s.filter, Columns, n), col, n)
  {
    hide ColumnNumber, AdjustCols, DropColumn, CheckSheet, CheckRows, AdjustLinks, AdjustMerges, AdjustFilter, LeftShown, LeftFilter,
         CanonicalFilter;
    FilterRemoved(s.filter, CutRows(s.rows, col, n), Columns, n);
    ShownCut(s.rows, s.filter, col, n);
  }

  /**
   RemoveCol removes the column from the grid if and only if it is named by its canonical letters,
   or no row reaches it. (Hidden rows that clearing the filter shows are counted as they come out.)
   */
  lemma RemoveColExact(s: Sheet, col: string)
    requires WellFormed(s) && ColumnNumber(col).Ok?
    ensures var n := ColumnNumber(col).value;
            var D := RemoveCol(s, col).0.rows;
            ColumnRemoved(D, s.rows, n) || ColumnRemoved(D, LeftShown(s.rows, s.filter, Columns, n), n) <==>
            col == ColumnName(n) || forall k :: 0 <= k < |s.rows| ==> |s.rows[k].C| < n
  {
    ColumnsRoundTrip(1, col);
    hide RemoveCol, ColumnNumber, ColumnName, ColumnRemoved, Dense, CutRows, LeftShown, CanonicalRefs, CanonicalLinks,
         CanonicalFilter, Check, WidthAt, At;
    var n := ColumnNumber(col).value;
    var shown := LeftShown(s.rows, s.filter, Columns, n);
    ShownDense(s.rows, s.filter, Columns, n);
    CutExact(s.rows, s.rows, col, n);
    CutExact(s.rows, shown, col, n);
    CutExact(shown, s.rows, col, n);
    CutExact(shown, shown, col, n);
    RowsAfter(s, col, n);
    SameWidths(s.rows, shown);
  }

  lemma SameWidths(rows: seq<Row>, shown: seq<Row>)
    requires |rows| == |shown| && forall r :: WidthAt(shown, r) == WidthAt(rows, r)
    ensures forall k :: 0 <= k < |rows| ==> |shown[k].C| == |rows[k].C|
  {
    forall k | 0 <= k < |rows|
      ensures |shown[k].C| == |rows[k].C|
    {
      assert WidthAt(shown, k + 1) == WidthAt(rows, k + 1);
    }
  }
}
