/**
 checkSheet followed by checkRow makes any ascending grid dense without changing what stands
 where: the pass that runs when a sheet is first read and at the end of every adjustment.
 */
module Normalise {
  import opened Wrappers
  import opened CellNames
  import opened SheetModel
  import opened AdjustSpec

  function ColOf(c: Cell): (col: int) { CoordsOf(c.R).0 }

  /** Cells named for strictly ascending columns of line r. */
  ghost predicate AscendingCells(C: seq<Cell>, r: nat) {
    && (forall j :: 0 <= j < |C| ==> ColOf(C[j]) >= 1 && C[j].R == CellName(ColOf(C[j]), r))
    && (forall i, j :: 0 <= i < j < |C| ==> ColOf(C[i]) < ColOf(C[j]))
  }

  /** Rows numbered in strictly ascending order, each with ascending cells: what a file holds. */
  ghost predicate Ascending(rows: seq<Row>) {
    && (forall i :: 0 <= i < |rows| ==> rows[i].R >= 1 && AscendingCells(rows[i].C, rows[i].R))
    && (forall i, j :: 0 <= i < j < |rows| ==> rows[i].R < rows[j].R)
  }

  function ColumnsOf(C: seq<Cell>): (cols: seq<int>)
    ensures |cols| == |C| && forall j :: 0 <= j < |C| ==> cols[j] == ColOf(C[j])
  {
    hide ColOf;
    seq(|C|, j requires 0 <= j < |C| => ColOf(C[j]))
  }

  function LastIndex(s: seq<int>, x: int): (k: int)
    ensures -1 <= k < |s|
    ensures k >= 0 ==> s[k] == x
    ensures forall j :: k < j < |s| ==> s[j] != x
  {
    if s == [] then -1
    else if s[|s| - 1] == x then |s| - 1
    else LastIndex(s[..|s| - 1], x)
  }

  /** The last cell named for column c, or -1. */
  function LastInColumn(C: seq<Cell>, c: int): (k: int)
    ensures -1 <= k < |C|
    ensures k >= 0 ==> ColOf(C[k]) == c
    ensures forall j :: k < j < |C| ==> ColOf(C[j]) != c
  {
    hide ColOf;
    LastIndex(ColumnsOf(C), c)
  }

  function NamedCell(C: seq<Cell>, c: int): (data: CellData) {
    var j := LastInColumn(C, c);
    if j < 0 then BLANK else C[j].data
  }

  /** What an ascending grid holds, found by number and by name. */
  function NamedAt(rows: seq<Row>, c: int, r: int): (data: CellData) {
    var k := LastNumbered(rows, r);
    if k < 0 then BLANK else NamedCell(rows[k].C, c)
  }

  function NamedAttrs(rows: seq<Row>, r: int): (attrs: RowAttrs) {
    var k := LastNumbered(rows, r);
    if k < 0 then PLAIN_ROW else rows[k].attrs
  }

  function LastColumn(C: seq<Cell>): (col: int) {
    if C == [] then 0 else ColOf(C[|C| - 1])
  }

  function NamedWidth(rows: seq<Row>, r: int): (width: int) {
    var k := LastNumbered(rows, r);
    if k < 0 then 0 else LastColumn(rows[k].C)
  }

  /** checkSheet then checkRow. */
  function Check(rows: seq<Row>): (checked: (seq<Row>, Outcome)) { CheckRows(CheckSheet(rows), 0) }

  // ---------- one row

  /** Ascending columns leave room: the j-th cell is in column j + 1 or further right. */
  lemma {:induction false} ColumnsSpread(C: seq<Cell>, r: nat, j: nat)
    requires AscendingCells(C, r) && j < |C|
    ensures ColOf(C[j]) >= j + 1
    ensures ColOf(C[|C| - 1]) - ColOf(C[j]) >= |C| - 1 - j
  {
    if j > 0 { ColumnsSpreadDown(C, r, j); }
    ColumnsSpreadUp(C, r, j);
  }

  lemma {:induction false} ColumnsSpreadDown(C: seq<Cell>, r: nat, j: nat)
    requires AscendingCells(C, r) && j < |C|
    ensures ColOf(C[j]) >= j + 1
  {
    if j > 0 { ColumnsSpreadDown(C, r, j - 1); }
  }

  lemma {:induction false} ColumnsSpreadUp(C: seq<Cell>, r: nat, j: nat)
    requires AscendingCells(C, r) && j < |C|
    ensures ColOf(C[|C| - 1]) - ColOf(C[j]) >= |C| - 1 - j
    decreases |C| - j
  {
    if j < |C| - 1 { ColumnsSpreadUp(C, r, j + 1); }
  }

  lemma NamedParses(C: seq<Cell>, r: nat, j: nat)
    requires AscendingCells(C, r) && j < |C| && r >= 1
    ensures CellNameToCoordinates(C[j].R) == Ok((ColOf(C[j]), r))
  {
    CoordinatesRoundTrip(ColOf(C[j]), r);
  }

  ghost predicate NoneFrom(C: seq<Cell>, k: nat, c: int) {
    forall j :: k <= j < |C| ==> ColOf(C[j]) != c
  }

  /** D is list with the cells of C from the k-th on put in their columns. */
  ghost predicate Placed(D: seq<Cell>, list: seq<Cell>, C: seq<Cell>, k: nat) {
    && |D| == |list|
    && (forall j :: k <= j < |C| ==> 1 <= ColOf(C[j]) <= |D| && D[ColOf(C[j]) - 1] == C[j])
    && (forall c :: 1 <= c <= |D| && NoneFrom(C, k, c) ==> D[c - 1] == list[c - 1])
  }

  lemma {:induction false} PlaceAscending(list: seq<Cell>, C: seq<Cell>, r: nat, k: nat)
    requires r >= 1 && AscendingCells(C, r) && k <= |C| && LastColumn(C) <= |list|
    ensures PlaceCells(list, C, k).1 == Done && Placed(PlaceCells(list, C, k).0, list, C, k)
    decreases |C| - k
  {
    hide CellNameToCoordinates, CellName;
    if k < |C| {
      NamedParses(C, r, k);
      var c := ColOf(C[k]);
      var list' := list[c - 1 := C[k]];
      PlaceAscending(list', C, r, k + 1);
      var D := PlaceCells(list, C, k).0;
      assert D == PlaceCells(list', C, k + 1).0;
      assert NoneFrom(C, k + 1, c);
      forall b | 1 <= b <= |D| && NoneFrom(C, k, b)
        ensures D[b - 1] == list[b - 1]
      {
        assert NoneFrom(C, k + 1, b) && b != c;
      }
    }
  }

  /** D is the ascending row C with its gaps filled. */
  ghost predicate Filled(D: seq<Cell>, C: seq<Cell>, r: nat) {
    && |D| == LastColumn(C)
    && (forall j :: 0 <= j < |D| ==> D[j].R == CellName(j + 1, r) && D[j].data == NamedCell(C, j + 1))
  }

  /** checkRow fills the gaps of an ascending row and moves nothing. */
  lemma CheckAscendingCells(C: seq<Cell>, r: nat)
    requires r >= 1 && AscendingCells(C, r)
    ensures CheckCells(C, r).1 == Done && Filled(CheckCells(C, r).0, C, r)
  {
    hide CellNameToCoordinates, CellName;
    if C != [] {
      NamedParses(C, r, |C| - 1);
      if |C| < LastColumn(C) {
        PlaceAscending(BlankCells(LastColumn(C), r), C, r, 0);
        PlacedIsFilled(CheckCells(C, r).0, C, r);
      } else {
        FullRow(C, r);
      }
    }
  }

  lemma PlacedIsFilled(D: seq<Cell>, C: seq<Cell>, r: nat)
    requires C != [] && AscendingCells(C, r) && LastColumn(C) >= 0
    requires Placed(D, BlankCells(LastColumn(C), r), C, 0)
    ensures Filled(D, C, r)
  {
    hide CellNameToCoordinates, CellName, LastInColumn;
    forall j | 0 <= j < |D|
      ensures D[j].R == CellName(j + 1, r) && D[j].data == NamedCell(C, j + 1)
    {
      var k := LastInColumn(C, j + 1);
      if k >= 0 {
        assert D[ColOf(C[k]) - 1] == C[k];
      } else {
        assert NoneFrom(C, 0, j + 1);
        assert D[(j + 1) - 1] == BlankCell(j + 1, r);
      }
    }
  }

  /** As many cells as the last column number: by the pigeonhole argument no column is missing. */
  lemma FullRow(C: seq<Cell>, r: nat)
    requires C != [] && AscendingCells(C, r) && |C| >= LastColumn(C)
    ensures Filled(C, C, r)
  {
    hide CellNameToCoordinates, CellName;
    forall j | 0 <= j < |C|
      ensures ColOf(C[j]) == j + 1 && LastColumn(C) == |C| && LastInColumn(C, j + 1) == j
    {
      ColumnsSpread(C, r, j);
      ColumnsSpread(C, r, |C| - 1);
      var k := LastInColumn(C, j + 1);
    }
    assert ColOf(C[0]) == 1;
  }

  // ---------- all rows

  lemma {:induction false} CheckRowsEach(rows: seq<Row>, i: nat)
    requires i <= |rows|
    requires forall k :: i <= k < |rows| ==> AscendingCells(rows[k].C, k + 1)
    ensures CheckRows(rows, i).1 == Done && |CheckRows(rows, i).0| == |rows|
    ensures forall k :: 0 <= k < i ==> CheckRows(rows, i).0[k] == rows[k]
    ensures forall k :: i <= k < |rows| ==> CheckRows(rows, i).0[k] == rows[k].(C := CheckCells(rows[k].C, k + 1).0)
    decreases |rows| - i
  {
    hide AscendingCells, CheckCells;
    if i < |rows| {
      CheckAscendingCells(rows[i].C, i + 1);
      var rows' := rows[i := rows[i].(C := CheckCells(rows[i].C, i + 1).0)];
      CheckRowsEach(rows', i + 1);
    }
  }

  /** D holds, densely, what the rows hold by number and by name. */
  ghost predicate Holds(D: seq<Row>, rows: seq<Row>) {
    && Dense(D)
    && |D| == (if rows == [] then 0 else rows[|rows| - 1].R)
    && (forall r :: r >= 1 ==> WidthAt(D, r) == NamedWidth(rows, r) && AttrsAt(D, r) == NamedAttrs(rows, r))
    && (forall c, r :: c >= 1 && r >= 1 ==> At(D, c, r) == NamedAt(rows, c, r))
  }

  /** Loading normalises: the result is dense and holds the same things at the same places. */
  lemma CheckAscending(rows: seq<Row>)
    requires Ascending(rows)
    ensures Check(rows).1 == Done && Holds(Check(rows).0, rows)
  {
    hide ColOf, CellName, CheckCells, AscendingCells;
    var mid := CheckSheet(rows);
    RowsSpread(rows);
    forall k | 0 <= k < |mid|
      ensures mid[k].R == k + 1 && AscendingCells(mid[k].C, k + 1)
      ensures LastColumn(mid[k].C) == NamedWidth(rows, k + 1) && mid[k].attrs == NamedAttrs(rows, k + 1)
      ensures forall c :: NamedCell(mid[k].C, c) == NamedAt(rows, c, k + 1)
    {
      NothingAscends(k + 1);
    }
    CheckRowsEach(mid, 0);
    var D := Check(rows).0;
    forall k | 0 <= k < |D|
      ensures DenseRow(D[k], k + 1) && Filled(D[k].C, mid[k].C, k + 1)
    {
      CheckAscendingCells(mid[k].C, k + 1);
    }
    DenseHolds(D, rows, mid);
  }

  lemma NothingAscends(r: nat)
    ensures AscendingCells([], r)
  {
  }

  lemma DenseHolds(D: seq<Row>, rows: seq<Row>, mid: seq<Row>)
    requires Ascending(rows) && Dense(D) && |D| == |mid| == (if rows == [] then 0 else rows[|rows| - 1].R)
    requires forall k :: 0 <= k < |D| ==> D[k].attrs == mid[k].attrs && Filled(D[k].C, mid[k].C, k + 1)
    requires forall k :: 0 <= k < |mid| ==>
               LastColumn(mid[k].C) == NamedWidth(rows, k + 1) && mid[k].attrs == NamedAttrs(rows, k + 1)
    requires forall k, c :: 0 <= k < |mid| ==> NamedCell(mid[k].C, c) == NamedAt(rows, c, k + 1)
    ensures Holds(D, rows)
  {
    hide ColOf, CellName, AscendingCells, NamedCell, LastColumn;
    forall r | r >= 1
      ensures WidthAt(D, r) == NamedWidth(rows, r) && AttrsAt(D, r) == NamedAttrs(rows, r)
    {
      if r > |D| { BeyondLastRow(rows, r); } else { assert Filled(D[r - 1].C, mid[r - 1].C, (r - 1) + 1); }
    }
    forall c, r | c >= 1 && r >= 1
      ensures At(D, c, r) == NamedAt(rows, c, r)
    {
      if r > |D| {
        BeyondLastRow(rows, r);
      } else {
        assert Filled(D[r - 1].C, mid[r - 1].C, (r - 1) + 1);
        if InGrid(D, c, r) {
          assert D[r - 1].C[c - 1].data == NamedCell(mid[r - 1].C, (c - 1) + 1);
        } else {
          BeyondLastColumn(rows, c, r);
        }
      }
    }
  }

  lemma {:induction false} RowsSpread(rows: seq<Row>)
    requires Ascending(rows)
    ensures rows != [] ==> rows[|rows| - 1].R >= |rows|
  {
    if |rows| > 1 {
      var front := rows[..|rows| - 1];
      RowsSpread(front);
      assert front[|front| - 1].R < rows[|rows| - 1].R;
    }
  }

  lemma BeyondLastRow(rows: seq<Row>, r: int)
    requires Ascending(rows) && (rows == [] || r > rows[|rows| - 1].R)
    ensures LastNumbered(rows, r) == -1
  {
  }

  lemma BeyondLastColumn(rows: seq<Row>, c: int, r: int)
    requires Ascending(rows) && c > NamedWidth(rows, r)
    ensures NamedAt(rows, c, r) == BLANK
  {
    hide CellNameToCoordinates, CellName;
    var k := LastNumbered(rows, r);
    if k >= 0 { assert AscendingCells(rows[k].C, rows[k].R); }
  }

  // ---------- dense grids

  lemma DenseColumns(C: seq<Cell>, r: nat)
    requires r >= 1 && forall j :: 0 <= j < |C| ==> C[j].R == CellName(j + 1, r)
    ensures forall j :: 0 <= j < |C| ==> ColOf(C[j]) == j + 1
  {
    hide *;
    forall j | 0 <= j < |C|
      ensures ColOf(C[j]) == j + 1
    {
      CoordinatesRoundTrip(j + 1, r);
      ColOfParsed(C[j], j + 1, r);
    }
  }

  lemma ColOfParsed(c: Cell, col: int, row: int)
    requires CellNameToCoordinates(c.R) == Ok((col, row))
    ensures ColOf(c) == col
  {
  }

  lemma DenseLast(C: seq<Cell>, c: int)
    requires forall j :: 0 <= j < |C| ==> ColOf(C[j]) == j + 1
    ensures LastInColumn(C, c) == if 1 <= c <= |C| then c - 1 else -1
    ensures LastColumn(C) == |C|
  {
    hide ColOf;
    if 1 <= c <= |C| { assert ColOf(C[c - 1]) == c; }
  }

  lemma DenseCells(C: seq<Cell>, r: nat)
    requires r >= 1 && forall j :: 0 <= j < |C| ==> C[j].R == CellName(j + 1, r)
    ensures AscendingCells(C, r) && LastColumn(C) == |C|
    ensures forall c :: LastInColumn(C, c) == if 1 <= c <= |C| then c - 1 else -1
  {
    hide CellName, ColOf, LastInColumn, LastColumn;
    DenseColumns(C, r);
    forall c
      ensures LastInColumn(C, c) == if 1 <= c <= |C| then c - 1 else -1
    {
      DenseLast(C, c);
    }
    DenseLast(C, 0);
  }

  lemma DenseNumbers(rows: seq<Row>, r: int)
    requires Dense(rows)
    ensures LastNumbered(rows, r) == if 1 <= r <= |rows| then r - 1 else -1
  {
    hide CellName;
    var k := LastNumbered(rows, r);
    if k >= 0 { assert DenseRow(rows[k], k + 1); }
    if 1 <= r <= |rows| { assert DenseRow(rows[r - 1], r); }
  }

  /** A dense grid is ascending, and finding by name in it is finding by position. */
  lemma DenseIsAscending(rows: seq<Row>)
    requires Dense(rows)
    ensures Ascending(rows) && Holds(rows, rows)
  {
    hide CellName, ColOf, LastNumbered, LastInColumn, AscendingCells;
    forall i | 0 <= i < |rows|
      ensures rows[i].R == i + 1 && AscendingCells(rows[i].C, i + 1)
    {
      assert DenseRow(rows[i], i + 1);
      DenseCells(rows[i].C, i + 1);
    }
    forall r | r >= 1
      ensures WidthAt(rows, r) == NamedWidth(rows, r) && AttrsAt(rows, r) == NamedAttrs(rows, r)
    {
      DenseNumbers(rows, r);
      if r <= |rows| {
        assert DenseRow(rows[r - 1], r);
        DenseCells(rows[r - 1].C, r);
      }
    }
    forall c, r | c >= 1 && r >= 1
      ensures At(rows, c, r) == NamedAt(rows, c, r)
    {
      DenseNumbers(rows, r);
      if r <= |rows| {
        assert DenseRow(rows[r - 1], r);
        DenseCells(rows[r - 1].C, r);
      }
    }
  }

  /** Two dense grids that hold the same are the same. */
  lemma HoldsOnce(a: seq<Row>, b: seq<Row>, rows: seq<Row>)
    requires Holds(a, rows) && Holds(b, rows)
    ensures a == b
  {
    hide NamedAt, NamedWidth, NamedAttrs, Dense, At, WidthAt, AttrsAt;
    forall r | 1 <= r <= |a|
      ensures SameLine(a, r, b, r)
    {
    }
    DenseGridsAgree(a, b);
  }

  /** A dense grid is left exactly as it is. */
  lemma CheckDense(rows: seq<Row>)
    requires Dense(rows)
    ensures Check(rows) == (rows, Done)
  {
    hide Dense, Check, Holds, Ascending;
    DenseIsAscending(rows);
    CheckAscending(rows);
    HoldsOnce(Check(rows).0, rows, rows);
  }

  /** Checking twice is checking once. */
  lemma CheckIdempotent(rows: seq<Row>)
    requires Ascending(rows)
    ensures Check(Check(rows).0) == Check(rows)
  {
    CheckAscending(rows);
    CheckDense(Check(rows).0);
  }
}
