/** Saving trims blank cells (trimCell, sheet.go); loading what was saved gives the sheet back. */
module Loading {
  import opened Wrappers
  import opened CellNames
  import opened SheetModel
  import opened AdjustSpec
  import opened Normalise
  import opened GridEdits

  predicate Kept(d: CellData) { d.S != 0 || d.V != "" || d.F.Some? || d.T != "" }

  /** The cells that trimCell keeps, from the j-th on. */
  function TrimFrom(C: seq<Cell>, j: nat): (trimmed: seq<Cell>)
    requires j <= |C|
    decreases |C| - j
  {
    if j == |C| then []
    else (if Kept(C[j].data) then [C[j]] else []) + TrimFrom(C, j + 1)
  }

  lemma KeptMeans(d: CellData)
    ensures Kept(d) <==> d.S != 0 || d.V != "" || d.F != None || d.T != ""
  {
  }

  /** trimCell compacts into a slice of the same length and cuts it at the end. */
  method TrimCell(column: seq<Cell>) returns (trimmed: seq<Cell>)
    ensures trimmed == TrimFrom(column, 0)
  {
    hide Kept;
    var col := new Cell[|column|](_ => Cell("", BLANK));
    var i := 0;
    for k := 0 to |column|
      invariant 0 <= i <= k
      invariant TrimFrom(column, 0) == col[..i] + TrimFrom(column, k)
    {
      KeptMeans(column[k].data);
      if column[k].data.S != 0 || column[k].data.V != "" || column[k].data.F != None || column[k].data.T != "" {
        ghost var before := col[..i];
        col[i] := column[k];
        i := i + 1;
        assert col[..i] == before + [column[k]];
      }
    }
    return col[..i];
  }

  /** The number of cells up to the last kept one. */
  function KeptWidth(C: seq<Cell>): (n: nat)
    ensures n <= |C|
    ensures n > 0 ==> Kept(C[n - 1].data)
    ensures forall j :: n <= j < |C| ==> !Kept(C[j].data)
  {
    if C == [] then 0
    else if Kept(C[|C| - 1].data) then |C|
    else KeptWidth(C[..|C| - 1])
  }

  /** What a cell reads as after saving and loading. */
  function Reloaded(d: CellData): (d': CellData) {
    if Kept(d) then d else BLANK
  }

  ghost predicate TrimmedAs(T: seq<Cell>, C: seq<Cell>, j: nat, r: nat) {
    && AscendingCells(T, r)
    && (forall k :: 0 <= k < |T| ==> ColOf(T[k]) > j)
    && LastColumn(T) == (if KeptWidth(C) > j then KeptWidth(C) else 0)
    && (forall c :: NamedCell(T, c) == if j < c <= |C| then Reloaded(C[c - 1].data) else BLANK)
  }

  lemma {:induction false} TrimIsAscending(C: seq<Cell>, r: nat, j: nat)
    requires r >= 1 && j <= |C| && forall k :: 0 <= k < |C| ==> C[k].R == CellName(k + 1, r) && ColOf(C[k]) == k + 1
    ensures TrimmedAs(TrimFrom(C, j), C, j, r)
    decreases |C| - j
  {
    hide CellName, ColOf, TrimmedAs, LastInColumn, AscendingCells, Kept;
    if j == |C| {
      NothingTrimmed(C, r);
    } else {
      TrimIsAscending(C, r, j + 1);
      if Kept(C[j].data) {
        TrimKeeps(TrimFrom(C, j + 1), C, j, r);
      } else {
        TrimDrops(TrimFrom(C, j + 1), C, j, r);
        assert [] + TrimFrom(C, j + 1) == TrimFrom(C, j + 1);
      }
    }
  }

  lemma NothingTrimmed(C: seq<Cell>, r: nat)
    ensures TrimmedAs([], C, |C|, r)
  {
  }

  lemma TrimDrops(T: seq<Cell>, C: seq<Cell>, j: nat, r: nat)
    requires j < |C| && TrimmedAs(T, C, j + 1, r) && !Kept(C[j].data)
    ensures TrimmedAs(T, C, j, r)
  {
    hide ColOf, CellName, AscendingCells, NamedCell, LastColumn;
  }

  lemma TrimKeeps(T: seq<Cell>, C: seq<Cell>, j: nat, r: nat)
    requires j < |C| && TrimmedAs(T, C, j + 1, r) && Kept(C[j].data)
    requires C[j].R == CellName(j + 1, r) && ColOf(C[j]) == j + 1
    ensures TrimmedAs([C[j]] + T, C, j, r)
  {
    hide ColOf, CellName, LastInColumn;
    var U := [C[j]] + T;
    forall c
      ensures NamedCell(U, c) == if c == j + 1 then C[j].data else NamedCell(T, c)
    {
      var k, l := LastInColumn(U, c), LastInColumn(T, c);
      if l >= 0 { assert U[l + 1] == T[l]; }
      if c == j + 1 { assert ColOf(U[0]) == c; }
    }
  }

  /**
   checkRow after trimCell on a dense row: the row cut after its last non-blank cell. It is that
   cut exactly when the blank cells before carry nothing at all, not even a space flag.
   */
  lemma TrimThenCheck(C: seq<Cell>, r: nat)
    requires r >= 1 && forall k :: 0 <= k < |C| ==> C[k].R == CellName(k + 1, r)
    ensures var (D, o) := CheckCells(TrimFrom(C, 0), r);
            && o == Done && |D| == KeptWidth(C)
            && (forall j :: 0 <= j < |D| ==> D[j] == Cell(C[j].R, Reloaded(C[j].data)))
            && (D == C[..KeptWidth(C)] <==>
                forall j :: 0 <= j < KeptWidth(C) ==> Kept(C[j].data) || C[j].data == BLANK)
  {
    hide CellName, ColOf, CheckCells, AscendingCells, LastColumn, NamedCell, Kept, TrimFrom;
    DenseColumns(C, r);
    TrimIsAscending(C, r, 0);
    CheckAscendingCells(TrimFrom(C, 0), r);
    var D := CheckCells(TrimFrom(C, 0), r).0;
    forall j | 0 <= j < |D|
      ensures D[j] == Cell(C[j].R, Reloaded(C[j].data))
    {
      assert D[j].data == NamedCell(TrimFrom(C, 0), j + 1);
    }
    if forall j :: 0 <= j < KeptWidth(C) ==> Kept(C[j].data) || C[j].data == BLANK {
      assert D == C[..KeptWidth(C)];
    } else {
      var j :| 0 <= j < KeptWidth(C) && !(Kept(C[j].data) || C[j].data == BLANK);
      assert D[j] != C[j] && C[..KeptWidth(C)][j] == C[j];
    }
  }

  // ---------- the whole sheet

  /** The rows as workSheetWriter saves them. */
  function Saved(rows: seq<Row>): (saved: seq<Row>)
    ensures |saved| == |rows|
    ensures forall i :: 0 <= i < |rows| ==> saved[i] == rows[i].(C := TrimFrom(rows[i].C, 0))
  {
    seq(|rows|, i requires 0 <= i < |rows| => rows[i].(C := TrimFrom(rows[i].C, 0)))
  }

  /** Loading a saved dense grid: every row and every non-blank cell is back where it was. */
  lemma SaveThenLoad(rows: seq<Row>)
    requires Dense(rows)
    ensures var (D, o) := Check(Saved(rows));
            && o == Done && Dense(D) && |D| == |rows|
            && (forall r :: 1 <= r <= |rows| ==> AttrsAt(D, r) == AttrsAt(rows, r) && WidthAt(D, r) == KeptWidth(rows[r - 1].C))
            && (forall c, r :: c >= 1 && r >= 1 ==> At(D, c, r) == Reloaded(At(rows, c, r)))
  {
    hide CellName, ColOf, Check, AscendingCells, LastColumn, NamedCell, Kept, TrimFrom, TrimmedAs, DenseRow;
    var saved := Saved(rows);
    forall i | 0 <= i < |rows|
      ensures saved[i].R == i + 1 && AscendingCells(saved[i].C, i + 1) && TrimmedAs(saved[i].C, rows[i].C, 0, i + 1)
    {
      SavedRow(rows[i], i + 1);
    }
    CheckAscending(saved);
    var D := Check(saved).0;
    forall r | 1 <= r <= |rows|
      ensures AttrsAt(D, r) == AttrsAt(rows, r) && WidthAt(D, r) == KeptWidth(rows[r - 1].C)
    {
      InOrder(saved, r);
      LoadedLine(D, saved, rows, r);
    }
    forall c, r | c >= 1 && r >= 1
      ensures At(D, c, r) == Reloaded(At(rows, c, r))
    {
      if r <= |rows| {
        InOrder(saved, r);
        LoadedLine(D, saved, rows, r);
      } else {
        BlankStaysBlank();
      }
    }
  }

  lemma BlankStaysBlank()
    ensures Reloaded(BLANK) == BLANK
  {
  }

  lemma SavedRow(row: Row, r: nat)
    requires r >= 1 && DenseRow(row, r)
    ensures row.R == r && AscendingCells(TrimFrom(row.C, 0), r) && TrimmedAs(TrimFrom(row.C, 0), row.C, 0, r)
  {
    hide CellName, ColOf, TrimFrom, AscendingCells;
    DenseColumns(row.C, r);
    TrimIsAscending(row.C, r, 0);
  }

  lemma LoadedLine(D: seq<Row>, saved: seq<Row>, rows: seq<Row>, r: nat)
    requires 1 <= r <= |rows| == |saved| && Holds(D, saved) && LastNumbered(saved, r) == r - 1
    requires saved[r - 1].attrs == rows[r - 1].attrs && TrimmedAs(saved[r - 1].C, rows[r - 1].C, 0, r)
    ensures AttrsAt(D, r) == AttrsAt(rows, r) && WidthAt(D, r) == KeptWidth(rows[r - 1].C)
    ensures forall c :: c >= 1 ==> At(D, c, r) == Reloaded(At(rows, c, r))
  {
    hide Dense, AscendingCells, NamedCell, LastColumn, ColOf, Kept;
    BlankStaysBlank();
    forall c | c >= 1
      ensures At(D, c, r) == Reloaded(At(rows, c, r))
    {
      assert At(D, c, r) == NamedAt(saved, c, r);
    }
  }

  /** Saving and loading keeps every cell with a style, a text, a formula or a type, and blanks every other. */
  lemma SavedContent(rows: seq<Row>, c: int, r: int)
    requires Dense(rows) && c >= 1 && r >= 1
    ensures var before, after := At(rows, c, r), At(Check(Saved(rows)).0, c, r);
            after == if before.S == 0 && before.V == "" && before.F == None && before.T == "" then BLANK else before
  {
    hide Check, Saved, At;
    SaveThenLoad(rows);
  }
}
