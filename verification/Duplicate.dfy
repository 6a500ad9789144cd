/** DuplicateRowTo: a copy of one row inserted at another line. */
module Duplicate {
  import opened Wrappers
  import opened CellNames
  import opened SheetModel
  import opened AdjustSpec
  import opened EditSpec
  import opened CellSpec
  import opened GridEdits
  import opened Areas
  import opened Reads
  import opened SheetEdits

  /** Line row2 of D is a copy of line row of rows, and every line of rows stands where an insertion puts it. */
  ghost predicate LineDuplicated(D: seq<Row>, rows: seq<Row>, row: int, row2: int) {
    && Dense(D)
    && |D| == |rows| + 1
    && SameLine(D, row2, rows, row)
    && (forall q :: q >= 1 ==> SameLine(D, Shift(q, row2), rows, q))
  }

  lemma RenumberTwice(row: Row, a: nat, b: nat, c: nat)
    requires a >= 1 && b >= 1 && c >= 1 && DenseRow(row, a)
    ensures RenumberRow(RenumberRow(row, b), c) == RenumberRow(row, c)
  {
    hide CellName, RenumberCell;
    RenumberDense(row, a, b);
    RenumberDense(row, a, c);
    RenumberDense(RenumberRow(row, b), b, c);
    forall j | 0 <= j < |row.C|
      ensures RenumberRow(RenumberRow(row, b), c).C[j] == RenumberRow(row, c).C[j]
    {
      assert RenumberRow(row, c).C[j].R == CellName(j + 1, c);
    }
    assert RenumberRow(RenumberRow(row, b), c).C == RenumberRow(row, c).C;
  }

  /** The names that the adjustment gives the shared cells do not matter: the copy is renumbered after. */
  lemma CopyOf(row: Row, a: nat, row2: nat)
    requires a >= 1 && row2 >= 1 && DenseRow(row, a)
    ensures var copy := RenumberRow(ShiftRow(row, row2, 1), row2);
            DenseRow(copy, row2) && Renumbered(copy, row)
  {
    hide CellName, RenumberCell;
    RenumberDense(row, a, row2);
    if row.R >= row2 { RenumberTwice(row, a, row.R + 1, row2); }
  }

  lemma ReplaceLine(D: seq<Row>, rows: seq<Row>, k: nat, row2: nat, copy: Row)
    requires 1 <= row2 <= |rows| && LineInserted(D, rows, row2) && k < |rows|
    requires DenseRow(copy, row2) && Renumbered(copy, rows[k])
    ensures LineDuplicated(D[row2 - 1 := copy], rows, k + 1, row2)
  {
    hide DenseRow;
    var E := D[row2 - 1 := copy];
    forall q | q >= 1
      ensures SameLine(E, Shift(q, row2), rows, q)
    {
      assert SameLine(D, Shift(q, row2), rows, q);
      OtherLine(E, D, Shift(q, row2), row2, copy);
      CopiedLine(E, D, Shift(q, row2), rows, q);
    }
    LinesAgree(E, row2 - 1, rows, k);
  }

  lemma OtherLine(E: seq<Row>, D: seq<Row>, r: int, row2: nat, copy: Row)
    requires 1 <= row2 <= |D| && E == D[row2 - 1 := copy] && r >= 1 && r != row2
    ensures SameLine(E, r, D, r)
  {
  }

  lemma CopiedLine(E: seq<Row>, D: seq<Row>, r: int, rows: seq<Row>, q: int)
    requires SameLine(E, r, D, r) && SameLine(D, r, rows, q)
    ensures SameLine(E, r, rows, q)
  {
    hide At, AttrsAt, WidthAt;
    forall c | c >= 1
      ensures At(E, c, r) == At(rows, c, q)
    {
      assert At(E, c, r) == At(D, c, r);
    }
  }

  lemma AppendLine(D: seq<Row>, rows: seq<Row>, k: nat, copy: Row)
    requires Dense(rows) && D == rows + [copy] && k < |rows|
    requires DenseRow(copy, |rows| + 1) && Renumbered(copy, rows[k])
    ensures LineDuplicated(D, rows, k + 1, |rows| + 1)
  {
    hide DenseRow;
    var n := |rows| + 1;
    forall q | q >= 1
      ensures SameLine(D, Shift(q, n), rows, q)
    {
    }
    LinesAgree(D, |rows|, rows, k);
  }

  lemma DuplicateSteps(s: Sheet, row: int, row2: int, s1: Sheet)
    requires 1 <= row <= |s.rows| && row2 >= 1 && row != row2
    requires InsertRow(s, row2) == (s1, Done)
    requires FirstNumbered(s.rows, row) == row - 1
    requires FirstNumbered(s1.rows, row2) == if row2 <= |s1.rows| then row2 - 1 else -1
    ensures var copy := RenumberRow(ShiftRow(s.rows[row - 1], row2, 1), row2);
            DuplicateRowTo(s, row, row2) ==
            (s1.(rows := if row2 <= |s1.rows| then s1.rows[row2 - 1 := copy] else s1.rows + [copy]), Done)
  {
    hide AdjustHelper, RenumberRow, ShiftRow, FirstNumbered;
  }

  /** DuplicateRowTo on the rows, with everything else as InsertRow leaves it. */
  lemma DuplicateEffect(s: Sheet, row: int, row2: int)
    requires WellFormed(s) && 1 <= row <= |s.rows| && row2 >= 1 && row != row2
    ensures var (s', o) := DuplicateRowTo(s, row, row2);
            && o == Done
            && s' == InsertRow(s, row2).0.(rows := s'.rows)
            && (row2 <= |s.rows| + 1 ==> LineDuplicated(s'.rows, s.rows, row, row2))
            && (row2 > |s.rows| + 1 ==>
                  s'.rows == s.rows + [RenumberRow(ShiftRow(s.rows[row - 1], row2, 1), row2)])
  {
    hide *;
    InsertBasics(s, row2);
    var s1 := InsertRow(s, row2).0;
    DenseNumber(s.rows, row);
    DenseNumber(s1.rows, row2);
    DuplicateSteps(s, row, row2, s1);
    LineOf(s.rows, row - 1);
    CopyOf(s.rows[row - 1], row, row2);
    var copy := RenumberRow(ShiftRow(s.rows[row - 1], row2, 1), row2);
    if row2 <= |s.rows| {
      ReplaceLine(s1.rows, s.rows, row - 1, row2, copy);
    } else {
      UntouchedBelow(s1.rows, s.rows, row2);
      if row2 == |s.rows| + 1 { AppendLine(s1.rows + [copy], s.rows, row - 1, copy); }
    }
  }

  lemma DuplicatesBelow(s: Sheet, row: int)
    requires WellFormed(s) && 1 <= row <= |s.rows|
    ensures var (s', o) := DuplicateRowTo(s, row, row + 1);
            o == Done && LineDuplicated(s'.rows, s.rows, row, row + 1)
  {
    hide DuplicateRowTo, WellFormed, LineDuplicated, InsertRow, RenumberRow, ShiftRow;
    DuplicateEffect(s, row, row + 1);
  }

  lemma InsertBasics(s: Sheet, n: int)
    requires WellFormed(s) && n >= 1
    ensures var (s', o) := InsertRow(s, n);
            && o == Done && Dense(s.rows) && Dense(s'.rows) && LineInserted(s'.rows, s.rows, n)
            && |s'.rows| == if n <= |s.rows| then |s.rows| + 1 else |s.rows|
  {
    hide InsertRow, Dense;
    InsertRowEffect(s, n);
  }

  lemma LineOf(rows: seq<Row>, k: nat)
    requires Dense(rows) && k < |rows|
    ensures DenseRow(rows[k], k + 1)
  {
  }

  /** The grid stays dense exactly when the target is at most one line past the last row. */
  lemma DuplicateDense(s: Sheet, row: int, row2: int)
    requires WellFormed(s) && 1 <= row <= |s.rows| && row2 >= 1 && row != row2
    ensures Dense(DuplicateRowTo(s, row, row2).0.rows) <==> row2 <= |s.rows| + 1
  {
    hide WellFormed, DuplicateRowTo, InsertRow, CellName, CanonicalRefs, ShiftRow, RenumberCell;
    DuplicateEffect(s, row, row2);
    var D := DuplicateRowTo(s, row, row2).0.rows;
    if row2 > |s.rows| + 1 {
      assert D[|s.rows|].R == row2;
      if Dense(D) { LineOf(D, |s.rows|); }
    }
  }

  // ---------- the copy and its source

  /**
   A value written into the copy is read back there, and the value at the source, wherever the
   insertion has put it, stays what it was, as long as the two are not in one merged area.
   */
  lemma CopyIsIndependent(s: Sheet, row: int, row2: int, col: int, kind: string, value: string)
    requires WellFormed(s) && 1 <= row <= |s.rows| && 1 <= row2 <= |s.rows| + 1 && row != row2 && col >= 1
    ensures var s1 := DuplicateRowTo(s, row, row2).0;
            var source, copy := Pos(col, Shift(row, row2)), Pos(col, row2);
            var s2 := SetCell(s1, copy.Name(), kind, value, false).0;
            && CanonicalRefs(StoredRefs(s1.merges))
            && GetCellValue(s2, copy.Name()) == Ok(value)
            && (Anchor(s1.merges, copy) != Anchor(s1.merges, source) ==>
                  GetCellValue(s2, source.Name()) == GetCellValue(s1, source.Name()))
  {
    hide WellFormed, DuplicateRowTo, InsertRow, CellName, CanonicalRefs, SetCell, GetCellValue;
    DuplicateEffect(s, row, row2);
    var s1 := DuplicateRowTo(s, row, row2).0;
    MergesAfter(s, row2);
    DuplicatedIsDense(s1.rows, s.rows, row, row2);
    var source, copy := Pos(col, Shift(row, row2)), Pos(col, row2);
    WriteThenRead(s1, copy, kind, value, false, copy);
    WriteThenRead(s1, copy, kind, value, false, source);
  }

  lemma MergesAfter(s: Sheet, n: int)
    requires WellFormed(s) && n >= 1
    ensures CanonicalRefs(StoredRefs(InsertRow(s, n).0.merges))
    ensures InsertRow(s, n).0.formulas == s.formulas
  {
    hide InsertRow;
    InsertRowEffect(s, n);
  }

  lemma DuplicatedIsDense(D: seq<Row>, rows: seq<Row>, row: int, row2: int)
    requires LineDuplicated(D, rows, row, row2)
    ensures Dense(D)
  {
  }

  /**
   A formula is not independent: the copy shares the source's formula record. A formula set at any
   address of the new sheet shows at any other exactly when both have one anchor or their anchors
   share a record, the two lines of the duplication among them.
   */
  lemma CopySharesFormula(s: Sheet, row: int, row2: int, col: int, formula: string)
    requires WellFormed(s) && 1 <= row <= |s.rows| && 1 <= row2 <= |s.rows| + 1 && row != row2
    requires col >= 1 && formula != "" && PointersValid(s)
    ensures var s1 := DuplicateRowTo(s, row, row2).0;
            var source, copy := Pos(col, Shift(row, row2)), Pos(col, row2);
            var s2 := SetCellFormula(s1, copy.Name(), formula).0;
            && CanonicalRefs(StoredRefs(s1.merges))
            && (Shares(s1, copy, source) <==> At(s.rows, col, row).F.Some?)
            && var p, q := Anchor(s1.merges, copy), Anchor(s1.merges, source);
               GetCellFormula(s2, source.Name()) ==
               if p == q || Shares(s1, p, q) then Ok(formula) else GetCellFormula(s1, source.Name())
  {
    hide WellFormed, DuplicateRowTo, CellName, SetCellFormula, GetCellFormula, At, PointersBelow, InsertRow, CanonicalRefs;
    DuplicateEffect(s, row, row2);
    var s1 := DuplicateRowTo(s, row, row2).0;
    MergesAfter(s, row2);
    PointersDuplicated(s1.rows, s.rows, row, row2, |s.formulas|);
    DuplicatedIsDense(s1.rows, s.rows, row, row2);
    var source, copy := Pos(col, Shift(row, row2)), Pos(col, row2);
    assert SameLine(s1.rows, row2, s.rows, row) && SameLine(s1.rows, Shift(row, row2), s.rows, row);
    FormulaReaches(s1, copy, formula, source);
  }

  lemma PointersDuplicated(D: seq<Row>, rows: seq<Row>, row: int, row2: int, m: nat)
    requires LineDuplicated(D, rows, row, row2) && row >= 1 && row2 >= 1 && PointersBelow(rows, m)
    ensures PointersBelow(D, m)
  {
    hide Dense, At, AttrsAt, WidthAt;
    forall c, r | c >= 1 && r >= 1 && At(D, c, r).F.Some?
      ensures At(D, c, r).F.value < m
    {
      var q := if r == row2 then row else if r < row2 then r else r - 1;
      assert r != row2 ==> r == Shift(q, row2);
      assert SameLine(D, r, rows, q);
      assert At(D, c, r) == At(rows, c, q);
    }
  }
}
