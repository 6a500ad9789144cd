/** On a dense grid the scanning readers and the indexing writers agree with the abstract sheet. */
module Reads {
  import opened Wrappers
  import opened CellNames
  import opened SheetModel
  import opened CellSpec
  import opened Areas

  // ---------- scans

  lemma {:induction false} ScanCellsAt(C: seq<Cell>, j: nat, c: nat, r: nat, formula: bool)
    requires j <= |C| && c >= 1 && r >= 1 && forall k :: 0 <= k < |C| ==> C[k].R == CellName(k + 1, r)
    ensures ScanCells(C[j..], CellName(c, r), formula) ==
            if j < c <= |C| && (formula ==> C[c - 1].data.F.Some?) then Some(C[c - 1].data) else None
    decreases |C| - j
  {
    hide CellName;
    if j < |C| {
      NamesDistinct(j + 1, r, c, r);
      ScanCellsAt(C, j + 1, c, r, formula);
      assert C[j..][1..] == C[j + 1..];
    }
  }

  lemma {:induction false} ScanRowsAt(rows: seq<Row>, i: nat, p: Pos, formula: bool)
    requires Dense(rows) && i <= |rows| && p.Valid()
    ensures ScanRows(rows[i..], p.row, p.Name(), formula) ==
            if i < p.row && InGrid(rows, p.col, p.row) && (formula ==> At(rows, p.col, p.row).F.Some?)
            then Some(At(rows, p.col, p.row)) else None
    decreases |rows| - i
  {
    hide CellName, ScanCells;
    if i < |rows| {
      assert DenseRow(rows[i], i + 1);
      if p.row == i + 1 {
        ScanCellsAt(rows[i].C, 0, p.col, p.row, formula);
        assert rows[i].C[0..] == rows[i].C;
      }
      ScanRowsAt(rows, i + 1, p, formula);
      assert rows[i..][1..] == rows[i + 1..];
    }
  }

  /** Where the address of p leads, through the merged areas. */
  function Anchor(merges: Option<seq<string>>, p: Pos): (q: Pos)
    requires p.Valid() && CanonicalRefs(StoredRefs(merges))
    ensures q.Valid()
  {
    ResolveAt(StoredRefs(merges), 0, p)
  }

  /** Reading by scan finds exactly what stands at the anchor. */
  lemma FindIsAt(s: Sheet, p: Pos, formula: bool)
    requires Dense(s.rows) && CanonicalRefs(StoredRefs(s.merges)) && p.Valid()
    ensures var q := Anchor(s.merges, p);
            Find(s, p.Name(), formula) ==
            Ok(if InGrid(s.rows, q.col, q.row) && (formula ==> At(s.rows, q.col, q.row).F.Some?)
               then Some(At(s.rows, q.col, q.row)) else None)
  {
    hide CellName, CellNameToCoordinates, ScanRows, AreaOf, CanonicalRef;
    var q := Anchor(s.merges, p);
    ResolveName(s.merges, p);
    CoordinatesRoundTrip(q.col, q.row);
    ScanRowsAt(s.rows, 0, q, formula);
    assert s.rows[0..] == s.rows;
    if s.rows != [] { assert DenseRow(s.rows[|s.rows| - 1], |s.rows|); }
  }

  /** The raw value and the formula text read at p are those of the abstract sheet at its anchor. */
  lemma ReadsAreAt(s: Sheet, p: Pos)
    requires Dense(s.rows) && CanonicalRefs(StoredRefs(s.merges)) && p.Valid()
    ensures var q := Anchor(s.merges, p);
            && GetCellValue(s, p.Name()) == Ok(At(s.rows, q.col, q.row).V)
            && GetCellFormula(s, p.Name()) == Ok(FormulaText(s, At(s.rows, q.col, q.row)))
  {
    hide CellName, Find, AreaOf, CanonicalRef;
    FindIsAt(s, p, false);
    FindIsAt(s, p, true);
  }

  // ---------- growing and writing

  /** The same abstract sheet on a grid that may be larger. */
  ghost predicate SameContent(D: seq<Row>, rows: seq<Row>) {
    && |D| >= |rows|
    && (forall c, r :: c >= 1 && r >= 1 ==> At(D, c, r) == At(rows, c, r))
    && (forall r :: r >= 1 ==> AttrsAt(D, r) == AttrsAt(rows, r))
  }

  /** Growing reaches the position, keeps the grid dense and shows nothing new. */
  lemma PrepareGrows(rows: seq<Row>, col: int, row: int)
    requires Dense(rows) && row >= 1 && col >= 0
    ensures var D := Prepare(rows, col, row);
            && Dense(D) && SameContent(D, rows)
            && |D| == Max(|rows|, row)
            && (forall r :: r >= 1 ==> WidthAt(D, r) == if r == row then Max(WidthAt(rows, r), col) else WidthAt(rows, r))
  {
    hide CellName;
    var D := Prepare(rows, col, row);
    forall i | 0 <= i < |D|
      ensures DenseRow(D[i], i + 1)
    {
      if i < |rows| { assert DenseRow(rows[i], i + 1); }
    }
  }

  /** D is rows with the data at one position replaced. */
  ghost predicate OneChanged(D: seq<Row>, rows: seq<Row>, q: Pos, data: CellData) {
    && Dense(D) && |D| >= |rows|
    && (forall c, r :: c >= 1 && r >= 1 ==> At(D, c, r) == if c == q.col && r == q.row then data else At(rows, c, r))
    && (forall r :: r >= 1 ==> AttrsAt(D, r) == AttrsAt(rows, r))
  }

  lemma PutChangesOne(rows: seq<Row>, q: Pos, data: CellData)
    requires Dense(rows) && InGrid(rows, q.col, q.row)
    ensures OneChanged(PutAt(rows, q.col, q.row, data), rows, q, data)
  {
    hide CellName;
    var D := PutAt(rows, q.col, q.row, data);
    forall i | 0 <= i < |D|
      ensures DenseRow(D[i], i + 1)
    {
      assert DenseRow(rows[i], i + 1);
    }
  }

  lemma ResolvesToAnchor(merges: Option<seq<string>>, p: Pos)
    requires CanonicalRefs(StoredRefs(merges)) && p.Valid()
    ensures Resolve(merges, p.Name()) == Ok(Anchor(merges, p).Name())
  {
    hide CellName, AreaOf, CanonicalRef;
    ResolveName(merges, p);
  }

  lemma PrepareCellAt(s: Sheet, p: Pos)
    requires Dense(s.rows) && CanonicalRefs(StoredRefs(s.merges)) && p.Valid()
    ensures var q := Anchor(s.merges, p);
            var rows := Prepare(s.rows, q.col, q.row);
            && PrepareCell(s, p.Name()) == Ok((rows, q.col, q.row))
            && InGrid(rows, q.col, q.row) && Dense(rows) && SameContent(rows, s.rows)
            && rows[q.row - 1].C[q.col - 1].data == At(s.rows, q.col, q.row)
  {
    hide CellName, CellNameToCoordinates, AreaOf, CanonicalRefs, Prepare, SameContent, Dense, Resolve, ResolveAt, At;
    var q := Anchor(s.merges, p);
    ResolvesToAnchor(s.merges, p);
    CoordinatesRoundTrip(q.col, q.row);
    PrepareGrows(s.rows, q.col, q.row);
    assert WidthAt(Prepare(s.rows, q.col, q.row), q.row) >= q.col;
    GrownData(Prepare(s.rows, q.col, q.row), s.rows, q);
  }

  lemma GrownData(D: seq<Row>, rows: seq<Row>, q: Pos)
    requires SameContent(D, rows) && q.Valid() && InGrid(D, q.col, q.row)
    ensures D[q.row - 1].C[q.col - 1].data == At(rows, q.col, q.row)
  {
    assert At(D, q.col, q.row) == At(rows, q.col, q.row);
  }

  /** The writers on raw values: one position changes, the grid may grow, everything else stays. */
  lemma SetCellWrites(s: Sheet, p: Pos, kind: string, value: string, leadingSpace: bool)
    requires Dense(s.rows) && CanonicalRefs(StoredRefs(s.merges)) && p.Valid()
    ensures var (s', o) := SetCell(s, p.Name(), kind, value, leadingSpace);
            var q := Anchor(s.merges, p);
            var d := At(s.rows, q.col, q.row);
            && o == Done && s' == s.(rows := s'.rows)
            && OneChanged(s'.rows, s.rows, q, Stamp(d, ColumnStyle(s.cols, q.col, d.S), kind, value, leadingSpace))
  {
    hide CellName, PrepareCell, Prepare, ColumnStyle, AreaOf, CanonicalRef, Dense;
    var q := Anchor(s.merges, p);
    PrepareCellAt(s, p);
    var rows := Prepare(s.rows, q.col, q.row);
    var d := At(s.rows, q.col, q.row);
    PutChangesOne(rows, q, Stamp(d, ColumnStyle(s.cols, q.col, d.S), kind, value, leadingSpace));
  }

  /** Reading back: the addresses of the written anchor read the value, all others read as before. */
  lemma WriteThenRead(s: Sheet, p: Pos, kind: string, value: string, leadingSpace: bool, b: Pos)
    requires Dense(s.rows) && CanonicalRefs(StoredRefs(s.merges)) && p.Valid() && b.Valid()
    ensures var s' := SetCell(s, p.Name(), kind, value, leadingSpace).0;
            && GetCellValue(s', b.Name()) ==
               (if Anchor(s.merges, b) == Anchor(s.merges, p) then Ok(value) else GetCellValue(s, b.Name()))
            && GetCellFormula(s', b.Name()) == GetCellFormula(s, b.Name())
  {
    hide CellName, SetCell, AreaOf, CanonicalRef, Dense, GetCellValue, GetCellFormula, ColumnStyle;
    SetCellWrites(s, p, kind, value, leadingSpace);
    var s' := SetCell(s, p.Name(), kind, value, leadingSpace).0;
    ReadsAreAt(s, b);
    ReadsAreAt(s', b);
  }

  // ---------- formulas are shared by pointer

  ghost predicate PointersBelow(rows: seq<Row>, m: nat) {
    forall c, r :: c >= 1 && r >= 1 && At(rows, c, r).F.Some? ==> At(rows, c, r).F.value < m
  }

  /** Every formula pointer of the sheet is in the store. */
  ghost predicate PointersValid(s: Sheet) { PointersBelow(s.rows, |s.formulas|) }

  /** Two positions hold the same formula record. */
  predicate Shares(s: Sheet, a: Pos, b: Pos) {
    var f, g := At(s.rows, a.col, a.row).F, At(s.rows, b.col, b.row).F;
    f.Some? && f == g
  }

  lemma SetFormulaWrites(s: Sheet, p: Pos, formula: string)
    requires Dense(s.rows) && CanonicalRefs(StoredRefs(s.merges)) && p.Valid() && PointersValid(s) && formula != ""
    ensures var (s', o) := SetCellFormula(s, p.Name(), formula);
            var q := Anchor(s.merges, p);
            var d := At(s.rows, q.col, q.row);
            && o == Done && s' == s.(rows := s'.rows, formulas := s'.formulas)
            && Dense(s'.rows)
            && OneChanged(s'.rows, s.rows, q, d.(F := if d.F.Some? then d.F else Some(|s.formulas|)))
            && s'.formulas == if d.F.Some? then s.formulas[d.F.value := formula] else s.formulas + [formula]
  {
    hide CellName, PrepareCell, Prepare, AreaOf, CanonicalRef, Dense;
    var q := Anchor(s.merges, p);
    PrepareCellAt(s, p);
    var d := At(s.rows, q.col, q.row);
    if d.F.None? { PutChangesOne(Prepare(s.rows, q.col, q.row), q, d.(F := Some(|s.formulas|))); }
  }

  /**
   Setting a formula at p sets it at every position that shares p's formula record, and nowhere
   else: the formula read at b becomes the new one exactly when b is p or shares its record.
   */
  lemma FormulaReaches(s: Sheet, p: Pos, formula: string, b: Pos)
    requires Dense(s.rows) && CanonicalRefs(StoredRefs(s.merges)) && p.Valid() && b.Valid()
    requires PointersValid(s) && formula != ""
    ensures var s' := SetCellFormula(s, p.Name(), formula).0;
            var q, c := Anchor(s.merges, p), Anchor(s.merges, b);
            GetCellFormula(s', b.Name()) == if c == q || Shares(s, q, c) then Ok(formula) else GetCellFormula(s, b.Name())
  {
    hide CellName, SetCellFormula, AreaOf, CanonicalRef, Dense, GetCellValue, GetCellFormula;
    SetFormulaWrites(s, p, formula);
    ReadsAreAt(s, b);
    ReadsAreAt(SetCellFormula(s, p.Name(), formula).0, b);
  }

  // ---------- styles

  /** SetCellStyle changes the style on exactly the given rectangle and nothing else. */
  ghost predicate StyledExactly(D: seq<Row>, rows: seq<Row>, a: Area, style: int) {
    && Dense(D) && |D| >= |rows|
    && (forall r :: r >= 1 ==> AttrsAt(D, r) == AttrsAt(rows, r))
    && (forall c, r :: c >= 1 && r >= 1 ==>
          At(D, c, r) == if a.Contains(Pos(c, r)) then At(rows, c, r).(S := style) else At(rows, c, r))
  }

  lemma ContiguousGrows(rows: seq<Row>, fromRow: int, toRow: int, col: int)
    requires Dense(rows) && 1 <= fromRow <= toRow <= |rows| && col >= 0
    ensures var D := Contiguous(rows, fromRow, toRow, col);
            && Dense(D) && SameContent(D, rows) && |D| == |rows|
            && (forall r :: r >= 1 ==>
                  WidthAt(D, r) == if fromRow <= r < toRow then Max(WidthAt(rows, r), col) else WidthAt(rows, r))
  {
    hide CellName;
    var D := Contiguous(rows, fromRow, toRow, col);
    forall i | 0 <= i < |D|
      ensures DenseRow(D[i], i + 1)
    {
      assert DenseRow(rows[i], i + 1);
    }
  }

  lemma StyleRowsExactly(rows: seq<Row>, a: Area, style: int)
    requires Dense(rows) && a.Placed() && a.c1 <= a.c2 && a.r1 <= a.r2 <= |rows|
    requires forall r :: a.r1 <= r <= a.r2 ==> WidthAt(rows, r) >= a.c2
    ensures StyledExactly(StyleRows(rows, a.c1, a.r1, a.c2, a.r2, style), rows, a, style)
  {
    hide CellName;
    var D := StyleRows(rows, a.c1, a.r1, a.c2, a.r2, style);
    forall i | 0 <= i < |D|
      ensures DenseRow(D[i], i + 1)
    {
      assert DenseRow(rows[i], i + 1);
    }
    forall c, r | c >= 1 && r >= 1
      ensures At(D, c, r) == if a.Contains(Pos(c, r)) then At(rows, c, r).(S := style) else At(rows, c, r)
    {
      if a.Contains(Pos(c, r)) { assert WidthAt(rows, r) >= a.c2; }
    }
  }

  lemma SetStyleExactly(s: Sheet, hcell: string, vcell: string, p: Pos, q: Pos, style: int)
    requires Dense(s.rows) && p.Valid() && q.Valid()
    requires CellNameToCoordinates(hcell) == Ok((p.col, p.row))
    requires CellNameToCoordinates(vcell) == Ok((q.col, q.row))
    ensures var (s', o) := SetCellStyle(s, hcell, vcell, style);
            && o == Done && s' == s.(rows := s'.rows)
            && StyledExactly(s'.rows, s.rows, Between(p, q), style)
  {
    hide CellName, CellNameToCoordinates, Prepare, Contiguous, StyleRows, Dense, StyledExactly;
    var a := Between(p, q);
    PrepareGrows(s.rows, a.c2, a.r2);
    var grown := Prepare(s.rows, a.c2, a.r2);
    ContiguousGrows(grown, a.r1, a.r2, a.c2);
    var wide := Contiguous(grown, a.r1, a.r2, a.c2);
    forall r | a.r1 <= r <= a.r2
      ensures WidthAt(wide, r) >= a.c2
    {
      assert r == a.r2 ==> WidthAt(grown, r) >= a.c2;
    }
    StyleRowsExactly(wide, a, style);
    StyledThrough(StyleRows(wide, a.c1, a.r1, a.c2, a.r2, style), wide, grown, s.rows, a, style);
  }

  lemma StyledThrough(D: seq<Row>, wide: seq<Row>, grown: seq<Row>, rows: seq<Row>, a: Area, style: int)
    requires StyledExactly(D, wide, a, style) && SameContent(wide, grown) && SameContent(grown, rows)
    ensures StyledExactly(D, rows, a, style)
  {
    hide Dense, At, AttrsAt;
    forall c, r | c >= 1 && r >= 1
      ensures At(D, c, r) == if a.Contains(Pos(c, r)) then At(rows, c, r).(S := style) else At(rows, c, r)
    {
      assert At(wide, c, r) == At(grown, c, r);
    }
    forall r | r >= 1
      ensures AttrsAt(D, r) == AttrsAt(rows, r)
    {
      assert AttrsAt(wide, r) == AttrsAt(grown, r);
    }
  }
}
