/**
 What the writers leave in a cell or a row, field by field, what the style readers read, and what
 clearing a formula clears: cell.go, rows.go and styles.go.
 */
module Writers {
  import opened Wrappers
  import opened Text
  import opened CellNames
  import opened SheetModel
  import opened CellSpec
  import opened Areas
  import opened Reads

  // ---------- styles shown

  predicate Covers(c: Col, col: int) { c.Min <= col <= c.Max }

  /** Range k is the last one over the column. */
  predicate LastOver(cols: seq<Col>, col: int, k: int) {
    0 <= k < |cols| && Covers(cols[k], col) && forall j :: k < j < |cols| ==> !Covers(cols[j], col)
  }

  /** v is the style that a cell stored with the given style shows in the column. */
  predicate Shows(cols: Option<seq<Col>>, col: int, stored: int, v: int) {
    if stored != 0 || cols.None? then v == stored
    else
      && (forall k :: 0 <= k < |cols.value| && LastOver(cols.value, col, k) ==> v == cols.value[k].Style)
      && ((forall k :: 0 <= k < |cols.value| ==> !Covers(cols.value[k], col)) ==> v == 0)
  }

  lemma {:induction false} LastStyleIs(cols: seq<Col>, col: int, style: int)
    ensures forall k :: LastOver(cols, col, k) ==> LastStyle(cols, col, style) == cols[k].Style
    ensures (forall k :: 0 <= k < |cols| ==> !Covers(cols[k], col)) ==> LastStyle(cols, col, style) == style
    ensures (exists k :: LastOver(cols, col, k)) || (forall k :: 0 <= k < |cols| ==> !Covers(cols[k], col))
  {
    if cols != [] {
      var last := |cols| - 1;
      var front := cols[..last];
      LastStyleIs(front, col, style);
      if Covers(cols[last], col) {
        assert LastOver(cols, col, last);
      } else {
        forall k
          ensures LastOver(cols, col, k) <==> LastOver(front, col, k)
        {
        }
        if k :| LastOver(front, col, k) { assert LastOver(cols, col, k); }
      }
    }
  }

  /** The column's style is what the last range over it gives an unstyled cell; and nothing else is shown. */
  lemma StyleShown(cols: Option<seq<Col>>, col: int, stored: int, v: int)
    ensures Shows(cols, col, stored, v) <==> v == ColumnStyle(cols, col, stored)
  {
    hide LastStyle, LastOver;
    if cols.Some? {
      LastStyleIs(cols.value, col, stored);
      if k :| LastOver(cols.value, col, k) { CoveredSomewhere(cols.value, col, k); }
    }
  }

  lemma CoveredSomewhere(cols: seq<Col>, col: int, k: int)
    requires LastOver(cols, col, k)
    ensures 0 <= k < |cols| && Covers(cols[k], col)
  {
  }

  /** The style read at p is the one its anchor shows; reading may grow the grid and changes nothing else. */
  lemma StyleRead(s: Sheet, p: Pos)
    requires Dense(s.rows) && CanonicalRefs(StoredRefs(s.merges)) && p.Valid()
    ensures var (s', r) := GetCellStyle(s, p.Name());
            var q := Anchor(s.merges, p);
            && r.Ok? && Shows(s.cols, q.col, At(s.rows, q.col, q.row).S, r.value)
            && s' == s.(rows := s'.rows) && Dense(s'.rows) && SameContent(s'.rows, s.rows)
  {
    hide CellName, PrepareCell, Prepare, CanonicalRefs, Dense, SameContent, ColumnStyle, Shows, At;
    var q := Anchor(s.merges, p);
    PrepareCellAt(s, p);
    var stored := At(s.rows, q.col, q.row).S;
    StyleShown(s.cols, q.col, stored, ColumnStyle(s.cols, q.col, stored));
  }

  /** After styling a rectangle, addresses anchored in it read the style, all others what they read before. */
  lemma StyleThenRead(s: Sheet, hcell: string, vcell: string, p: Pos, q: Pos, style: int, b: Pos)
    requires Dense(s.rows) && CanonicalRefs(StoredRefs(s.merges)) && p.Valid() && q.Valid() && b.Valid()
    requires CellNameToCoordinates(hcell) == Ok((p.col, p.row)) && CellNameToCoordinates(vcell) == Ok((q.col, q.row))
    requires style != 0
    ensures var s' := SetCellStyle(s, hcell, vcell, style).0;
            var at := Anchor(s.merges, b);
            GetCellStyle(s', b.Name()).1 ==
            if Between(p, q).Contains(at) then Ok(style) else GetCellStyle(s, b.Name()).1
  {
    hide CellName, CellNameToCoordinates, SetCellStyle, GetCellStyle, CanonicalRefs, Dense, SameContent, At, ColumnStyle, Between,
         ResolveAt;
    SetStyleExactly(s, hcell, vcell, p, q, style);
    var s' := SetCellStyle(s, hcell, vcell, style).0;
    var at := Anchor(s.merges, b);
    StyleRead(s, b);
    StyleRead(s', b);
    StyledAt(s'.rows, s.rows, Between(p, q), style, at);
    StyleShown(s.cols, at.col, At(s.rows, at.col, at.row).S, GetCellStyle(s, b.Name()).1.value);
    StyleShown(s.cols, at.col, At(s'.rows, at.col, at.row).S, GetCellStyle(s', b.Name()).1.value);
    StyleShown(s.cols, at.col, style, style);
  }

  lemma StyledAt(D: seq<Row>, rows: seq<Row>, a: Area, style: int, at: Pos)
    requires StyledExactly(D, rows, a, style) && at.Valid()
    ensures Dense(D)
    ensures At(D, at.col, at.row).S == if a.Contains(at) then style else At(rows, at.col, at.row).S
    ensures !a.Contains(at) ==> At(D, at.col, at.row) == At(rows, at.col, at.row)
  {
    hide Dense;
    assert Pos(at.col, at.row) == at;
  }

  // ---------- values, field by field

  /** The cell after a raw write, in terms of the cell before. */
  ghost predicate Written(after: CellData, before: CellData, cols: Option<seq<Col>>, col: int, kind: string, value: string, leadingSpace: bool) {
    && after.V == value && after.T == kind && after.F == before.F
    && after.preserveSpace == (before.preserveSpace || leadingSpace)
    && Shows(cols, col, before.S, after.S)
  }

  /** D is rows with one cell rewritten; rows and every other cell are as they were. */
  ghost predicate WrittenAt(D: seq<Row>, rows: seq<Row>, cols: Option<seq<Col>>, q: Pos, kind: string, value: string, leadingSpace: bool) {
    && Dense(D)
    && Written(At(D, q.col, q.row), At(rows, q.col, q.row), cols, q.col, kind, value, leadingSpace)
    && (forall c, r :: c >= 1 && r >= 1 && (c != q.col || r != q.row) ==> At(D, c, r) == At(rows, c, r))
    && (forall r :: r >= 1 ==> AttrsAt(D, r) == AttrsAt(rows, r))
  }

  lemma SetCellFields(s: Sheet, p: Pos, kind: string, value: string, leadingSpace: bool)
    requires Dense(s.rows) && CanonicalRefs(StoredRefs(s.merges)) && p.Valid()
    ensures var (s', o) := SetCell(s, p.Name(), kind, value, leadingSpace);
            && o == Done && s' == s.(rows := s'.rows)
            && WrittenAt(s'.rows, s.rows, s.cols, Anchor(s.merges, p), kind, value, leadingSpace)
  {
    hide CellName, SetCell, CanonicalRefs, Dense, At, AttrsAt, ColumnStyle, Shows;
    SetCellWrites(s, p, kind, value, leadingSpace);
    var q := Anchor(s.merges, p);
    var d := At(s.rows, q.col, q.row);
    StyleShown(s.cols, q.col, d.S, ColumnStyle(s.cols, q.col, d.S));
  }

  /** The four writers: the type, the text and the space flag that each leaves. */
  lemma TypedFields(s: Sheet, p: Pos, text: string, flag: bool, number: int)
    requires Dense(s.rows) && CanonicalRefs(StoredRefs(s.merges)) && p.Valid()
    ensures var q := Anchor(s.merges, p);
            var shown := if |text| > 32767 then text[..32767] else text;
            && WrittenAt(SetCellStr(s, p.Name(), text).0.rows, s.rows, s.cols, q, "str", shown, text != "" && text[0] == ' ')
            && WrittenAt(SetCellBool(s, p.Name(), flag).0.rows, s.rows, s.cols, q, "b", if flag then "1" else "0", false)
            && WrittenAt(SetCellInt(s, p.Name(), number).0.rows, s.rows, s.cols, q, "", ItoaInt(number), false)
            && WrittenAt(SetCellDefault(s, p.Name(), text).0.rows, s.rows, s.cols, q, "", text, false)
  {
    hide CellName, SetCell, CanonicalRefs, Dense, WrittenAt;
    var shown := if |text| > 32767 then text[..32767] else text;
    SetCellFields(s, p, "str", shown, |shown| > 0 && shown[0] == ' ');
    SetCellFields(s, p, "b", if flag then "1" else "0", false);
    SetCellFields(s, p, "", ItoaInt(number), false);
    SetCellFields(s, p, "", text, false);
  }

  // ---------- clearing a formula

  /**
   Setting the empty formula takes the record away from the anchor of p alone: its addresses read no
   formula, cells that shared the record keep it, and every value and the store are as before.
   */
  lemma FormulaCleared(s: Sheet, p: Pos, b: Pos)
    requires Dense(s.rows) && CanonicalRefs(StoredRefs(s.merges)) && p.Valid() && b.Valid()
    ensures var (s', o) := SetCellFormula(s, p.Name(), "");
            && o == Done && s' == s.(rows := s'.rows)
            && OneChanged(s'.rows, s.rows, Anchor(s.merges, p),
                          At(s.rows, Anchor(s.merges, p).col, Anchor(s.merges, p).row).(F := None))
            && GetCellFormula(s', b.Name()) ==
               (if Anchor(s.merges, b) == Anchor(s.merges, p) then Ok("") else GetCellFormula(s, b.Name()))
            && GetCellValue(s', b.Name()) == GetCellValue(s, b.Name())
  {
    hide CellName, PrepareCell, Prepare, AreaOf, CanonicalRef, Dense, GetCellValue, GetCellFormula, ResolveAt;
    var q := Anchor(s.merges, p);
    PrepareCellAt(s, p);
    PutChangesOne(Prepare(s.rows, q.col, q.row), q, At(s.rows, q.col, q.row).(F := None));
    ReadsAreAt(s, b);
    ReadsAreAt(SetCellFormula(s, p.Name(), "").0, b);
  }

  // ---------- row heights

  /** Setting a height changes the height and the flag of that row; the grid may grow to it, and all else is as before. */
  lemma HeightSet(s: Sheet, row: int, height: real)
    requires Dense(s.rows) && row >= 1
    ensures var (s', o) := SetRowHeight(s, row, height);
            && o == Done && s' == s.(rows := s'.rows) && Dense(s'.rows) && |s'.rows| == Max(|s.rows|, row)
            && (forall r :: r >= 1 ==>
                  AttrsAt(s'.rows, r) ==
                  if r == row then AttrsAt(s.rows, r).(Ht := height, CustomHeight := true) else AttrsAt(s.rows, r))
            && (forall c, r :: c >= 1 && r >= 1 ==> At(s'.rows, c, r) == At(s.rows, c, r))
  {
    hide CellName, Prepare;
    PrepareGrows(s.rows, 0, row);
    var rows := Prepare(s.rows, 0, row);
    var D := SetRowHeight(s, row, height).0.rows;
    forall i | 0 <= i < |D|
      ensures DenseRow(D[i], i + 1)
    {
      assert DenseRow(rows[i], i + 1);
    }
    assert AttrsAt(rows, row) == AttrsAt(s.rows, row);
    assert forall c, r :: c >= 1 && r >= 1 ==> At(D, c, r) == At(rows, c, r);
  }
}
