/** Whole runs of operations on a worksheet: what every step keeps. */
module Runs {
  import opened Wrappers
  import opened Text
  import opened CellNames
  import opened SheetModel
  import opened AdjustSpec
  import opened EditSpec
  import opened CellSpec
  import opened GridEdits
  import opened Areas
  import opened References
  import opened Removals
  import opened Reads
  import opened SheetEdits
  import opened Duplicate

  datatype Op =
    | PutValue(axis: string, kind: string, value: string, leadingSpace: bool)
    | PutFormula(axis: string, formula: string)
    | PutLink(axis: string, link: string, linkType: string, rid: string)
    | ReadStyle(axis: string)
    | PutStyle(hcell: string, vcell: string, style: int)
    | PutHeight(row: int, height: real)
    | Merge(hcell: string, vcell: string)
    | AddRow(row: int)
    | DropRow(row: int)
    | AddCol(col: string)
    | DropCol(col: string)
    | CopyRow(row: int, row2: int)

  function Apply(s: Sheet, op: Op): (result: (Sheet, Outcome)) {
    match op
    case PutValue(axis, kind, value, space) => SetCell(s, axis, kind, value, space)
    case PutFormula(axis, formula) => SetCellFormula(s, axis, formula)
    case PutLink(axis, link, linkType, rid) => SetCellHyperLink(s, axis, link, linkType, rid)
    case ReadStyle(axis) =>
      var (s', r) := GetCellStyle(s, axis);
      (s', match r case Ok(_) => Done case Err(e) => Failed(e))
    case PutStyle(hcell, vcell, style) => SetCellStyle(s, hcell, vcell, style)
    case PutHeight(row, height) => SetRowHeight(s, row, height)
    case Merge(hcell, vcell) => MergeCell(s, hcell, vcell)
    case AddRow(row) => InsertRow(s, row)
    case DropRow(row) => RemoveRow(s, row)
    case AddCol(col) => InsertCol(s, col)
    case DropCol(col) => RemoveCol(s, col)
    case CopyRow(row, row2) => DuplicateRowTo(s, row, row2)
  }

  /** What every step keeps that does not panic: a dense grid, canonical areas, and formula pointers into the store. */
  ghost predicate Loose(s: Sheet) {
    Dense(s.rows) && CanonicalRefs(StoredRefs(s.merges)) && s.filter.None? && PointersValid(s)
  }

  /** With links at canonical addresses as well. */
  ghost predicate Good(s: Sheet) {
    Loose(s) && CanonicalLinks(StoredLinks(s))
  }

  /**
   The steps a caller may take. Values, formulas, styles, heights, merges and insertions are always
   allowed, with any strings; links need canonical addresses up to case; removals must not meet the
   blind spots of the removal loops, and columns are removed by their canonical letters; a row is
   duplicated to at most one line past the last.
   */
  predicate Legal(s: Sheet, op: Op) {
    match op
    case PutLink(axis, _, _, _) => CanonicalName(ToUpper(axis))
    case DropRow(row) => 1 <= row <= |s.rows| ==> RemovalSafe(s, Rows, row)
    case DropCol(col) =>
      ColumnNumber(col).Ok? ==> col == ToUpper(col) && RemovalSafe(s, Columns, ColumnNumber(col).value)
    case CopyRow(row, row2) => 1 <= row <= |s.rows| && row2 >= 1 && row != row2 ==> row2 <= |s.rows| + 1
    case _ => true
  }

  /** The steps that leave the grid dense: links and removals without restriction. */
  predicate Careful(s: Sheet, op: Op) {
    match op
    case DropCol(col) => ColumnNumber(col).Ok? ==> col == ToUpper(col)
    case CopyRow(row, row2) => 1 <= row <= |s.rows| && row2 >= 1 && row != row2 ==> row2 <= |s.rows| + 1
    case _ => true
  }

  predicate LegalRun(s: Sheet, ops: seq<Op>)
    decreases ops
  {
    hide Apply, Legal;
    ops == [] || (Legal(s, ops[0]) && LegalRun(Apply(s, ops[0]).0, ops[1..]))
  }

  function Run(s: Sheet, ops: seq<Op>): (result: Sheet)
    decreases ops
  {
    hide Apply;
    if ops == [] then s else Run(Apply(s, ops[0]).0, ops[1..])
  }

  predicate NoPanic(s: Sheet, ops: seq<Op>)
    decreases ops
  {
    hide Apply;
    ops == [] || (!Apply(s, ops[0]).1.Panicked? && NoPanic(Apply(s, ops[0]).0, ops[1..]))
  }

  // ---------- writers, with any address at all

  lemma PreparedAny(s: Sheet, axis: string)
    requires Dense(s.rows) && PrepareCell(s, axis).Ok?
    ensures var (rows, col, row) := PrepareCell(s, axis).value;
            Dense(rows) && SameContent(rows, s.rows) && InGrid(rows, col, row)
  {
    hide Dense, SameContent, CellNameToCoordinates, Resolve;
    var (rows, col, row) := PrepareCell(s, axis).value;
    var cell := Resolve(s.merges, axis).value;
    AcceptedIsPositive(cell);
    PrepareGrows(s.rows, col, row);
  }

  lemma PointersGrown(D: seq<Row>, rows: seq<Row>, m: nat)
    requires SameContent(D, rows) && PointersBelow(rows, m)
    ensures PointersBelow(D, m)
  {
    hide At, AttrsAt;
  }

  lemma PointersPut(D: seq<Row>, rows: seq<Row>, q: Pos, data: CellData, m: nat)
    requires OneChanged(D, rows, q, data) && PointersBelow(rows, m) && (data.F.Some? ==> data.F.value < m)
    ensures PointersBelow(D, m)
  {
    hide At, AttrsAt, Dense;
  }

  lemma PointerAt(rows: seq<Row>, q: Pos, m: nat)
    requires PointersBelow(rows, m) && InGrid(rows, q.col, q.row)
    ensures rows[q.row - 1].C[q.col - 1].data.F.Some? ==> rows[q.row - 1].C[q.col - 1].data.F.value < m
  {
    assert At(rows, q.col, q.row) == rows[q.row - 1].C[q.col - 1].data;
  }

  lemma PointersMore(rows: seq<Row>, m: nat, m': nat)
    requires PointersBelow(rows, m) && m <= m'
    ensures PointersBelow(rows, m')
  {
    hide At;
  }

  lemma PutValueKeeps(s: Sheet, axis: string, kind: string, value: string, leadingSpace: bool)
    requires Loose(s)
    ensures var (s', o) := SetCell(s, axis, kind, value, leadingSpace);
            Loose(s') && !o.Panicked? && s'.merges == s.merges && s'.links == s.links
  {
    hide PrepareCell, Dense, CanonicalRefs, CanonicalLinks, PutAt, ColumnStyle, SameContent, PointersBelow, OneChanged;
    if PrepareCell(s, axis).Ok? {
      var (rows, col, row) := PrepareCell(s, axis).value;
      PreparedAny(s, axis);
      var d := rows[row - 1].C[col - 1].data;
      var data := Stamp(d, ColumnStyle(s.cols, col, d.S), kind, value, leadingSpace);
      PointersGrown(rows, s.rows, |s.formulas|);
      PointerAt(rows, Pos(col, row), |s.formulas|);
      PutKeeps(rows, Pos(col, row), data, |s.formulas|);
    }
  }

  lemma PutKeeps(rows: seq<Row>, q: Pos, data: CellData, m: nat)
    requires Dense(rows) && InGrid(rows, q.col, q.row) && PointersBelow(rows, m) && (data.F.Some? ==> data.F.value < m)
    ensures Dense(PutAt(rows, q.col, q.row, data)) && PointersBelow(PutAt(rows, q.col, q.row, data), m)
  {
    hide PutAt, Dense, PointersBelow;
    PutChangesOne(rows, q, data);
    PointersPut(PutAt(rows, q.col, q.row, data), rows, q, data, m);
  }

  lemma PutFormulaKeeps(s: Sheet, axis: string, formula: string)
    requires Loose(s)
    ensures var (s', o) := SetCellFormula(s, axis, formula);
            Loose(s') && !o.Panicked? && s'.merges == s.merges && s'.links == s.links
  {
    hide PrepareCell, Dense, CanonicalRefs, CanonicalLinks, PutAt, SameContent, PointersBelow;
    if PrepareCell(s, axis).Ok? {
      var (rows, col, row) := PrepareCell(s, axis).value;
      PreparedAny(s, axis);
      var d := rows[row - 1].C[col - 1].data;
      var m := |s.formulas|;
      PointersGrown(rows, s.rows, m);
      PointerAt(rows, Pos(col, row), m);
      PutKeeps(rows, Pos(col, row), d.(F := None), m);
      PointersMore(rows, m, m + 1);
      PutKeeps(rows, Pos(col, row), d.(F := Some(m)), m + 1);
    }
  }

  lemma ReadStyleKeeps(s: Sheet, axis: string)
    requires Loose(s)
    ensures var s' := GetCellStyle(s, axis).0;
            Loose(s') && s'.merges == s.merges && s'.links == s.links
  {
    hide PrepareCell, Dense, CanonicalRefs, CanonicalLinks, SameContent, PointersBelow, ColumnStyle;
    if PrepareCell(s, axis).Ok? {
      PreparedAny(s, axis);
      PointersGrown(PrepareCell(s, axis).value.0, s.rows, |s.formulas|);
    }
  }

  lemma PutStyleKeeps(s: Sheet, hcell: string, vcell: string, style: int)
    requires Loose(s)
    ensures var (s', o) := SetCellStyle(s, hcell, vcell, style);
            Loose(s') && !o.Panicked? && s'.merges == s.merges && s'.links == s.links
  {
    hide CellNameToCoordinates, Dense, CanonicalRefs, CanonicalLinks, Prepare, Contiguous, StyleRows, PointersBelow;
    var first, last := CellNameToCoordinates(hcell), CellNameToCoordinates(vcell);
    if first.Ok? && last.Ok? {
      AcceptedIsPositive(hcell);
      AcceptedIsPositive(vcell);
      var p, q := Pos(first.value.0, first.value.1), Pos(last.value.0, last.value.1);
      SetStyleExactly(s, hcell, vcell, p, q, style);
      PointersStyled(SetCellStyle(s, hcell, vcell, style).0.rows, s.rows, Between(p, q), style, |s.formulas|);
    }
  }

  lemma PointersStyled(D: seq<Row>, rows: seq<Row>, a: Area, style: int, m: nat)
    requires StyledExactly(D, rows, a, style) && PointersBelow(rows, m)
    ensures Dense(D) && PointersBelow(D, m)
  {
    hide At, AttrsAt, Dense;
  }

  lemma PutHeightKeeps(s: Sheet, row: int, height: real)
    requires Loose(s)
    ensures var (s', o) := SetRowHeight(s, row, height);
            Loose(s') && !o.Panicked? && s'.merges == s.merges && s'.links == s.links
  {
    hide Dense, CanonicalRefs, CanonicalLinks, Prepare, PointersBelow, SameContent;
    if row >= 1 {
      PrepareGrows(s.rows, 0, row);
      var rows := Prepare(s.rows, 0, row);
      PointersGrown(rows, s.rows, |s.formulas|);
      AttrsChange(rows, row, rows[row - 1].attrs.(Ht := height, CustomHeight := true), |s.formulas|);
    }
  }

  lemma AttrsChange(rows: seq<Row>, row: int, attrs: RowAttrs, m: nat)
    requires Dense(rows) && 1 <= row <= |rows| && PointersBelow(rows, m)
    ensures var D := rows[row - 1 := rows[row - 1].(attrs := attrs)];
            Dense(D) && PointersBelow(D, m)
  {
    hide CellName;
    var D := rows[row - 1 := rows[row - 1].(attrs := attrs)];
    forall i | 0 <= i < |D|
      ensures DenseRow(D[i], i + 1)
    {
      assert DenseRow(rows[i], i + 1);
    }
    forall c, r | c >= 1 && r >= 1
      ensures At(D, c, r) == At(rows, c, r)
    {
    }
  }

  /** A link at any address at all; at a canonical address, up to case, links stay canonical. */
  lemma PutLinkKeeps(s: Sheet, axis: string, link: string, linkType: string, rid: string)
    requires Loose(s)
    ensures var (s', o) := SetCellHyperLink(s, axis, link, linkType, rid);
            && Loose(s') && !o.Panicked? && s'.merges == s.merges
            && (CanonicalLinks(StoredLinks(s)) && CanonicalName(ToUpper(axis)) ==> CanonicalLinks(StoredLinks(s')))
  {
    hide Dense, CanonicalRefs, PointersBelow, SplitCellName, CanonicalLinks, CanonicalName, Resolve;
    if CanonicalLinks(StoredLinks(s)) && CanonicalName(ToUpper(axis)) { PutLinkCanonical(s, axis, link, linkType, rid); }
  }

  lemma PutLinkCanonical(s: Sheet, axis: string, link: string, linkType: string, rid: string)
    requires CanonicalRefs(StoredRefs(s.merges)) && CanonicalLinks(StoredLinks(s)) && CanonicalName(ToUpper(axis))
    ensures CanonicalLinks(StoredLinks(SetCellHyperLink(s, axis, link, linkType, rid).0))
  {
    hide CanonicalRef, SplitCellName, PosOf, AreaOf, ResolveFrom, CellName;
    var p := PosOf(ToUpper(axis));
    assert p.Valid() && ToUpper(axis) == p.Name();
    if s.merges.Some? { ResolveMeans(s.merges.value, 0, p); }
    NamePos(Anchor(s.merges, p));
    LinkAppended(StoredLinks(s), Hyperlink(Anchor(s.merges, p).Name(), rid, ""));
    LinkAppended(StoredLinks(s), Hyperlink(Anchor(s.merges, p).Name(), "", link));
  }

  lemma LinkAppended(links: seq<Hyperlink>, link: Hyperlink)
    requires CanonicalLinks(links) && CanonicalName(link.Ref)
    ensures CanonicalLinks(links + [link])
  {
    hide CanonicalName;
  }

  // ---------- merging

  lemma MergeStaysCanonical(s: Sheet, hcell: string, vcell: string)
    requires CanonicalRefs(StoredRefs(s.merges))
    ensures var (s', o) := MergeCell(s, hcell, vcell);
            && !o.Panicked? && s' == s.(merges := s'.merges) && CanonicalRefs(StoredRefs(s'.merges))
            && (WellMerged(StoredRefs(s.merges)) ==> WellMerged(StoredRefs(s'.merges)))
  {
    hide CellNameToCoordinates, CanonicalRef, AreaOf, ScanAreas, CellName, CornersApart;
    var first, last := CellNameToCoordinates(hcell), CellNameToCoordinates(vcell);
    if first.Ok? && last.Ok? {
      AcceptedIsPositive(hcell);
      AcceptedIsPositive(vcell);
      var p, q := Pos(first.value.0, first.value.1), Pos(last.value.0, last.value.1);
      if p != q {
        var a := Between(p, q);
        assert NameOf(a.c1, a.r1) == a.First().Name() && NameOf(a.c2, a.r2) == a.Last().Name();
        RefParses(a);
        if WellMerged(StoredRefs(s.merges)) { MergeKeeps(s, hcell, vcell, p, q); }
      }
    }
  }

  // ---------- insertions

  lemma PointersLineInserted(D: seq<Row>, rows: seq<Row>, n: int, m: nat)
    requires LineInserted(D, rows, n) && n >= 1 && PointersBelow(rows, m)
    ensures PointersBelow(D, m)
  {
    hide Dense, AttrsAt;
    forall c, r | c >= 1 && r >= 1 && At(D, c, r).F.Some?
      ensures At(D, c, r).F.value < m
    {
      if r != n {
        var q := if r < n then r else r - 1;
        assert r == Shift(q, n) && SameLine(D, Shift(q, n), rows, q);
        assert At(D, c, r) == At(rows, c, q);
      }
    }
  }

  lemma PointersColumnInserted(D: seq<Row>, rows: seq<Row>, n: int, m: nat)
    requires ColumnInserted(D, rows, n) && n >= 1 && PointersBelow(rows, m)
    ensures PointersBelow(D, m)
  {
    hide Dense, At, AttrsAt, WidthAt;
    forall c, r | c >= 1 && r >= 1 && At(D, c, r).F.Some?
      ensures At(D, c, r).F.value < m
    {
      assert CellInserted(D, rows, r, n);
      if c != n {
        var b := if c < n then c else c - 1;
        assert c == Shift(b, n) && At(D, Shift(b, n), r) == At(rows, b, r);
      }
    }
  }

  /** The links aside, an insertion works as on a sheet without any; and it moves every link. */
  lemma LinksAside(s: Sheet, dir: Direction, n: int)
    ensures var (s', o) := AdjustHelper(s, dir, n, 1);
            var (bare, o') := AdjustHelper(s.(links := None), dir, n, 1);
            o == o' && s' == bare.(links := s'.links)
  {
    hide AdjustRows, AdjustCols, AdjustMerges, AdjustFilter, CheckRows, CheckSheet, ShiftLinks;
  }

  lemma LinksStayCanonical(s: Sheet, dir: Direction, n: int)
    requires n >= 1 && CanonicalLinks(StoredLinks(s))
    ensures CanonicalLinks(StoredLinks(AdjustHelper(s, dir, n, 1).0))
  {
    hide AdjustRows, AdjustCols, AdjustMerges, AdjustFilter, CheckRows, CheckSheet, CanonicalLinks, AdjustLinks, MovedLinks;
    NoLinksCanonical();
    LinksInserted(s.links, dir, n);
  }

  lemma AddRowKeeps(s: Sheet, n: int)
    requires Loose(s)
    ensures var (s', o) := InsertRow(s, n);
            && Loose(s') && !o.Panicked?
            && (CanonicalLinks(StoredLinks(s)) ==> CanonicalLinks(StoredLinks(s')))
            && (WellMerged(StoredRefs(s.merges)) ==> WellMerged(StoredRefs(s'.merges)))
  {
    hide LineInserted, Dense, CanonicalRefs, CanonicalLinks, PointersBelow, AdjustHelper, MovedRefs, ShiftLinks, WellMerged;
    if n >= 1 {
      var bare := s.(links := None);
      NoLinksCanonical();
      InsertRowEffect(bare, n);
      LinksAside(s, Rows, n);
      if CanonicalLinks(StoredLinks(s)) { LinksStayCanonical(s, Rows, n); }
      PointersLineInserted(InsertRow(bare, n).0.rows, s.rows, n, |s.formulas|);
    }
  }

  lemma AddColKeeps(s: Sheet, col: string)
    requires Loose(s)
    ensures var (s', o) := InsertCol(s, col);
            && Loose(s') && !o.Panicked?
            && (CanonicalLinks(StoredLinks(s)) ==> CanonicalLinks(StoredLinks(s')))
            && (WellMerged(StoredRefs(s.merges)) ==> WellMerged(StoredRefs(s'.merges)))
  {
    hide ColumnInserted, Dense, CanonicalRefs, CanonicalLinks, PointersBelow, AdjustHelper, MovedRefs, ShiftLinks,
         WellMerged, ColumnNumber;
    if ColumnNumber(col).Ok? {
      var bare, n := s.(links := None), ColumnNumber(col).value;
      NoLinksCanonical();
      InsertColEffect(bare, col);
      LinksAside(s, Columns, n);
      if CanonicalLinks(StoredLinks(s)) { LinksStayCanonical(s, Columns, n); }
      PointersColumnInserted(InsertCol(bare, col).0.rows, s.rows, n, |s.formulas|);
    }
  }

  /** DuplicateRowTo does not look at the links beyond its insertion. */
  lemma CopyLinksAside(s: Sheet, row: int, row2: int)
    ensures var (s', o) := DuplicateRowTo(s, row, row2);
            var (bare, o') := DuplicateRowTo(s.(links := None), row, row2);
            && o == o' && s' == bare.(links := s'.links)
            && (s'.links == s.links || (row2 >= 1 && s'.links == AdjustHelper(s, Rows, row2, 1).0.links))
  {
    hide AdjustHelper, FirstNumbered, ShiftRow, RenumberRow;
    LinksAside(s, Rows, row2);
  }

  lemma CopyRowKeeps(s: Sheet, row: int, row2: int)
    requires Loose(s) && Careful(s, CopyRow(row, row2))
    ensures var (s', o) := DuplicateRowTo(s, row, row2);
            && Loose(s') && !o.Panicked?
            && (CanonicalLinks(StoredLinks(s)) ==> CanonicalLinks(StoredLinks(s')))
            && (WellMerged(StoredRefs(s.merges)) ==> WellMerged(StoredRefs(s'.merges)))
  {
    hide LineDuplicated, Dense, CanonicalRefs, CanonicalLinks, PointersBelow, AdjustHelper, InsertRow, FirstNumbered,
         MovedRefs, ShiftLinks, WellMerged, RenumberRow, ShiftRow, DuplicateRowTo;
    CopyLinksAside(s, row, row2);
    if row2 >= 1 && CanonicalLinks(StoredLinks(s)) { LinksStayCanonical(s, Rows, row2); }
    CopyBare(s.(links := None), row, row2);
  }

  lemma CopyBare(s: Sheet, row: int, row2: int)
    requires Loose(s) && Careful(s, CopyRow(row, row2)) && s.links.None?
    ensures var (s', o) := DuplicateRowTo(s, row, row2);
            && Loose(s') && !o.Panicked?
            && (WellMerged(StoredRefs(s.merges)) ==> WellMerged(StoredRefs(s'.merges)))
  {
    hide LineDuplicated, Dense, CanonicalRefs, CanonicalLinks, PointersBelow, AdjustHelper, InsertRow, FirstNumbered,
         MovedRefs, ShiftLinks, WellMerged, RenumberRow, ShiftRow;
    if 1 <= row <= |s.rows| && row2 >= 1 && row != row2 {
      NoLinksCanonical();
      DuplicateEffect(s, row, row2);
      AddRowKeeps(s, row2);
      var D := DuplicateRowTo(s, row, row2).0.rows;
      DuplicatedIsDense(D, s.rows, row, row2);
      PointersDuplicated(D, s.rows, row, row2, |s.formulas|);
      MergesAfter(s, row2);
    }
  }

  // ---------- removals

  lemma PointersLineRemoved(D: seq<Row>, rows: seq<Row>, n: int, m: nat)
    requires LineRemoved(D, rows, n) && PointersBelow(rows, m)
    ensures Dense(D) && PointersBelow(D, m)
  {
    hide Dense, AttrsAt, At, WidthAt;
    forall c, r | c >= 1 && r >= 1 && At(D, c, r).F.Some?
      ensures At(D, c, r).F.value < m
    {
      assert SameLine(D, r, rows, Shift(r, n));
      assert At(D, c, r) == At(rows, c, Shift(r, n));
    }
  }

  lemma PointersColumnRemoved(D: seq<Row>, rows: seq<Row>, n: int, m: nat)
    requires ColumnRemoved(D, rows, n) && PointersBelow(rows, m)
    ensures Dense(D) && PointersBelow(D, m)
  {
    hide Dense, AttrsAt, At, WidthAt;
    forall c, r | c >= 1 && r >= 1 && At(D, c, r).F.Some?
      ensures At(D, c, r).F.value < m
    {
      assert CellRemoved(D, rows, r, n);
      assert At(D, c, r) == At(rows, Shift(c, n), r);
    }
  }

  lemma NoLinksCanonical()
    ensures CanonicalLinks([])
  {
  }

  /** A removal leaves the grid dense even if it panics, and all the rest of the invariant if it does not. */
  lemma DropRowAnyway(s: Sheet, row: int)
    requires Loose(s)
    ensures var (s', o) := RemoveRow(s, row);
            Dense(s'.rows) && (!o.Panicked? ==> Loose(s'))
  {
    hide LineRemoved, Dense, CanonicalRefs, PointersBelow, AdjustHelper, AdjustRows, FirstNumbered;
    if 1 <= row <= |s.rows| {
      RemoveLine(s.rows, row);
      DenseNumber(s.rows, row);
      var before := s.rows[..row - 1] + s.rows[row..];
      PointersLineRemoved(AdjustRows(before, row, -1), s.rows, row, |s.formulas|);
      RemovedAnyway(s, before, Rows, row);
    }
  }

  lemma DropColAnyway(s: Sheet, col: string)
    requires Loose(s) && Careful(s, DropCol(col))
    ensures var (s', o) := RemoveCol(s, col);
            Dense(s'.rows) && (!o.Panicked? ==> Loose(s'))
  {
    ColumnsRoundTrip(1, col);
    hide ColumnRemoved, Dense, CanonicalRefs, PointersBelow, AdjustHelper, AdjustCols, DropColumn, ColumnNumber, ColumnName;
    if ColumnNumber(col).Ok? {
      var n := ColumnNumber(col).value;
      RemoveColumn(s.rows, n);
      PointersColumnRemoved(AdjustCols(DropColumn(s.rows, col), n, -1), s.rows, n, |s.formulas|);
      RemovedAnyway(s, DropColumn(s.rows, col), Columns, n);
    }
  }

  // ---------- whole runs

  predicate Removes(op: Op) { op.DropRow? || op.DropCol? }

  /** Every careful step leaves the grid dense, and keeps the rest of the invariant unless it panics; only removals can. */
  lemma StepStaysDense(s: Sheet, op: Op)
    requires Loose(s) && Careful(s, op)
    ensures var (s', o) := Apply(s, op);
            Dense(s'.rows) && (!o.Panicked? ==> Loose(s')) && (o.Panicked? ==> Removes(op))
  {
    hide Loose, SetCell, SetCellFormula, SetCellHyperLink, GetCellStyle, SetCellStyle,
         SetRowHeight, MergeCell, InsertRow, InsertCol, RemoveRow, RemoveCol, DuplicateRowTo, ColumnNumber, Dense,
         CanonicalLinks, CanonicalName, WellMerged, StoredRefs, StoredLinks;
    LooseIsDense(s);
    match op
    case PutValue(axis, kind, value, space) => PutValueKeeps(s, axis, kind, value, space); LooseIsDense(Apply(s, op).0);
    case PutFormula(axis, formula) => PutFormulaKeeps(s, axis, formula); LooseIsDense(Apply(s, op).0);
    case PutLink(axis, link, linkType, rid) => PutLinkKeeps(s, axis, link, linkType, rid); LooseIsDense(Apply(s, op).0);
    case ReadStyle(axis) => ReadStyleKeeps(s, axis); LooseIsDense(Apply(s, op).0);
    case PutStyle(hcell, vcell, style) => PutStyleKeeps(s, hcell, vcell, style); LooseIsDense(Apply(s, op).0);
    case PutHeight(row, height) => PutHeightKeeps(s, row, height); LooseIsDense(Apply(s, op).0);
    case Merge(hcell, vcell) => MergeKeepsAll(s, hcell, vcell); LooseIsDense(Apply(s, op).0);
    case AddRow(row) => AddRowKeeps(s, row); LooseIsDense(Apply(s, op).0);
    case DropRow(row) => DropRowAnyway(s, row);
    case AddCol(col) => AddColKeeps(s, col); LooseIsDense(Apply(s, op).0);
    case DropCol(col) => DropColAnyway(s, col);
    case CopyRow(row, row2) => CopyRowKeeps(s, row, row2); LooseIsDense(Apply(s, op).0);
  }

  lemma LooseIsDense(s: Sheet)
    ensures Loose(s) ==> Dense(s.rows)
  {
  }

  lemma MergeKeepsAll(s: Sheet, hcell: string, vcell: string)
    requires Loose(s)
    ensures var (s', o) := MergeCell(s, hcell, vcell);
            Loose(s') && !o.Panicked? && s'.links == s.links
  {
    hide MergeCell, CanonicalRefs, Dense, PointersBelow;
    MergeStaysCanonical(s, hcell, vcell);
  }

  /** Every legal step keeps the sheet good and ends without a panic. */
  lemma StepKeeps(s: Sheet, op: Op)
    requires Good(s) && Legal(s, op)
    ensures Good(Apply(s, op).0) && !Apply(s, op).1.Panicked?
  {
    hide Loose, RemovalSafe, CanonicalName, SetCell, SetCellFormula, SetCellHyperLink, GetCellStyle, SetCellStyle,
         SetRowHeight, MergeCell, InsertRow, InsertCol, DuplicateRowTo, ColumnNumber, RemoveRow, RemoveCol, CanonicalLinks, Dense;
    assert Careful(s, op);
    StepStaysDense(s, op);
    match op
    case PutValue(axis, kind, value, space) => PutValueKeeps(s, axis, kind, value, space);
    case PutFormula(axis, formula) => PutFormulaKeeps(s, axis, formula);
    case PutLink(axis, link, linkType, rid) => PutLinkKeeps(s, axis, link, linkType, rid);
    case ReadStyle(axis) => ReadStyleKeeps(s, axis);
    case PutStyle(hcell, vcell, style) => PutStyleKeeps(s, hcell, vcell, style);
    case PutHeight(row, height) => PutHeightKeeps(s, row, height);
    case Merge(hcell, vcell) => MergeKeepsAll(s, hcell, vcell);
    case AddRow(row) => AddRowKeeps(s, row);
    case DropRow(row) => DropRowKeeps(s, row);
    case AddCol(col) => AddColKeeps(s, col);
    case DropCol(col) => DropColKeeps(s, col);
    case CopyRow(row, row2) => CopyRowKeeps(s, row, row2);
  }

  lemma GoodIsWellFormed(s: Sheet)
    requires Good(s)
    ensures WellFormed(s)
  {
    hide Dense, CanonicalRefs, CanonicalLinks;
  }

  lemma DropRowKeeps(s: Sheet, row: int)
    requires Good(s) && Legal(s, DropRow(row))
    ensures !RemoveRow(s, row).1.Panicked? && CanonicalLinks(StoredLinks(RemoveRow(s, row).0))
  {
    hide Loose, RemovalSafe, AdjustHelper, FirstNumbered, WellFormed, CanonicalLinks, SheetRemoved, FilterOrdered, LineRemoved, Dense;
    GoodIsWellFormed(s);
    if 1 <= row <= |s.rows| { RemoveRowEffect(s, row); }
  }

  lemma DropColKeeps(s: Sheet, col: string)
    requires Good(s) && Legal(s, DropCol(col))
    ensures !RemoveCol(s, col).1.Panicked? && CanonicalLinks(StoredLinks(RemoveCol(s, col).0))
  {
    hide Loose, RemovalSafe, AdjustHelper, DropColumn, ColumnNumber, WellFormed, CanonicalLinks, SheetRemoved, FilterOrdered, ColumnRemoved, Dense;
    GoodIsWellFormed(s);
    if ColumnNumber(col).Ok? { RemoveColEffect(s, col); }
  }

  predicate CarefulRun(s: Sheet, ops: seq<Op>)
    decreases ops
  {
    hide Apply, Careful;
    ops == [] || (Careful(s, ops[0]) && (Apply(s, ops[0]).1.Panicked? || CarefulRun(Apply(s, ops[0]).0, ops[1..])))
  }

  /** Every state of the run is dense, up to and including the one that a panic leaves. */
  ghost predicate DenseThroughout(s: Sheet, ops: seq<Op>)
    decreases ops
  {
    hide Apply, Dense;
    && Dense(s.rows)
    && (ops != [] ==>
          && Dense(Apply(s, ops[0]).0.rows)
          && (Apply(s, ops[0]).1.Panicked? || DenseThroughout(Apply(s, ops[0]).0, ops[1..])))
  }

  /** Density holds in every state of every careful run, whatever links and areas removals meet. */
  lemma {:induction false} RunStaysDense(s: Sheet, ops: seq<Op>)
    requires Loose(s) && CarefulRun(s, ops)
    ensures DenseThroughout(s, ops)
    ensures NoPanic(s, ops) ==> Loose(Run(s, ops))
    decreases ops
  {
    hide Loose, Careful, Apply, Dense;
    LooseIsDense(s);
    if ops != [] {
      StepStaysDense(s, ops[0]);
      if !Apply(s, ops[0]).1.Panicked? { RunStaysDense(Apply(s, ops[0]).0, ops[1..]); }
    }
  }

  /** Density, canonical references and valid formula pointers hold in every state of every legal run, without a panic. */
  lemma {:induction false} RunKeeps(s: Sheet, ops: seq<Op>)
    requires Good(s) && LegalRun(s, ops)
    ensures Good(Run(s, ops)) && NoPanic(s, ops)
    decreases ops
  {
    hide Good, Legal, Apply;
    if ops != [] {
      StepKeeps(s, ops[0]);
      RunKeeps(Apply(s, ops[0]).0, ops[1..]);
    }
  }

  lemma EmptyIsGood()
    ensures Good(EMPTY_SHEET) && WellMerged(StoredRefs(EMPTY_SHEET.merges))
  {
  }

  // ---------- areas over runs without removals

  predicate NeverRemoves(ops: seq<Op>) {
    forall k :: 0 <= k < |ops| ==> !Removes(ops[k])
  }

  lemma StepKeepsAreas(s: Sheet, op: Op)
    requires Good(s) && Legal(s, op) && !Removes(op) && WellMerged(StoredRefs(s.merges))
    ensures WellMerged(StoredRefs(Apply(s, op).0.merges))
  {
    hide Loose, CanonicalLinks, CanonicalName, WellMerged, SetCell, SetCellFormula, SetCellHyperLink, GetCellStyle, SetCellStyle,
         SetRowHeight, MergeCell, InsertRow, InsertCol, DuplicateRowTo, ColumnNumber;
    match op
    case PutValue(axis, kind, value, space) => PutValueKeeps(s, axis, kind, value, space);
    case PutFormula(axis, formula) => PutFormulaKeeps(s, axis, formula);
    case PutLink(axis, link, linkType, rid) => PutLinkKeeps(s, axis, link, linkType, rid);
    case ReadStyle(axis) => ReadStyleKeeps(s, axis);
    case PutStyle(hcell, vcell, style) => PutStyleKeeps(s, hcell, vcell, style);
    case PutHeight(row, height) => PutHeightKeeps(s, row, height);
    case Merge(hcell, vcell) => WellMergedCanonical(StoredRefs(s.merges)); MergeStaysCanonical(s, hcell, vcell);
    case AddRow(row) => AddRowKeeps(s, row);
    case AddCol(col) => AddColKeeps(s, col);
    case CopyRow(row, row2) => CopyRowKeeps(s, row, row2);
  }

  lemma WellMergedCanonical(refs: seq<string>)
    requires WellMerged(refs)
    ensures CanonicalRefs(refs)
  {
  }

  /**
   In every state reached without removals, each stored area is ordered, has more than one cell,
   and no first or last corner lies in another area; so resolution stops after one step.
   */
  lemma {:induction false} RunKeepsAreas(s: Sheet, ops: seq<Op>, p: Pos)
    requires Good(s) && LegalRun(s, ops) && NeverRemoves(ops) && WellMerged(StoredRefs(s.merges)) && p.Valid()
    ensures var refs := StoredRefs(Run(s, ops).merges);
            && WellMerged(refs)
            && ResolveAt(refs, 0, ResolveAt(refs, 0, p)) == ResolveAt(refs, 0, p)
            && ResolveAt(refs, 0, p) == var k := FirstHolding(refs, 0, p); if k < 0 then p else AreaOf(refs[k]).First()
    decreases ops
  {
    hide Good, Legal, Apply, AreaOf, CanonicalRef, CornersApart, Removes;
    if ops == [] {
      ResolveIdempotent(StoredRefs(s.merges), p);
      ResolveFirst(StoredRefs(s.merges), 0, p);
    } else {
      StepKeeps(s, ops[0]);
      StepKeepsAreas(s, ops[0]);
      RunKeepsAreas(Apply(s, ops[0]).0, ops[1..], p);
    }
  }
}
