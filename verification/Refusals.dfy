/** Which calls are refused, with which error, and that a refused call leaves the sheet as it was: adjust, rows, cell and styles. */
module Refusals {
  import opened Wrappers
  import opened CellNames
  import opened SheetModel
  import opened AdjustSpec
  import opened EditSpec
  import opened CellSpec
  import opened Areas
  import opened Reads
  import opened SheetEdits
  import opened Addresses

  // ---------- structural edits

  /** Rows are numbered from one; beyond the last row there is nothing to remove or to copy. */
  lemma RowEdits(s: Sheet, row: int, row2: int)
    ensures row < 1 ==>
              && InsertRow(s, row) == (s, Failed(InvalidRowNumber(row)))
              && RemoveRow(s, row) == (s, Failed(InvalidRowNumber(row)))
              && DuplicateRowTo(s, row, row2) == (s, Failed(InvalidRowNumber(row)))
              && (forall height :: SetRowHeight(s, row, height) == (s, Failed(InvalidRowNumber(row))))
    ensures row > |s.rows| && row >= 1 ==> RemoveRow(s, row) == (s, Done) && DuplicateRowTo(s, row, row2) == (s, Done)
    ensures row >= 1 && (row2 < 1 || row == row2) ==> DuplicateRowTo(s, row, row2) == (s, Done)
  {
    hide AdjustHelper;
  }

  /** Columns are named by letters; anything else is refused. */
  lemma ColumnEdits(s: Sheet, col: string)
    ensures col == [] || !Text.AllAlpha(col) ==>
              && InsertCol(s, col) == (s, Failed(InvalidColumnName(col)))
              && RemoveCol(s, col) == (s, Failed(InvalidColumnName(col)))
  {
    hide AdjustHelper, DropColumn;
  }

  /** On a well-formed sheet an insertion is refused for these reasons only. */
  lemma InsertionsSucceed(s: Sheet, row: int, col: string)
    requires WellFormed(s)
    ensures InsertRow(s, row).1 == Done <==> row >= 1
    ensures InsertCol(s, col).1 == Done <==> col != [] && Text.AllAlpha(col)
  {
    hide InsertRow, InsertCol, WellFormed;
    RowEdits(s, row, 1);
    ColumnEdits(s, col);
    ColumnsRoundTrip(1, col);
    if row >= 1 { InsertRowEffect(s, row); }
    if ColumnNumber(col).Ok? { InsertColEffect(s, col); }
  }

  // ---------- addresses

  /** The error that an address is refused with. */
  function Refusal(a: string): (e: Error)
    requires !Accepted(a)
  {
    CellNameToCoordinates(a).error
  }

  /** Two corners are looked at in order. */
  lemma Corners(s: Sheet, hcell: string, vcell: string, style: int)
    ensures !Accepted(hcell) ==>
              && MergeCell(s, hcell, vcell) == (s, Failed(Refusal(hcell)))
              && SetCellStyle(s, hcell, vcell, style) == (s, Failed(Refusal(hcell)))
    ensures Accepted(hcell) && !Accepted(vcell) ==>
              && MergeCell(s, hcell, vcell) == (s, Failed(Refusal(vcell)))
              && SetCellStyle(s, hcell, vcell, style) == (s, Failed(Refusal(vcell)))
  {
    hide CellNameToCoordinates, ScanAreas;
  }

  lemma CornersSucceed(s: Sheet, hcell: string, vcell: string, style: int)
    requires Dense(s.rows) && CanonicalRefs(StoredRefs(s.merges)) && Accepted(hcell) && Accepted(vcell)
    ensures MergeCell(s, hcell, vcell).1 == Done && SetCellStyle(s, hcell, vcell, style).1 == Done
  {
    hide CellNameToCoordinates, CanonicalRef, MergeCell, SetCellStyle, Dense, AreaOf, Between;
    AcceptedIsPositive(hcell);
    AcceptedIsPositive(vcell);
    var (c1, r1) := CellNameToCoordinates(hcell).value;
    var (c2, r2) := CellNameToCoordinates(vcell).value;
    SetStyleExactly(s, hcell, vcell, Pos(c1, r1), Pos(c2, r2), style);
    MergeDone(s, hcell, vcell);
  }

  lemma MergeDone(s: Sheet, hcell: string, vcell: string)
    requires CanonicalRefs(StoredRefs(s.merges)) && Accepted(hcell) && Accepted(vcell)
    ensures MergeCell(s, hcell, vcell).1 == Done
  {
    hide CellNameToCoordinates, CanonicalRef, ScanAreas, AreaOf, CellName, CornersApart;
    AcceptedIsPositive(hcell);
    AcceptedIsPositive(vcell);
    var (c1, r1) := CellNameToCoordinates(hcell).value;
    var (c2, r2) := CellNameToCoordinates(vcell).value;
    if s.merges.Some? && !(c1 == c2 && r1 == r2) {
      ScanMeans(s.merges.value, 0, Between(Pos(c1, r1), Pos(c2, r2)));
      NamesOfCorners(Pos(c1, r1), Pos(c2, r2));
    }
  }

  lemma NamesOfCorners(p: Pos, q: Pos)
    requires p.Valid() && q.Valid() && p != q
    ensures Between(p, q).Valid()
    ensures NameOf(Min(p.col, q.col), Min(p.row, q.row)) == Between(p, q).First().Name()
    ensures NameOf(Max(p.col, q.col), Max(p.row, q.row)) == Between(p, q).Last().Name()
  {
    hide CellName;
  }

  /** Reads and writes of a cell are refused exactly if the address is not accepted, and then change nothing. */
  lemma CellCalls(s: Sheet, a: string, text: string, formula: string)
    requires Dense(s.rows) && CanonicalRefs(StoredRefs(s.merges))
    ensures Accepted(a) <==> PrepareCell(s, a).Ok?
    ensures Accepted(a) <==> GetCellValue(s, a).Ok?
    ensures Accepted(a) <==> GetCellFormula(s, a).Ok?
    ensures Accepted(a) <==> SetCellDefault(s, a, text).1 == Done
    ensures Accepted(a) <==> SetCellFormula(s, a, formula).1 == Done
    ensures Accepted(a) <==> GetCellStyle(s, a).1.Ok?
    ensures !Accepted(a) ==> SetCellDefault(s, a, text).0 == s && SetCellFormula(s, a, formula).0 == s && GetCellStyle(s, a).0 == s
  {
    hide Accepted, PrepareCell, Dense, CanonicalRefs, ColumnStyle, PutAt, Find, Named;
    if Accepted(a) {
      PrepareAccepted(s, a);
      PrepareCellAt(s, PosOfAccepted(a));
      ReadsAnchor(s, a);
      FindAccepted(s, a, true);
      FindAccepted(s, a, false);
      FindIsAt(s, PosOfAccepted(a), true);
    } else {
      Unaccepted(s, a);
    }
  }

  function PosOfAccepted(a: string): (p: Pos)
    requires Accepted(a)
    ensures p.Valid()
  {
    AcceptedIsPositive(a);
    Pos(CellNameToCoordinates(a).value.0, CellNameToCoordinates(a).value.1)
  }

  lemma Unaccepted(s: Sheet, a: string)
    requires !Accepted(a)
    ensures PrepareCell(s, a).Err? && Find(s, a, true).Err? && Find(s, a, false).Err?
    ensures Resolve(s.merges, a).Ok? ==> s.merges.None? || s.merges.value == []
  {
    hide CellNameToCoordinates, ScanRows, Prepare;
    UpperParses(a);
  }

  // ---------- hyperlinks

  /** A link is read unless the address does not split, or has areas to be looked up in and does not parse. */
  lemma LinkReads(s: Sheet, a: string)
    requires CanonicalRefs(StoredRefs(s.merges))
    ensures GetCellHyperLink(s, a).Ok? <==> SplitCellName(a).Ok? && (StoredRefs(s.merges) == [] || Accepted(a))
  {
    hide SplitCellName, FirstLink, CanonicalRefs, Accepted, ResolveFrom, CellNameToCoordinates;
    if Accepted(a) { AcceptedSplits(a); ResolveAccepted(s, a); } else { Unaccepted(s, a); Unmerged(s, a); }
  }

  lemma AcceptedSplits(a: string)
    requires Accepted(a)
    ensures SplitCellName(a).Ok?
  {
    hide SplitCellName;
  }

  lemma Unmerged(s: Sheet, a: string)
    ensures StoredRefs(s.merges) == [] ==> Resolve(s.merges, a).Ok?
  {
  }

  /** At an accepted address a link is stored if there are at most 65529 so far and its type is known; otherwise none is. */
  lemma LinkWrites(s: Sheet, a: string, link: string, linkType: string, rid: string)
    requires CanonicalRefs(StoredRefs(s.merges)) && Accepted(a)
    ensures var (s', o) := SetCellHyperLink(s, a, link, linkType, rid);
            && (|StoredLinks(s)| > 65529 ==> o == Failed(TooManyLinks) && StoredLinks(s') == StoredLinks(s))
            && (|StoredLinks(s)| <= 65529 && linkType != "External" && linkType != "Location" ==>
                  o == Failed(InvalidLinkType(linkType)) && StoredLinks(s') == StoredLinks(s))
            && (|StoredLinks(s)| <= 65529 && (linkType == "External" || linkType == "Location") ==>
                  o == Done && |StoredLinks(s')| == |StoredLinks(s)| + 1)
            && s' == s.(links := s'.links)
  {
    hide SplitCellName, CanonicalRefs, Accepted, Resolve, Named;
    AcceptedSplits(a);
    ResolveAccepted(s, a);
  }
}
