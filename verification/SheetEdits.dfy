/** Insertion on whole sheets: what it does to the grid and all that travels with it, and that reading commutes with it. */
module SheetEdits {
  import opened Wrappers
  import opened CellNames
  import opened SheetModel
  import opened AdjustSpec
  import opened EditSpec
  import opened CellSpec
  import opened Normalise
  import opened GridEdits
  import opened Areas
  import opened References
  import opened Reads

  function StoredLinks(s: Sheet): (links: seq<Hyperlink>) {
    if s.links.None? then [] else s.links.value
  }

  /** A dense grid, and references in canonical spelling. */
  ghost predicate WellFormed(s: Sheet) {
    && Dense(s.rows)
    && CanonicalRefs(StoredRefs(s.merges))
    && CanonicalLinks(StoredLinks(s))
    && (s.filter.Some? ==> CanonicalFilter(s.filter.value))
  }

  function MovedMerges(merges: Option<seq<string>>, dir: Direction, n: int): (merges': Option<seq<string>>)
    requires CanonicalRefs(StoredRefs(merges)) && n >= 1
  {
    if merges.None? then None else Some(MovedRefs(merges.value, dir, n, 1))
  }

  function MovedLinks(links: Option<seq<Hyperlink>>, dir: Direction, n: int): (links': Option<seq<Hyperlink>>) {
    if links.None? then None else Some(ShiftLinks(links.value, dir, n, 1))
  }

  function MovedFilter(filter: Option<string>, dir: Direction, n: int): (filter': Option<string>)
    requires n >= 1 && (filter.Some? ==> CanonicalFilter(filter.value))
  {
    if filter.None? || FilterCleared(AreaOf(filter.value), dir, n, 1) then None
    else Some(FilterArea(AreaOf(filter.value), dir, n, 1).Ref())
  }

  /** The rows an insertion works on: clearing a one-column filter shows the rows it had hidden. */
  function Shown(s: Sheet, dir: Direction, n: int): (rows: seq<Row>) {
    if s.filter.Some? && FilterCleared(AreaOf(s.filter.value), dir, n, 1)
    then Unhide(s.rows, AreaOf(s.filter.value).r1, AreaOf(s.filter.value).r2) else s.rows
  }

  // ---------- what travels with the grid

  lemma LinksInserted(links: Option<seq<Hyperlink>>, dir: Direction, n: int)
    requires n >= 1 && (links.Some? ==> CanonicalLinks(links.value))
    ensures AdjustLinks(links, dir, n, 1) == (MovedLinks(links, dir, n), Done)
    ensures MovedLinks(links, dir, n).Some? ==> CanonicalLinks(MovedLinks(links, dir, n).value)
    ensures AdjustLinks(MovedLinks(links, dir, n), dir, n, -1) == (links, Done)
  {
    hide CanonicalLinks, AdjustLinks, ShiftLinks;
    if links.None? { NoLinks(dir, n); } else { LinksShift(links.value, dir, n); }
  }

  lemma NoLinks(dir: Direction, n: int)
    ensures AdjustLinks(None, dir, n, 1) == (None, Done) && AdjustLinks(None, dir, n, -1) == (None, Done)
  {
  }

  lemma MergesInserted(merges: Option<seq<string>>, dir: Direction, n: int)
    requires n >= 1 && CanonicalRefs(StoredRefs(merges))
    ensures var merges' := MovedMerges(merges, dir, n);
            && AdjustMerges(merges, dir, n, 1) == (merges', Done)
            && CanonicalRefs(StoredRefs(merges'))
            && (WellMerged(StoredRefs(merges)) ==> WellMerged(StoredRefs(merges')))
            && AdjustMerges(merges', dir, n, -1) == (merges, Done)
  {
    hide CanonicalRefs, MovedRefs, WellMerged;
    if merges.Some? {
      hide AdjustMerges;
      InsertionKeepsMerges(merges.value, dir, n);
      RemovalUndoesMerges(merges.value, dir, n);
    }
  }

  lemma FilterInserted(filter: Option<string>, rows: seq<Row>, dir: Direction, n: int)
    requires n >= 1 && (filter.Some? ==> CanonicalFilter(filter.value))
    ensures AdjustFilter(filter, rows, dir, n, 1) ==
            (MovedFilter(filter, dir, n),
             if filter.Some? && FilterCleared(AreaOf(filter.value), dir, n, 1)
             then Unhide(rows, AreaOf(filter.value).r1, AreaOf(filter.value).r2) else rows,
             Done)
    ensures MovedFilter(filter, dir, n).Some? ==> CanonicalFilter(MovedFilter(filter, dir, n).value)
  {
    hide AreaOf, CellName, Unhide;
    if filter.Some? {
      hide AdjustFilter;
      FilterMoves(filter.value, rows, dir, n, 1);
      FilterMeans(FilterArea(AreaOf(filter.value), dir, n, 1));
    }
  }

  /** Removing the line just inserted gives a filter back, unless inserting the column cleared it. */
  lemma FilterRestored(filter: Option<string>, rows: seq<Row>, dir: Direction, n: int)
    requires n >= 1 && (filter.Some? ==> CanonicalFilter(filter.value))
    ensures AdjustFilter(MovedFilter(filter, dir, n), rows, dir, n, -1) ==
            (if filter.Some? && FilterCleared(AreaOf(filter.value), dir, n, 1) then None else filter, rows, Done)
  {
    hide AreaOf, CellName, Unhide;
    if filter.Some? && !FilterCleared(AreaOf(filter.value), dir, n, 1) {
      hide AdjustFilter;
      var a := AreaOf(filter.value);
      var b := FilterArea(a, dir, n, 1);
      FilterMeans(b);
      FilterMeans(a);
      assert FilterArea(b, dir, n, -1) == a;
      FilterMoves(b.Ref(), rows, dir, n, -1);
    }
  }

  // ---------- the grid behind a cleared filter

  lemma UnhideKeeps(rows: seq<Row>, first: int, last: int)
    requires Dense(rows)
    ensures var D := Unhide(rows, first, last);
            && Dense(D) && |D| == |rows|
            && (forall c, r :: At(D, c, r) == At(rows, c, r))
            && (forall r :: WidthAt(D, r) == WidthAt(rows, r))
  {
    hide CellName;
    var D := Unhide(rows, first, last);
    forall i | 0 <= i < |D|
      ensures DenseRow(D[i], i + 1)
    {
      assert DenseRow(rows[i], i + 1);
    }
  }

  lemma UnhideCommutes(rows: seq<Row>, n: int, offset: int, first: int, last: int)
    ensures Unhide(AdjustCols(rows, n, offset), first, last) == AdjustCols(Unhide(rows, first, last), n, offset)
  {
    hide ShiftCell;
    var a, b := Unhide(AdjustCols(rows, n, offset), first, last), AdjustCols(Unhide(rows, first, last), n, offset);
    forall i | 0 <= i < |rows|
      ensures a[i] == b[i]
    {
      assert a[i].C == b[i].C;
    }
  }

  // ---------- insertion

  /** InsertRow on a well-formed sheet. */
  lemma InsertRowEffect(s: Sheet, n: int)
    requires WellFormed(s) && n >= 1
    ensures var (s', o) := InsertRow(s, n);
            && o == Done && WellFormed(s')
            && LineInserted(s'.rows, s.rows, n)
            && s'.rows == Check(AdjustRows(s.rows, n, 1)).0
            && s' == Sheet(s'.rows, MovedLinks(s.links, Rows, n), MovedMerges(s.merges, Rows, n),
                           MovedFilter(s.filter, Rows, n), s.cols, s.formulas)
            && (WellMerged(StoredRefs(s.merges)) ==> WellMerged(StoredRefs(s'.merges)))
  {
    hide Dense, CanonicalRefs, CanonicalLinks, CanonicalFilter, LineInserted, AdjustRows, AdjustLinks, AdjustMerges,
         AdjustFilter, CheckRows, CheckSheet, MovedRefs, ShiftLinks, MovedFilter, WellMerged, AreaOf;
    InsertLine(s.rows, n);
    InsertedIsDense(Check(AdjustRows(s.rows, n, 1)).0, s.rows, n);
    LinksInserted(s.links, Rows, n);
    MergesInserted(s.merges, Rows, n);
    FilterInserted(s.filter, AdjustRows(s.rows, n, 1), Rows, n);
  }

  lemma InsertedIsDense(D: seq<Row>, rows: seq<Row>, n: int)
    ensures LineInserted(D, rows, n) ==> Dense(D)
    ensures ColumnInserted(D, rows, n) ==> Dense(D)
    ensures LineRemoved(D, rows, n) ==> Dense(D)
    ensures ColumnRemoved(D, rows, n) ==> Dense(D)
  {
  }

  /** InsertCol on a well-formed sheet. */
  lemma InsertColEffect(s: Sheet, col: string)
    requires WellFormed(s) && ColumnNumber(col).Ok?
    ensures var n := ColumnNumber(col).value;
            var (s', o) := InsertCol(s, col);
            && n >= 1
            && o == Done && WellFormed(s')
            && Dense(Shown(s, Columns, n))
            && ColumnInserted(s'.rows, Shown(s, Columns, n), n)
            && s' == Sheet(s'.rows, MovedLinks(s.links, Columns, n), MovedMerges(s.merges, Columns, n),
                           MovedFilter(s.filter, Columns, n), s.cols, s.formulas)
            && (WellMerged(StoredRefs(s.merges)) ==> WellMerged(StoredRefs(s'.merges)))
  {
    ColumnsRoundTrip(1, col);
    hide ColumnNumber, Dense, CanonicalRefs, CanonicalLinks, CanonicalFilter, ColumnInserted, AdjustCols, AdjustLinks,
         AdjustMerges, AdjustFilter, CheckRows, CheckSheet, MovedRefs, ShiftLinks, MovedFilter, WellMerged, AreaOf, Unhide;
    var n := ColumnNumber(col).value;
    var base := Shown(s, Columns, n);
    if s.filter.Some? {
      UnhideKeeps(s.rows, AreaOf(s.filter.value).r1, AreaOf(s.filter.value).r2);
      UnhideCommutes(s.rows, n, 1, AreaOf(s.filter.value).r1, AreaOf(s.filter.value).r2);
    }
    InsertColumn(base, n);
    InsertedIsDense(Check(AdjustCols(base, n, 1)).0, base, n);
    LinksInserted(s.links, Columns, n);
    MergesInserted(s.merges, Columns, n);
    FilterInserted(s.filter, AdjustCols(s.rows, n, 1), Columns, n);
  }

  // ---------- reading commutes with inserting

  lemma AnchorShifts(merges: Option<seq<string>>, p: Pos, dir: Direction, n: int)
    requires CanonicalRefs(StoredRefs(merges)) && p.Valid() && n >= 1
    requires CanonicalRefs(StoredRefs(MovedMerges(merges, dir, n)))
    ensures ShiftPos(p, dir, n).Valid()
    ensures Anchor(MovedMerges(merges, dir, n), ShiftPos(p, dir, n)) == ShiftPos(Anchor(merges, p), dir, n)
  {
    hide CanonicalRef, AreaOf, MovedRef;
    ShiftIsMove(p, dir, n);
    if merges.Some? {
      InsertionKeepsMerges(merges.value, dir, n);
      ResolveShifts(merges.value, 0, p, dir, n);
    }
  }

  lemma NameSplits(p: Pos)
    requires p.Valid()
    ensures SplitCellName(p.Name()).Ok?
  {
    hide SplitCellName;
    CoordinatesRoundTrip(p.col, p.row);
  }

  /** The link found at p, in terms of the anchor of p. */
  lemma LinkAtAnchor(s: Sheet, p: Pos)
    requires CanonicalRefs(StoredRefs(s.merges)) && p.Valid()
    ensures GetCellHyperLink(s, p.Name()) == Ok(FirstLink(StoredLinks(s), Anchor(s.merges, p).Name()))
  {
    hide CellName, AreaOf, CanonicalRef, SplitCellName, Resolve;
    NameSplits(p);
    ResolveName(s.merges, p);
  }

  // ---------- setting a link

  lemma {:induction false} FirstOfAppended(links: seq<Hyperlink>, link: Hyperlink, ref: string)
    ensures FirstLink(links + [link], ref) ==
            if FirstLink(links, ref).Some? then FirstLink(links, ref) else if link.Ref == ref then Some(link) else None
  {
    if links == [] {
      assert [] + [link] == [link] && [link][1..] == [];
    } else {
      assert (links + [link])[1..] == links[1..] + [link];
      FirstOfAppended(links[1..], link, ref);
    }
  }

  /** The record that SetCellHyperLink stores for a link of a known type. */
  function NewLink(ref: string, link: string, linkType: string, rid: string): (record: Hyperlink) {
    if linkType == "External" then Hyperlink(ref, rid, "") else Hyperlink(ref, "", link)
  }

  /**
   A link set at p is read at q exactly if q has p's anchor and no link was stored there before: an
   earlier one stays in front, and everything else reads as before.
   */
  lemma LinkReadsBack(s: Sheet, p: Pos, link: string, linkType: string, rid: string, q: Pos)
    requires CanonicalRefs(StoredRefs(s.merges)) && p.Valid() && q.Valid()
    requires (linkType == "External" || linkType == "Location") && |StoredLinks(s)| <= MAX_LINKS
    ensures var (s', o) := SetCellHyperLink(s, p.Name(), link, linkType, rid);
            var at := Anchor(s.merges, p);
            var record := NewLink(at.Name(), link, linkType, rid);
            && o == Done && s' == s.(links := Some(StoredLinks(s) + [record]))
            && GetCellHyperLink(s, q.Name()).Ok?
            && var before := GetCellHyperLink(s, q.Name()).value;
               && GetCellHyperLink(s', q.Name()) == Ok(if before.None? && Anchor(s.merges, q) == at then Some(record) else before)
               && (GetCellHyperLink(s', q.Name()) == Ok(Some(record)) <==>
                     before == Some(record) || (before.None? && Anchor(s.merges, q) == at))
  {
    hide CellName, CanonicalRefs, SplitCellName, Resolve, FirstLink, GetCellHyperLink, ResolveAt, AreaOf;
    NameSplits(p);
    ResolvesToAnchor(s.merges, p);
    var at, other := Anchor(s.merges, p), Anchor(s.merges, q);
    var record := NewLink(at.Name(), link, linkType, rid);
    var s' := s.(links := Some(StoredLinks(s) + [record]));
    LinkAtAnchor(s, q);
    LinkAtAnchor(s', q);
    FirstOfAppended(StoredLinks(s), record, other.Name());
    NamesDiffer(at, other);
  }

  /** The value, formula and link at a shifted address are those at the address before. */
  ghost predicate ReadsAlike(s': Sheet, p': Pos, s: Sheet, p: Pos, at: Pos)
    requires p'.Valid() && p.Valid() && at.Valid()
  {
    && GetCellValue(s', p'.Name()) == GetCellValue(s, p.Name())
    && GetCellFormula(s', p'.Name()) == GetCellFormula(s, p.Name())
    && GetCellHyperLink(s, p.Name()).Ok?
    && GetCellHyperLink(s', p'.Name()) == Ok(Retarget(GetCellHyperLink(s, p.Name()).value, at.Name()))
  }

  lemma ReadsAlikeAt(s': Sheet, s: Sheet, p: Pos, dir: Direction, n: int)
    requires n >= 1 && p.Valid() && WellFormed(s) && WellFormed(s')
    requires s'.merges == MovedMerges(s.merges, dir, n) && s'.links == MovedLinks(s.links, dir, n)
    requires s'.formulas == s.formulas
    requires forall q: Pos :: q.Valid() ==>
               At(s'.rows, ShiftPos(q, dir, n).col, ShiftPos(q, dir, n).row) == At(s.rows, q.col, q.row)
    ensures ShiftPos(p, dir, n).Valid() && ShiftPos(Anchor(s.merges, p), dir, n).Valid()
    ensures ReadsAlike(s', ShiftPos(p, dir, n), s, p, ShiftPos(Anchor(s.merges, p), dir, n))
  {
    hide Dense, CanonicalRefs, CanonicalLinks, CanonicalFilter, CellName, GetCellValue, GetCellFormula, GetCellHyperLink, At, FirstLink;
    AnchorShifts(s.merges, p, dir, n);
    var p', q := ShiftPos(p, dir, n), Anchor(s.merges, p);
    ShiftIsMove(q, dir, n);
    ReadsAreAt(s, p);
    ReadsAreAt(s', p');
    LinkAtAnchor(s, p);
    LinkAtAnchor(s', p');
    FirstLinkShifts(StoredLinks(s), q, dir, n);
    NoLinkMoves(s, dir, n);
  }

  lemma NoLinkMoves(s: Sheet, dir: Direction, n: int)
    ensures StoredLinks(s.(links := MovedLinks(s.links, dir, n))) == ShiftLinks(StoredLinks(s), dir, n, 1)
  {
    assert ShiftLinks([], dir, n, 1) == [];
  }

  /** Reads commute with InsertRow, through merged areas. */
  lemma InsertRowReads(s: Sheet, n: int, p: Pos)
    requires WellFormed(s) && n >= 1 && p.Valid()
    ensures ShiftPos(p, Rows, n).Valid() && ShiftPos(Anchor(s.merges, p), Rows, n).Valid()
    ensures ReadsAlike(InsertRow(s, n).0, ShiftPos(p, Rows, n), s, p, ShiftPos(Anchor(s.merges, p), Rows, n))
  {
    hide InsertRow, Dense, CanonicalRefs, CanonicalLinks, CanonicalFilter, ReadsAlike, At, MovedRefs, ShiftLinks, MovedFilter;
    InsertRowEffect(s, n);
    var s' := InsertRow(s, n).0;
    forall q: Pos | q.Valid()
      ensures At(s'.rows, ShiftPos(q, Rows, n).col, ShiftPos(q, Rows, n).row) == At(s.rows, q.col, q.row)
    {
      assert SameLine(s'.rows, Shift(q.row, n), s.rows, q.row);
    }
    ReadsAlikeAt(s', s, p, Rows, n);
  }

  /** Reads commute with InsertCol, through merged areas. */
  lemma InsertColReads(s: Sheet, col: string, p: Pos)
    requires WellFormed(s) && ColumnNumber(col).Ok? && p.Valid()
    ensures var n := ColumnNumber(col).value;
            && ShiftPos(p, Columns, n).Valid() && ShiftPos(Anchor(s.merges, p), Columns, n).Valid()
            && ReadsAlike(InsertCol(s, col).0, ShiftPos(p, Columns, n), s, p, ShiftPos(Anchor(s.merges, p), Columns, n))
  {
    hide InsertCol, Dense, CanonicalRefs, CanonicalLinks, CanonicalFilter, ReadsAlike, At, MovedRefs, ShiftLinks, MovedFilter, AreaOf;
    InsertColEffect(s, col);
    var n, s' := ColumnNumber(col).value, InsertCol(s, col).0;
    if s.filter.Some? { UnhideKeeps(s.rows, AreaOf(s.filter.value).r1, AreaOf(s.filter.value).r2); }
    forall q: Pos | q.Valid()
      ensures At(s'.rows, ShiftPos(q, Columns, n).col, ShiftPos(q, Columns, n).row) == At(s.rows, q.col, q.row)
    {
      assert CellInserted(s'.rows, Shown(s, Columns, n), q.row, n);
    }
    ReadsAlikeAt(s', s, p, Columns, n);
  }
}
