/** Inserting and then removing the same line: exactly when it gives the sheet back. */
module Undo {
  import opened Wrappers
  import opened CellNames
  import opened SheetModel
  import opened AdjustSpec
  import opened EditSpec
  import opened GridEdits
  import opened Areas
  import opened References
  import opened SheetEdits

  // ---------- rows

  lemma LineRestored(A: seq<Row>, D: seq<Row>, rows: seq<Row>, n: int)
    requires Dense(rows) && 1 <= n <= |rows| && LineInserted(D, rows, n) && LineRemoved(A, D, n)
    ensures A == rows
  {
    hide Dense, At, AttrsAt, WidthAt;
    forall q | 1 <= q <= |A|
      ensures SameLine(A, q, rows, q)
    {
      assert SameLine(A, q, D, Shift(q, n)) && SameLine(D, Shift(q, n), rows, q);
      SameThrough(A, q, D, Shift(q, n), rows, q);
    }
    DenseGridsAgree(A, rows);
  }

  lemma SameThrough(A: seq<Row>, a: int, B: seq<Row>, b: int, C: seq<Row>, c: int)
    requires SameLine(A, a, B, b) && SameLine(B, b, C, c)
    ensures SameLine(A, a, C, c)
  {
    hide At, AttrsAt, WidthAt;
    forall x | x >= 1
      ensures At(A, x, a) == At(C, x, c)
    {
      assert At(A, x, a) == At(B, x, b);
    }
  }

  /** Some reference of the sheet reaches line n. */
  predicate ReferenceAtOrBelow(s: Sheet, n: int) {
    || (exists k :: 0 <= k < |StoredRefs(s.merges)| && AreaOf(StoredRefs(s.merges)[k]).r2 >= n)
    || (exists k :: 0 <= k < |StoredLinks(s)| && PosOf(StoredLinks(s)[k].Ref).row >= n)
    || (s.filter.Some? && (AreaOf(s.filter.value).r1 >= n || AreaOf(s.filter.value).r2 >= n))
  }

  lemma RefStays(ref: string, n: int)
    requires CanonicalRef(ref) && n >= 1
    ensures MovedRef(ref, Rows, n, 1) == ref <==> AreaOf(ref).r2 < n
  {
    hide AreaOf, CellName, MoveArea;
    MoveCanonical(ref, Rows, n, 1);
  }

  lemma LinkStays(ref: string, n: int)
    requires CanonicalName(ref) && n >= 1
    ensures ShiftRef(ref, Rows, n, 1) == ref <==> PosOf(ref).row < n
  {
    hide CellName, ShiftRef;
    ShiftLinkRef(ref, Rows, n);
    NamesDiffer(ShiftPos(PosOf(ref), Rows, n), PosOf(ref));
  }

  lemma FilterStays(ref: string, n: int)
    requires CanonicalFilter(ref) && n >= 1
    ensures MovedFilter(Some(ref), Rows, n) == Some(ref) <==> AreaOf(ref).r1 < n && AreaOf(ref).r2 < n
  {
    hide AreaOf, CellName, AdjustFilter;
    FilterMeans(FilterArea(AreaOf(ref), Rows, n, 1));
  }

  lemma MergesStay(merges: Option<seq<string>>, n: int)
    requires CanonicalRefs(StoredRefs(merges)) && n >= 1
    ensures MovedMerges(merges, Rows, n) == merges <==>
            !exists k :: 0 <= k < |StoredRefs(merges)| && AreaOf(StoredRefs(merges)[k]).r2 >= n
  {
    hide AreaOf, CanonicalRef, MovedRef;
    if merges.Some? {
      var refs := merges.value;
      forall k | 0 <= k < |refs|
        ensures MovedRefs(refs, Rows, n, 1)[k] == refs[k] <==> AreaOf(refs[k]).r2 < n
      {
        RefStays(refs[k], n);
      }
      if forall k :: 0 <= k < |refs| ==> AreaOf(refs[k]).r2 < n { assert MovedRefs(refs, Rows, n, 1) == refs; }
    }
  }

  lemma LinksStay(s: Sheet, n: int)
    requires CanonicalLinks(StoredLinks(s)) && n >= 1
    ensures MovedLinks(s.links, Rows, n) == s.links <==>
            !exists k :: 0 <= k < |StoredLinks(s)| && PosOf(StoredLinks(s)[k].Ref).row >= n
  {
    hide PosOf, CanonicalName, ShiftRef;
    if s.links.Some? {
      var links := s.links.value;
      forall k | 0 <= k < |links|
        ensures ShiftLinks(links, Rows, n, 1)[k] == links[k] <==> PosOf(links[k].Ref).row < n
      {
        LinkStays(links[k].Ref, n);
      }
      if forall k :: 0 <= k < |links| ==> PosOf(links[k].Ref).row < n { assert ShiftLinks(links, Rows, n, 1) == links; }
    }
  }

  /** RemoveRow of the line just inserted, when the grid reaches it. */
  lemma RemoveInsertedRow(s: Sheet, n: int)
    requires WellFormed(s) && 1 <= n <= |s.rows|
    ensures RemoveRow(InsertRow(s, n).0, n) == (s, Done)
  {
    hide Dense, CanonicalRefs, CanonicalLinks, CanonicalFilter, LineInserted, LineRemoved, AdjustRows, AdjustLinks,
         AdjustMerges, AdjustFilter, CheckRows, CheckSheet, MovedRefs, ShiftLinks, MovedFilter, WellMerged, AreaOf, InsertRow;
    InsertRowEffect(s, n);
    var s1 := InsertRow(s, n).0;
    InsertedSize(s1.rows, s.rows, n);
    RemoveLine(s1.rows, n);
    DenseNumber(s1.rows, n);
    var A := AdjustRows(s1.rows[..n - 1] + s1.rows[n..], n, -1);
    LineRestored(A, s1.rows, s.rows, n);
    LinksInserted(s.links, Rows, n);
    MergesInserted(s.merges, Rows, n);
    FilterRestored(s.filter, A, Rows, n);
  }

  /**
   InsertRow then RemoveRow at one line gives the very same sheet, rows, cells, merged areas,
   hyperlinks and auto filter, exactly when the line is one of the stored rows or no reference
   reaches it: past the last row RemoveRow returns before it adjusts anything.
   */
  lemma InsertRemoveRow(s: Sheet, n: int)
    requires WellFormed(s) && n >= 1
    ensures InsertRow(s, n).1 == Done && RemoveRow(InsertRow(s, n).0, n).1 == Done
    ensures RemoveRow(InsertRow(s, n).0, n).0 == s <==> n <= |s.rows| || !ReferenceAtOrBelow(s, n)
  {
    hide Dense, CanonicalRefs, CanonicalLinks, CanonicalFilter, LineInserted, MovedRefs, ShiftLinks, MovedFilter,
         WellMerged, AreaOf, InsertRow, PosOf;
    InsertRowEffect(s, n);
    var s1 := InsertRow(s, n).0;
    if n <= |s.rows| {
      RemoveInsertedRow(s, n);
    } else {
      InsertedSize(s1.rows, s.rows, n);
      UntouchedBelow(s1.rows, s.rows, n);
      MergesStay(s.merges, n);
      LinksStay(s, n);
      if s.filter.Some? { FilterStays(s.filter.value, n); } else { NoFilter(n); }
    }
  }

  lemma NoFilter(n: int)
    requires n >= 1
    ensures MovedFilter(None, Rows, n) == None
  {
  }

  // ---------- columns

  lemma ColumnRestored(A: seq<Row>, D: seq<Row>, rows: seq<Row>, n: int)
    requires Dense(rows) && n >= 1 && ColumnInserted(D, rows, n) && ColumnRemoved(A, D, n)
    ensures A == rows
  {
    hide Dense, At, AttrsAt, WidthAt;
    forall r | 1 <= r <= |A|
      ensures SameLine(A, r, rows, r)
    {
      assert CellInserted(D, rows, r, n) && CellRemoved(A, D, r, n);
      CellRestored(A, D, rows, r, n);
    }
    DenseGridsAgree(A, rows);
  }

  lemma CellRestored(A: seq<Row>, D: seq<Row>, rows: seq<Row>, r: int, n: int)
    requires CellInserted(D, rows, r, n) && CellRemoved(A, D, r, n)
    ensures SameLine(A, r, rows, r)
  {
    hide At, AttrsAt, WidthAt;
    forall c | c >= 1
      ensures At(A, c, r) == At(rows, c, r)
    {
      assert At(A, c, r) == At(D, Shift(c, n), r);
    }
  }

  /** A filter over column n alone, which inserting or removing that column clears. */
  predicate FilterOnlyOver(s: Sheet, n: int) {
    s.filter.Some? && AreaOf(s.filter.value).c1 == n && AreaOf(s.filter.value).c2 == n
  }

  /**
   InsertCol then RemoveCol at one column, named by its canonical letters, gives the very same
   sheet exactly when the auto filter is not one over that column alone.
   */
  lemma InsertRemoveCol(s: Sheet, n: nat)
    requires WellFormed(s) && n >= 1
    ensures InsertCol(s, ColumnName(n)).1 == Done
    ensures RemoveCol(InsertCol(s, ColumnName(n)).0, ColumnName(n)).1 == Done
    ensures RemoveCol(InsertCol(s, ColumnName(n)).0, ColumnName(n)).0 == s <==> !FilterOnlyOver(s, n)
  {
    ColumnsRoundTrip(n, ColumnName(n));
    hide ColumnName, ColumnNumber, Dense, CanonicalRefs, CanonicalLinks, CanonicalFilter, ColumnInserted, ColumnRemoved,
         AdjustCols, AdjustLinks, AdjustMerges, AdjustFilter, CheckRows, CheckSheet, MovedRefs, ShiftLinks, MovedFilter,
         WellMerged, AreaOf, InsertCol, DropColumn;
    InsertColEffect(s, ColumnName(n));
    var s1 := InsertCol(s, ColumnName(n)).0;
    RemoveColumn(s1.rows, n);
    var A := AdjustCols(DropColumn(s1.rows, ColumnName(n)), n, -1);
    ColumnRestored(A, s1.rows, Shown(s, Columns, n), n);
    LinksInserted(s.links, Columns, n);
    MergesInserted(s.merges, Columns, n);
    FilterRestored(s.filter, A, Columns, n);
  }
}
