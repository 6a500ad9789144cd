/** Removal on whole sheets: what it does to the grid and all that travels with it, and that reading commutes with it. */
module Removals {
  import opened Wrappers
  import opened Text
  import opened CellNames
  import opened SheetModel
  import opened AdjustSpec
  import opened EditSpec
  import opened CellSpec
  import opened Normalise
  import opened GridEdits
  import opened Areas
  import opened References
  import opened Reads
  import opened SheetEdits
  import Links = LinkRemoval
  import Merges = MergeRemoval

  // ---------- hyperlinks

  function LeftLinks(links: seq<Hyperlink>, dir: Direction, n: int): (left: seq<Hyperlink>) {
    ShiftLinks(Links.OffLine(links, dir, n), dir, n, -1)
  }

  lemma ShiftLinkBack(ref: string, dir: Direction, n: int)
    requires CanonicalName(ref) && n >= 1 && !OnLine(ref, dir, n)
    ensures CanonicalName(ShiftRef(ref, dir, n, -1))
    ensures ShiftPos(PosOf(ShiftRef(ref, dir, n, -1)), dir, n) == PosOf(ref)
  {
    hide CellName, CellNameToCoordinates;
    var p := PosOf(ref);
    NamePos(if dir.Rows? then (if p.row >= n then Pos(p.col, p.row - 1) else p)
            else (if p.col >= n then Pos(p.col - 1, p.row) else p));
  }

  /** Every link that is left was stored, and is off the line. */
  lemma {:induction false} OffLineIsOff(links: seq<Hyperlink>, k: nat, dir: Direction, n: int) returns (j: nat)
    requires k < |Links.OffLine(links, dir, n)|
    ensures j < |links| && links[j] == Links.OffLine(links, dir, n)[k] && !OnLine(links[j].Ref, dir, n)
  {
    hide Links.On, OnLine;
    var off, rest := Links.OffLine(links, dir, n), Links.OffLine(links[1..], dir, n);
    Links.OnMeans(links[0], dir, n);
    if Links.On(links[0], dir, n) {
      assert off == rest;
      j := OffLineIsOff(links[1..], k, dir, n);
      j := j + 1;
    } else {
      assert off == [links[0]] + rest;
      if k == 0 {
        j := 0;
      } else {
        j := OffLineIsOff(links[1..], k - 1, dir, n);
        j := j + 1;
      }
    }
  }

  lemma LeftCanonical(links: seq<Hyperlink>, dir: Direction, n: int)
    requires n >= 1 && CanonicalLinks(links)
    ensures CanonicalLinks(LeftLinks(links, dir, n))
  {
    hide CanonicalName, OnLine, ShiftRef, Links.OffLine;
    var off := Links.OffLine(links, dir, n);
    forall k | 0 <= k < |off|
      ensures CanonicalName(LeftLinks(links, dir, n)[k].Ref)
    {
      var j := OffLineIsOff(links, k, dir, n);
      ShiftLinkBack(links[j].Ref, dir, n);
    }
  }

  lemma NoneLeft(dir: Direction, n: int)
    ensures LeftLinks([], dir, n) == []
  {
  }

  predicate LinksRemovable(links: seq<Hyperlink>, dir: Direction, n: int) {
    links == [] || Links.Removable(links, dir, n)
  }

  /** The links after a removal: those off the line, moved with their cells. */
  lemma LinksRemoved(links: Option<seq<Hyperlink>>, dir: Direction, n: int)
    requires n >= 1
    requires LinksRemovable(if links.None? then [] else links.value, dir, n)
    ensures var (links', o) := AdjustLinks(links, dir, n, -1);
            o == Done && (if links'.None? then [] else links'.value) == LeftLinks(if links.None? then [] else links.value, dir, n)
  {
    hide OnLine, ShiftRef, RemoveLinks, Links.Removable, Links.OffLine;
    if links.Some? && links.value != [] {
      Links.RemovalExact(links.value, dir, n);
    } else {
      NoneLeft(dir, n);
    }
  }

  /** The first link found at an address is the one found where the address came from. */
  lemma {:induction false} FirstLinkLeft(links: seq<Hyperlink>, p: Pos, dir: Direction, n: int)
    requires CanonicalLinks(links) && p.Valid() && n >= 1 && ShiftPos(p, dir, n).Valid()
    ensures FirstLink(LeftLinks(links, dir, n), p.Name()) ==
            Retarget(FirstLink(links, ShiftPos(p, dir, n).Name()), p.Name())
  {
    hide CellName, ShiftRef, CanonicalName, Links.On, OnLine;
    if links != [] {
      var rest := links[1..];
      FirstLinkLeft(rest, p, dir, n);
      Links.OnMeans(links[0], dir, n);
      OneLinkLeft(links[0].Ref, p, dir, n);
      var off := Links.OffLine(links, dir, n);
      if !OnLine(links[0].Ref, dir, n) {
        assert off[1..] == Links.OffLine(rest, dir, n);
        assert LeftLinks(links, dir, n)[1..] == LeftLinks(rest, dir, n);
      }
    }
  }

  lemma OneLinkLeft(ref: string, p: Pos, dir: Direction, n: int)
    requires CanonicalName(ref) && p.Valid() && n >= 1 && ShiftPos(p, dir, n).Valid()
    ensures OnLine(ref, dir, n) ==> ref != ShiftPos(p, dir, n).Name()
    ensures !OnLine(ref, dir, n) ==> (ShiftRef(ref, dir, n, -1) == p.Name() <==> ref == ShiftPos(p, dir, n).Name())
  {
    hide CellName, CellNameToCoordinates, ShiftRef;
    NamePos(ShiftPos(p, dir, n));
    NamePos(p);
    if !OnLine(ref, dir, n) { ShiftLinkBack(ref, dir, n); }
  }

  // ---------- merged areas

  lemma {:induction false} SurvivorsCanonical(refs: seq<string>, dir: Direction, n: int)
    requires CanonicalRefs(refs) && n >= 1
    ensures CanonicalRefs(Merges.Survivors(refs, dir, n))
  {
    hide CanonicalRef, Merges.Once, Merges.Shrinks;
    if refs != [] {
      SurvivorsCanonical(refs[1..], dir, n);
      if !Merges.Shrinks(refs[0], dir, n) { SurvivorCanonical(refs[0], dir, n); }
    }
  }

  lemma SurvivorCanonical(ref: string, dir: Direction, n: int)
    requires CanonicalRef(ref) && n >= 1 && !Merges.Shrinks(ref, dir, n)
    ensures CanonicalRef(Merges.Once(ref, dir, n))
    ensures AreaOf(Merges.Once(ref, dir, n)) == MovedArea(AreaOf(ref), dir, n, -1)
  {
    hide CellName, CellNameToCoordinates, AreaOf, MovedArea, Merges.Once, Collapsed;
    Merges.CanonicalSpelled([ref]);
    assert [ref][0] == ref;
    Merges.StepMeans(ref, dir, n);
    PulledArea(AreaOf(ref), dir, n);
    RefParses(MovedArea(AreaOf(ref), dir, n, -1));
  }

  lemma MergesRemoved(merges: Option<seq<string>>, dir: Direction, n: int)
    requires n >= 1 && CanonicalRefs(StoredRefs(merges)) && Merges.Reducible(StoredRefs(merges), dir, n)
    ensures var (merges', o) := AdjustMerges(merges, dir, n, -1);
            o == Done && StoredRefs(merges') == Merges.Survivors(StoredRefs(merges), dir, n)
  {
    hide CanonicalRef, Merges.Spelled, Merges.Reducible, AdjustMerges;
    if merges.Some? {
      Merges.CanonicalSpelled(merges.value);
      Merges.RemovalExact(merges.value, dir, n);
    } else {
      NoMerges(dir, n);
    }
  }

  lemma NoMerges(dir: Direction, n: int)
    ensures AdjustMerges(None, dir, n, -1) == (None, Done) && Merges.Survivors([], dir, n) == []
  {
  }

  /** No area starts on the line. */
  predicate NoneStartsOn(refs: seq<string>, dir: Direction, n: int) {
    forall k :: 0 <= k < |refs| ==> Start(AreaOf(refs[k]), dir) != n
  }

  /** One area, on the two sides of the removal. */
  lemma AreaPulled(a: Area, p: Pos, dir: Direction, n: int)
    requires a.Valid() && p.Valid() && n >= 1 && Start(a, dir) != n
    ensures var b := MovedArea(a, dir, n, -1);
            && (b.Contains(p) <==> a.Contains(ShiftPos(p, dir, n)))
            && b.First().Valid() && ShiftPos(b.First(), dir, n) == a.First()
            && (Collapsed(b) && b.Contains(p) ==> p == b.First())
  {
  }

  lemma {:induction false} ResolveSuffix(refs: seq<string>, i: nat, p: Pos)
    requires 1 <= i <= |refs| && CanonicalRefs(refs) && p.Valid()
    ensures ResolveAt(refs, i, p) == ResolveAt(refs[1..], i - 1, p)
    decreases |refs| - i
  {
    hide AreaOf, CanonicalRef;
    if i < |refs| {
      ResolveCanonical(refs[i]);
      ResolveSuffix(refs, i + 1, if AreaOf(refs[i]).Contains(p) then AreaOf(refs[i]).First() else p);
    }
  }

  /** Resolution commutes with a removal, shrinking areas included. */
  lemma {:induction false} ResolvePulls(refs: seq<string>, p: Pos, dir: Direction, n: int)
    requires CanonicalRefs(refs) && CanonicalRefs(Merges.Survivors(refs, dir, n)) && p.Valid() && n >= 1
    requires NoneStartsOn(refs, dir, n)
    ensures ShiftPos(p, dir, n).Valid()
    ensures ResolveAt(refs, 0, ShiftPos(p, dir, n)) == ShiftPos(ResolveAt(Merges.Survivors(refs, dir, n), 0, p), dir, n)
    decreases |refs|
  {
    hide AreaOf, CanonicalRef, Merges.Once, MovedArea, Collapsed, Merges.Shrinks;
    ShiftIsMove(p, dir, n);
    if refs != [] {
      var a := AreaOf(refs[0]);
      var b := MovedArea(a, dir, n, -1);
      ResolveCanonical(refs[0]);
      AreaPulled(a, p, dir, n);
      var q := if b.Contains(p) then b.First() else p;
      SurvivorsCanonical(refs[1..], dir, n);
      ResolvePulls(refs[1..], q, dir, n);
      ShiftIsMove(q, dir, n);
      ResolveSuffix(refs, 1, ShiftPos(q, dir, n));
      ResolveHead(refs, ShiftPos(p, dir, n));
      var left := Merges.Survivors(refs, dir, n);
      if Merges.Shrinks(refs[0], dir, n) {
        ShrinksMeans(refs[0], dir, n);
        assert left == Merges.Survivors(refs[1..], dir, n);
      } else {
        SurvivorCanonical(refs[0], dir, n);
        assert left[0] == Merges.Once(refs[0], dir, n) && left[1..] == Merges.Survivors(refs[1..], dir, n);
        ResolveHead(left, p);
        ResolveSuffix(left, 1, q);
      }
    }
  }

  lemma ShrinksMeans(ref: string, dir: Direction, n: int)
    ensures Merges.Shrinks(ref, dir, n) <==> Collapsed(MovedArea(AreaOf(ref), dir, n, -1))
  {
  }

  lemma ResolveHead(refs: seq<string>, p: Pos)
    requires refs != [] && CanonicalRefs(refs) && p.Valid()
    ensures var a := AreaOf(refs[0]);
            a.First().Valid() && ResolveAt(refs, 0, p) == ResolveAt(refs, 1, if a.Contains(p) then a.First() else p)
  {
    hide AreaOf, CanonicalRef;
    ResolveCanonical(refs[0]);
  }

  // ---------- whole sheets

  /** The removal loops for areas and links do on line or column n what they are for. */
  predicate RemovalSafe(s: Sheet, dir: Direction, n: int) {
    Merges.Reducible(StoredRefs(s.merges), dir, n) && LinksRemovable(StoredLinks(s), dir, n)
  }

  function LeftFilter(filter: Option<string>, dir: Direction, n: int): (filter': Option<string>) {
    if filter.None? || FilterCleared(AreaOf(filter.value), dir, n, -1) then None
    else Some(FilterRef(FilterArea(AreaOf(filter.value), dir, n, -1)))
  }

  /**
   Clearing the filter shows the rows with the numbers of its data rows, but on a row removal these
   are the numbers that the rows have after it (see ClearingExact).
   */
  function LeftShown(rows: seq<Row>, filter: Option<string>, dir: Direction, n: int): (shown: seq<Row>) {
    if filter.Some? && FilterCleared(AreaOf(filter.value), dir, n, -1)
    then Unhide(rows, AreaOf(filter.value).r1, AreaOf(filter.value).r2) else rows
  }

  /** The sheet that a removal makes of s, where left is what it makes of the rows before the filter is looked at. */
  ghost predicate SheetRemoved(s': Sheet, s: Sheet, left: seq<Row>, dir: Direction, n: int) {
    && s'.rows == LeftShown(left, s.filter, dir, n)
    && StoredLinks(s') == LeftLinks(StoredLinks(s), dir, n)
    && StoredRefs(s'.merges) == Merges.Survivors(StoredRefs(s.merges), dir, n)
    && s'.filter == LeftFilter(s.filter, dir, n)
    && s'.cols == s.cols && s'.formulas == s.formulas
  }

  lemma FilterRemoved(filter: Option<string>, rows: seq<Row>, dir: Direction, n: int)
    requires filter.Some? ==> CanonicalFilter(filter.value)
    ensures AdjustFilter(filter, rows, dir, n, -1) == (LeftFilter(filter, dir, n), LeftShown(rows, filter, dir, n), Done)
  {
    hide AreaOf, CellName, Unhide;
    if filter.Some? {
      hide AdjustFilter;
      FilterMoves(filter.value, rows, dir, n, -1);
    }
  }

  lemma ShownDense(left: seq<Row>, filter: Option<string>, dir: Direction, n: int)
    requires Dense(left)
    ensures var D := LeftShown(left, filter, dir, n);
            && Dense(D) && |D| == |left| && Check(D) == (D, Done)
            && (forall c, r :: At(D, c, r) == At(left, c, r)) && (forall r :: WidthAt(D, r) == WidthAt(left, r))
  {
    hide Unhide, AreaOf, Check, At, WidthAt;
    if filter.Some? { UnhideKeeps(left, AreaOf(filter.value).r1, AreaOf(filter.value).r2); }
    CheckDense(LeftShown(left, filter, dir, n));
  }

  /** The steps of adjustHelper behind the grid, on a removal. */
  lemma AdjustedRemoval(s: Sheet, before: seq<Row>, dir: Direction, n: int)
    requires WellFormed(s) && n >= 1 && RemovalSafe(s, dir, n)
    requires Dense(if dir.Rows? then AdjustRows(before, n, -1) else AdjustCols(before, n, -1))
    ensures var (s', o) := AdjustHelper(s.(rows := before), dir, n, -1);
            && o == Done
            && SheetRemoved(s', s, if dir.Rows? then AdjustRows(before, n, -1) else AdjustCols(before, n, -1), dir, n)
  {
    hide Dense, CanonicalRefs, CanonicalLinks, CanonicalFilter, AdjustRows, AdjustCols, AdjustLinks, AdjustMerges,
         AdjustFilter, CheckRows, CheckSheet, Merges.Reducible, Merges.Survivors, LeftLinks, LeftFilter, LeftShown, LinksRemovable;
    var left := if dir.Rows? then AdjustRows(before, n, -1) else AdjustCols(before, n, -1);
    LinksRemoved(s.links, dir, n);
    MergesRemoved(s.merges, dir, n);
    FilterRemoved(s.filter, left, dir, n);
    ShownDense(left, s.filter, dir, n);
  }

  /** An ordered filter keeps both its corners. */
  predicate FilterOrdered(s: Sheet) {
    s.filter.Some? ==> AreaOf(s.filter.value).c1 <= AreaOf(s.filter.value).c2 && AreaOf(s.filter.value).r1 <= AreaOf(s.filter.value).r2
  }

  lemma RemovedWellFormed(s': Sheet, s: Sheet, left: seq<Row>, dir: Direction, n: int)
    requires WellFormed(s) && n >= 1 && Dense(left) && SheetRemoved(s', s, left, dir, n)
    ensures Dense(s'.rows) && CanonicalRefs(StoredRefs(s'.merges)) && CanonicalLinks(StoredLinks(s'))
    ensures FilterOrdered(s) ==> WellFormed(s')
  {
    hide Dense, CanonicalRef, CanonicalName, AreaOf, LeftLinks, LeftShown, Merges.Survivors, CellName;
    ShownDense(left, s.filter, dir, n);
    SurvivorsCanonical(StoredRefs(s.merges), dir, n);
    LeftCanonical(StoredLinks(s), dir, n);
    if s.filter.Some? && FilterOrdered(s) && !FilterCleared(AreaOf(s.filter.value), dir, n, -1) {
      FilterStaysPlaced(AreaOf(s.filter.value), dir, n, -1);
      FilterMeans(FilterArea(AreaOf(s.filter.value), dir, n, -1));
    }
  }

  /** RemoveRow of a stored row, as a whole. */
  lemma RemoveRowEffect(s: Sheet, n: int)
    requires WellFormed(s) && 1 <= n <= |s.rows| && RemovalSafe(s, Rows, n)
    ensures var (s', o) := RemoveRow(s, n);
            var left := AdjustRows(s.rows[..n - 1] + s.rows[n..], n, -1);
            && o == Done && LineRemoved(left, s.rows, n) && SheetRemoved(s', s, left, Rows, n)
            && Dense(s'.rows) && CanonicalRefs(StoredRefs(s'.merges)) && CanonicalLinks(StoredLinks(s'))
            && (FilterOrdered(s) ==> WellFormed(s'))
  {
    hide LineRemoved, Dense, WellFormed, AdjustHelper, AdjustRows, FirstNumbered, RemovalSafe, SheetRemoved, FilterOrdered;
    assert Dense(s.rows) by { GridIsDense(s); }
    RemoveLine(s.rows, n);
    DenseNumber(s.rows, n);
    var left := AdjustRows(s.rows[..n - 1] + s.rows[n..], n, -1);
    InsertedIsDense(left, s.rows, n);
    AdjustedRemoval(s, s.rows[..n - 1] + s.rows[n..], Rows, n);
    RemovedWellFormed(RemoveRow(s, n).0, s, left, Rows, n);
  }

  lemma GridIsDense(s: Sheet)
    requires WellFormed(s)
    ensures Dense(s.rows) && CanonicalRefs(StoredRefs(s.merges)) && CanonicalLinks(StoredLinks(s))
  {
  }

  /** RemoveCol by canonical letters, as a whole. */
  lemma RemoveColEffect(s: Sheet, col: string)
    requires WellFormed(s) && ColumnNumber(col).Ok? && col == ToUpper(col)
    requires RemovalSafe(s, Columns, ColumnNumber(col).value)
    ensures var n := ColumnNumber(col).value;
            var (s', o) := RemoveCol(s, col);
            var left := AdjustCols(DropColumn(s.rows, col), n, -1);
            && n >= 1
            && o == Done && ColumnRemoved(left, s.rows, n) && SheetRemoved(s', s, left, Columns, n)
            && Dense(s'.rows) && CanonicalRefs(StoredRefs(s'.merges)) && CanonicalLinks(StoredLinks(s'))
            && (FilterOrdered(s) ==> WellFormed(s'))
  {
    ColumnsRoundTrip(1, col);
    hide ColumnRemoved, Dense, WellFormed, AdjustHelper, AdjustCols, DropColumn, RemovalSafe, SheetRemoved, FilterOrdered,
         ColumnNumber, ColumnName;
    var n := ColumnNumber(col).value;
    assert Dense(s.rows) by { GridIsDense(s); }
    RemoveColumn(s.rows, n);
    var left := AdjustCols(DropColumn(s.rows, col), n, -1);
    InsertedIsDense(left, s.rows, n);
    AdjustedRemoval(s, DropColumn(s.rows, col), Columns, n);
    RemovedWellFormed(RemoveCol(s, col).0, s, left, Columns, n);
  }

  // ---------- rows shown when a filter is cleared

  /** Every surviving row that the filter covered below its header is shown, and every other left as it was. */
  ghost predicate ShowsFiltered(D: seq<Row>, rows: seq<Row>, n: int, last: int) {
    forall r :: r >= 1 ==>
      AttrsAt(D, r) == var was := AttrsAt(rows, Shift(r, n)); if n < Shift(r, n) <= last then was.(Hidden := false) else was
  }

  lemma ShownAttrs(left: seq<Row>, first: int, last: int, r: int)
    requires Dense(left) && r >= 1
    ensures AttrsAt(Unhide(left, first, last), r) ==
            if first < r <= last then AttrsAt(left, r).(Hidden := false) else AttrsAt(left, r)
  {
    if r <= |left| { assert DenseRow(left[r - 1], r); }
  }

  /** Showing rows by their new numbers misses the first data row and catches the row below the filter. */
  lemma ShownByNewNumbers(left: seq<Row>, rows: seq<Row>, n: int, last: int)
    requires LineRemoved(left, rows, n) && 1 <= n <= last
    ensures ShowsFiltered(Unhide(left, n, last), rows, n, last) <==>
            last == n || (!AttrsAt(rows, n + 1).Hidden && !AttrsAt(rows, last + 1).Hidden)
  {
    hide Dense, Unhide, AttrsAt, At, WidthAt;
    var D := Unhide(left, n, last);
    forall r | r >= 1
      ensures AttrsAt(D, r) ==
              var was := AttrsAt(rows, Shift(r, n)); if n < r <= last then was.(Hidden := false) else was
    {
      ShownAttrs(left, n, last, r);
      assert SameLine(left, r, rows, Shift(r, n));
    }
    if last > n && ShowsFiltered(D, rows, n, last) {
      assert AttrsAt(D, n) == AttrsAt(rows, n + 1).(Hidden := false);
      assert AttrsAt(D, last) == AttrsAt(rows, last + 1);
    }
  }

  /**
   Removing the header row of a filter clears it. The rows it covered are shown, and no others, if and
   only if it had no data rows, or neither the first of them nor the row below the filter was hidden.
   */
  lemma ClearingExact(s: Sheet, n: int)
    requires WellFormed(s) && 1 <= n <= |s.rows| && RemovalSafe(s, Rows, n)
    requires s.filter.Some? && AreaOf(s.filter.value).r1 == n <= AreaOf(s.filter.value).r2
    ensures var s', last := RemoveRow(s, n).0, AreaOf(s.filter.value).r2;
            && s'.filter.None?
            && (ShowsFiltered(s'.rows, s.rows, n, last) <==>
                  last == n || (!AttrsAt(s.rows, n + 1).Hidden && !AttrsAt(s.rows, last + 1).Hidden))
  {
    hide RemoveRow, LineRemoved, Dense, WellFormed, RemovalSafe, ShowsFiltered, AttrsAt, AreaOf, AdjustRows, Unhide,
         FilterOrdered, LeftLinks, Merges.Survivors;
    RemoveRowEffect(s, n);
    ShownByNewNumbers(AdjustRows(s.rows[..n - 1] + s.rows[n..], n, -1), s.rows, n, AreaOf(s.filter.value).r2);
  }

  /** Whatever it was before, the row that comes to stand at the header's place is left as hidden as it was. */
  lemma FirstStays(s: Sheet, n: int)
    requires WellFormed(s) && 1 <= n <= |s.rows| && RemovalSafe(s, Rows, n)
    requires s.filter.Some? && AreaOf(s.filter.value).r1 == n
    ensures AttrsAt(RemoveRow(s, n).0.rows, n) == AttrsAt(s.rows, n + 1)
  {
    hide RemoveRow, LineRemoved, Dense, WellFormed, RemovalSafe, AttrsAt, AreaOf, AdjustRows, Unhide, FilterOrdered,
         LeftLinks, Merges.Survivors;
    RemoveRowEffect(s, n);
    var left := AdjustRows(s.rows[..n - 1] + s.rows[n..], n, -1);
    InsertedIsDense(left, s.rows, n);
    ShownAttrs(left, n, AreaOf(s.filter.value).r2, n);
    LineAttrs(left, s.rows, n, n);
  }

  lemma LineAttrs(left: seq<Row>, rows: seq<Row>, n: int, r: int)
    requires LineRemoved(left, rows, n) && r >= 1
    ensures AttrsAt(left, r) == AttrsAt(rows, Shift(r, n))
  {
    hide Dense, AttrsAt, At, WidthAt;
    assert SameLine(left, r, rows, Shift(r, n));
  }

  const HIDDEN_ROW := Row(2, PLAIN_ROW.(Hidden := true), [])

  function Filtered(): (s: Sheet) {
    EMPTY_SHEET.(rows := [BlankRow(1), HIDDEN_ROW, BlankRow(3)], filter := Some(Area(1, 1, 1, 3).Ref()))
  }

  lemma BareFormed(rows: seq<Row>, a: Area)
    requires Dense(rows) && a.Placed()
    ensures WellFormed(EMPTY_SHEET.(rows := rows, filter := Some(a.Ref()))) && AreaOf(a.Ref()) == a
  {
    hide CellName, Dense, AreaOf;
    RefParses(a);
    NoLinksYet();
  }

  lemma NoLinksYet()
    ensures CanonicalLinks([]) && CanonicalRefs([])
  {
  }

  lemma FilteredFormed()
    ensures var s := Filtered();
            && WellFormed(s) && |s.rows| == 3 && AttrsAt(s.rows, 2).Hidden && s.links.None? && s.merges.None?
            && s.filter.Some? && AreaOf(s.filter.value) == Area(1, 1, 1, 3)
  {
    hide WellFormed, AreaOf, CellName;
    var rows := [BlankRow(1), HIDDEN_ROW, BlankRow(3)];
    assert Dense(rows);
    BareFormed(rows, Area(1, 1, 1, 3));
  }

  /** A filter over A1:A3 that hides row 2: when row 1 is removed the filter is gone, and the row stays hidden. */
  lemma StaysHidden()
    ensures var s, s' := Filtered(), RemoveRow(Filtered(), 1).0;
            AttrsAt(s.rows, 2).Hidden && s'.filter.None? && AttrsAt(s'.rows, 1).Hidden
  {
    hide CellName, AreaOf, RemoveRow, ShowsFiltered, RemovalSafe, WellFormed, Filtered;
    FilteredFormed();
    NothingTravels(Filtered(), 1);
    FirstStays(Filtered(), 1);
    ClearingExact(Filtered(), 1);
  }

  lemma NothingTravels(s: Sheet, n: int)
    requires s.links.None? && s.merges.None?
    ensures RemovalSafe(s, Rows, n)
  {
  }

  // ---------- reading commutes with removing

  /** Value, formula and link at p are those that stood, before the removal, where p came from. */
  lemma ReadsAlikeLeft(s': Sheet, s: Sheet, left: seq<Row>, p: Pos, dir: Direction, n: int)
    requires n >= 1 && p.Valid() && WellFormed(s) && SheetRemoved(s', s, left, dir, n) && Dense(left)
    requires CanonicalRefs(StoredRefs(s'.merges)) && NoneStartsOn(StoredRefs(s.merges), dir, n)
    requires forall q: Pos :: q.Valid() ==> At(left, q.col, q.row) == At(s.rows, ShiftPos(q, dir, n).col, ShiftPos(q, dir, n).row)
    ensures ShiftPos(p, dir, n).Valid() && ReadsAlike(s', p, s, ShiftPos(p, dir, n), Anchor(s'.merges, p))
  {
    hide Dense, CanonicalRefs, CanonicalLinks, CanonicalFilter, CellName, GetCellValue, GetCellFormula, GetCellHyperLink,
         At, FirstLink, LeftLinks, LeftShown, Merges.Survivors, NoneStartsOn;
    ShiftIsMove(p, dir, n);
    ResolvePulls(StoredRefs(s.merges), p, dir, n);
    var q := Anchor(s'.merges, p);
    ShiftIsMove(q, dir, n);
    ShownDense(left, s.filter, dir, n);
    ReadsAreAt(s', p);
    ReadsAreAt(s, ShiftPos(p, dir, n));
    LinkAtAnchor(s', p);
    LinkAtAnchor(s, ShiftPos(p, dir, n));
    FirstLinkLeft(StoredLinks(s), q, dir, n);
  }

  /** Reads commute with RemoveRow at every address that survives, where no area starts on the line. */
  lemma RemoveRowReads(s: Sheet, n: int, p: Pos)
    requires WellFormed(s) && 1 <= n <= |s.rows| && RemovalSafe(s, Rows, n) && p.Valid()
    requires NoneStartsOn(StoredRefs(s.merges), Rows, n)
    ensures var s' := RemoveRow(s, n).0;
            && ShiftPos(p, Rows, n).Valid() && CanonicalRefs(StoredRefs(s'.merges))
            && ReadsAlike(s', p, s, ShiftPos(p, Rows, n), Anchor(s'.merges, p))
  {
    hide RemoveRow, Dense, CanonicalRefs, WellFormed, SheetRemoved, ReadsAlike, At, AdjustRows, NoneStartsOn, FilterOrdered;
    RemoveRowEffect(s, n);
    var left := AdjustRows(s.rows[..n - 1] + s.rows[n..], n, -1);
    forall q: Pos | q.Valid()
      ensures At(left, q.col, q.row) == At(s.rows, ShiftPos(q, Rows, n).col, ShiftPos(q, Rows, n).row)
    {
      assert SameLine(left, q.row, s.rows, Shift(q.row, n));
    }
    InsertedIsDense(left, s.rows, n);
    ReadsAlikeLeft(RemoveRow(s, n).0, s, left, p, Rows, n);
  }

  /** Reads commute with RemoveCol at every address that survives, where no area starts on the column. */
  lemma RemoveColReads(s: Sheet, col: string, p: Pos)
    requires WellFormed(s) && ColumnNumber(col).Ok? && col == ToUpper(col) && p.Valid()
    requires RemovalSafe(s, Columns, ColumnNumber(col).value)
    requires NoneStartsOn(StoredRefs(s.merges), Columns, ColumnNumber(col).value)
    ensures var n := ColumnNumber(col).value;
            var s' := RemoveCol(s, col).0;
            && ShiftPos(p, Columns, n).Valid() && CanonicalRefs(StoredRefs(s'.merges))
            && ReadsAlike(s', p, s, ShiftPos(p, Columns, n), Anchor(s'.merges, p))
  {
    hide RemoveCol, Dense, CanonicalRefs, WellFormed, SheetRemoved, ReadsAlike, At, AdjustCols, DropColumn, NoneStartsOn,
         FilterOrdered, ColumnNumber;
    RemoveColEffect(s, col);
    var n := ColumnNumber(col).value;
    var left := AdjustCols(DropColumn(s.rows, col), n, -1);
    forall q: Pos | q.Valid()
      ensures At(left, q.col, q.row) == At(s.rows, ShiftPos(q, Columns, n).col, ShiftPos(q, Columns, n).row)
    {
      assert CellRemoved(left, s.rows, q.row, n);
    }
    InsertedIsDense(left, s.rows, n);
    ReadsAlikeLeft(RemoveCol(s, col).0, s, left, p, Columns, n);
  }

  // ---------- removals that may panic

  lemma {:induction false} LinkLoopEnds(store: seq<Hyperlink>, len: nat, gone: bool, i: nat, dir: Direction, n: int)
    requires len <= |store| && i <= |store|
    ensures var o := RemoveLinks(store, len, gone, i, dir, n).1; o == Done || o == Panicked
    decreases |store| - i
  {
    hide OnLine, Delete;
    if i < |store| {
      LinkLoopEnds(store, len, gone, i + 1, dir, n);
      if !gone && len <= 1 { LinkLoopEnds(store, len, true, i + 1, dir, n); }
      if i < len { LinkLoopEnds(Delete(store, len, i), len - 1, false, i + 1, dir, n); }
    }
  }

  lemma LinksEnd(links: Option<seq<Hyperlink>>, dir: Direction, n: int)
    ensures var o := AdjustLinks(links, dir, n, -1).1; o == Done || o == Panicked
  {
    hide RemoveLinks;
    if links.Some? { LinkLoopEnds(links.value, |links.value|, false, 0, dir, n); }
  }

  lemma {:induction false} StaleCanonical(kept: seq<string>, stays: bool, last: string, stale: nat, dir: Direction, n: int)
    requires n >= 1 && CanonicalRefs(kept) && (stays ==> CanonicalRef(last))
    ensures var (left, o) := Merges.Finish(kept, stays, last, stale, dir, n);
            (o == Done || o == Panicked) && (o == Done ==> CanonicalRefs(StoredRefs(left)))
    decreases stale
  {
    hide CanonicalRef, Merges.Once, Merges.Shrinks;
    if stale > 0 && !Merges.Shrinks(last, dir, n) {
      if stays { SurvivorCanonical(last, dir, n); }
      StaleCanonical(kept, stays, Merges.Once(last, dir, n), stale - 1, dir, n);
    }
  }

  lemma {:induction false} KeptCanonical(rest: seq<string>, dir: Direction, n: int)
    requires n >= 1 && CanonicalRefs(rest)
    ensures CanonicalRefs(Merges.Kept(rest, dir, n))
    ensures rest != [] && Merges.LastStays(rest, dir, n) ==> CanonicalRef(Merges.LastValue(rest, dir, n))
  {
    hide CanonicalRef, Merges.Once, Merges.Shrinks;
    if rest != [] {
      KeptCanonical(rest[1..], dir, n);
      if !Merges.Shrinks(rest[0], dir, n) { SurvivorCanonical(rest[0], dir, n); }
      if |rest| > 1 { KeptCanonical(rest[2..], dir, n); }
    }
  }

  /** Whatever areas shrink, the loop panics or leaves canonical areas of several cells. */
  lemma MergesEnd(merges: Option<seq<string>>, dir: Direction, n: int)
    requires n >= 1 && CanonicalRefs(StoredRefs(merges))
    ensures var (merges', o) := AdjustMerges(merges, dir, n, -1);
            (o == Done || o == Panicked) && (o == Done ==> CanonicalRefs(StoredRefs(merges')))
  {
    hide CanonicalRef, Merges.Spelled, AdjustMerges, Merges.Finish, Merges.Kept, Merges.LastStays, Merges.LastValue,
         Merges.Skips, Merges.Shrinks;
    if merges.Some? {
      var refs := merges.value;
      Merges.CanonicalSpelled(refs);
      Merges.RunAll(refs, dir, n);
      KeptCanonical(refs, dir, n);
      if |refs| >= 2 {
        StaleCanonical(Merges.Kept(refs, dir, n), Merges.LastStays(refs, dir, n), Merges.LastValue(refs, dir, n),
                       Merges.Skips(refs, dir, n), dir, n);
      }
    } else {
      NoMerges(dir, n);
    }
  }

  /** A removal leaves the rows dense whatever happens to links and areas, and canonical areas unless it panics. */
  lemma RemovedAnyway(s: Sheet, before: seq<Row>, dir: Direction, n: int)
    requires n >= 1 && CanonicalRefs(StoredRefs(s.merges)) && (s.filter.Some? ==> CanonicalFilter(s.filter.value))
    requires Dense(if dir.Rows? then AdjustRows(before, n, -1) else AdjustCols(before, n, -1))
    ensures var (s', o) := AdjustHelper(s.(rows := before), dir, n, -1);
            var left := if dir.Rows? then AdjustRows(before, n, -1) else AdjustCols(before, n, -1);
            && (o == Done || o == Panicked)
            && (s'.rows == left || s'.rows == LeftShown(left, s.filter, dir, n)) && Dense(s'.rows)
            && (s'.filter == s.filter || s'.filter == LeftFilter(s.filter, dir, n))
            && s'.formulas == s.formulas
            && (o == Done ==> CanonicalRefs(StoredRefs(s'.merges)))
  {
    hide Dense, CanonicalRefs, CanonicalFilter, AdjustRows, AdjustCols, AdjustLinks, AdjustMerges, AdjustFilter, CheckRows,
         CheckSheet, LeftShown, LeftFilter;
    var left := if dir.Rows? then AdjustRows(before, n, -1) else AdjustCols(before, n, -1);
    LinksEnd(s.links, dir, n);
    MergesEnd(s.merges, dir, n);
    FilterRemoved(s.filter, left, dir, n);
    ShownDense(left, s.filter, dir, n);
  }
}
