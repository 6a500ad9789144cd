/**
 What an insertion or a removal does to the references that travel with the grid: merged areas,
 hyperlinks and the auto filter.
 */
module References {
  import opened Wrappers
  import opened Text
  import opened CellNames
  import opened SheetModel
  import opened AdjustSpec
  import opened CellSpec
  import opened Areas

  // ---------- positions and areas

  function MovedPos(p: Pos, dir: Direction, n: int, offset: int): (q: Pos) {
    if dir.Rows? then Pos(p.col, AdjustCoordinate(p.row, n, offset)) else Pos(AdjustCoordinate(p.col, n, offset), p.row)
  }

  function MovedArea(a: Area, dir: Direction, n: int, offset: int): (b: Area) {
    var first, last := MovedPos(a.First(), dir, n, offset), MovedPos(a.Last(), dir, n, offset);
    Area(first.col, first.row, last.col, last.row)
  }

  /** Where a position stands once a line or column n has been inserted. */
  function ShiftPos(p: Pos, dir: Direction, n: int): (q: Pos) {
    if dir.Rows? then Pos(p.col, Shift(p.row, n)) else Pos(Shift(p.col, n), p.row)
  }

  predicate Collapsed(a: Area) { a.c1 == a.c2 && a.r1 == a.r2 }

  lemma ShiftIsMove(p: Pos, dir: Direction, n: int)
    requires p.Valid() && n >= 1
    ensures MovedPos(p, dir, n, 1) == ShiftPos(p, dir, n) && ShiftPos(p, dir, n).Valid()
    ensures MovedPos(ShiftPos(p, dir, n), dir, n, -1) == p
  {
  }

  /** An insertion stretches or moves areas without changing which cells of the sheet they hold. */
  lemma ShiftedArea(a: Area, dir: Direction, n: int)
    requires a.Valid() && n >= 1
    ensures MovedArea(a, dir, n, 1).Valid()
    ensures MovedArea(MovedArea(a, dir, n, 1), dir, n, -1) == a
    ensures forall p: Pos :: MovedArea(a, dir, n, 1).Contains(ShiftPos(p, dir, n)) <==> a.Contains(p)
  {
  }

  lemma ShiftKeepsApart(a: Area, b: Area, dir: Direction, n: int)
    requires a.Valid() && b.Valid() && n >= 1
    ensures CornersApart(MovedArea(a, dir, n, 1), MovedArea(b, dir, n, 1)) <==> CornersApart(a, b)
  {
    ShiftedArea(a, dir, n);
    ShiftedArea(b, dir, n);
    ShiftIsMove(a.First(), dir, n);
    ShiftIsMove(a.Last(), dir, n);
    ShiftIsMove(b.First(), dir, n);
    ShiftIsMove(b.Last(), dir, n);
  }

  /** The lines or columns an area spans, along the direction of an edit. */
  function Start(a: Area, dir: Direction): (line: int) { if dir.Rows? then a.r1 else a.c1 }

  function End(a: Area, dir: Direction): (line: int) { if dir.Rows? then a.r2 else a.c2 }

  /**
   On removal of line n, an area still holds exactly the surviving cells it held if and only if it
   does not start on the removed line; an area from line 1 that reaches further is safe as well,
   because coordinates stop at 1.
   */
  lemma RemovalMovesArea(a: Area, dir: Direction, n: int)
    requires a.Valid() && n >= 1
    ensures (forall p: Pos :: p.Valid() ==> (MovedArea(a, dir, n, -1).Contains(p) <==> a.Contains(ShiftPos(p, dir, n)))) <==>
            Start(a, dir) != n || (n == 1 && End(a, dir) > 1)
  {
    var b := MovedArea(a, dir, n, -1);
    if Start(a, dir) == n && !(n == 1 && End(a, dir) > 1) {
      var at := if n == 1 then 1 else n - 1;
      var p := if dir.Rows? then Pos(a.c1, at) else Pos(at, a.r1);
      assert p.Valid() && b.Contains(p) && !a.Contains(ShiftPos(p, dir, n));
    }
  }

  // ---------- merged areas

  /** No area shrinks to a single cell. */
  predicate Steady(refs: seq<string>, dir: Direction, n: int, offset: int) {
    forall k :: 0 <= k < |refs| ==> !Collapsed(MovedArea(AreaOf(refs[k]), dir, n, offset))
  }

  function MovedRef(ref: string, dir: Direction, n: int, offset: int): (ref': string)
    requires CanonicalRef(ref) && n >= 1
  {
    MovedArea(AreaOf(ref), dir, n, offset).Ref()
  }

  function MovedRefs(refs: seq<string>, dir: Direction, n: int, offset: int): (refs': seq<string>)
    requires CanonicalRefs(refs) && n >= 1
    ensures |refs'| == |refs| && forall k :: 0 <= k < |refs| ==> refs'[k] == MovedRef(refs[k], dir, n, offset)
  {
    hide MovedRef;
    seq(|refs|, k requires 0 <= k < |refs| => MovedRef(refs[k], dir, n, offset))
  }

  lemma MoveCanonical(ref: string, dir: Direction, n: int, offset: int)
    requires CanonicalRef(ref) && n >= 1
    ensures MoveArea(ref, dir, n, offset) ==
            Moved(MovedRef(ref, dir, n, offset), Collapsed(MovedArea(AreaOf(ref), dir, n, offset)))
    ensures AreaOf(MovedRef(ref, dir, n, offset)) == MovedArea(AreaOf(ref), dir, n, offset)
  {
    hide CellName, CellNameToCoordinates;
    RefParses(AreaOf(ref));
    RefParses(MovedArea(AreaOf(ref), dir, n, offset));
  }

  lemma {:induction false} MoveEach(refs: seq<string>, original: seq<string>, i: nat, dir: Direction, n: int, offset: int)
    requires i <= |refs| == |original| && CanonicalRefs(original) && n >= 1 && Steady(original, dir, n, offset)
    requires forall k :: 0 <= k < i ==> refs[k] == MovedRefs(original, dir, n, offset)[k]
    requires forall k :: i <= k < |refs| ==> refs[k] == original[k]
    ensures MoveAreas(refs, Identity(|refs|), |refs|, false, i, dir, n, offset) ==
            (Some(MovedRefs(original, dir, n, offset)), Done)
    decreases |refs| - i
  {
    hide CanonicalRef, AreaOf, MovedRef, MoveArea, Collapsed, MovedArea;
    if i == |refs| {
      assert Visible(refs, Identity(|refs|), |refs|) == MovedRefs(original, dir, n, offset);
    } else {
      MoveCanonical(refs[i], dir, n, offset);
      MoveEach(refs[i := MovedRef(refs[i], dir, n, offset)], original, i + 1, dir, n, offset);
    }
  }

  /** While no area collapses, every stored area is moved once, in place and in order. */
  lemma MergesMove(refs: seq<string>, dir: Direction, n: int, offset: int)
    requires CanonicalRefs(refs) && n >= 1 && Steady(refs, dir, n, offset)
    ensures AdjustMerges(Some(refs), dir, n, offset) == (Some(MovedRefs(refs, dir, n, offset)), Done)
    ensures forall k :: 0 <= k < |refs| ==>
              AreaOf(MovedRefs(refs, dir, n, offset)[k]) == MovedArea(AreaOf(refs[k]), dir, n, offset)
  {
    hide CanonicalRef, AreaOf, MovedRef, MoveArea, Collapsed, MovedArea;
    MoveEach(refs, refs, 0, dir, n, offset);
    forall k | 0 <= k < |refs|
      ensures AreaOf(MovedRefs(refs, dir, n, offset)[k]) == MovedArea(AreaOf(refs[k]), dir, n, offset)
    {
      MoveCanonical(refs[k], dir, n, offset);
    }
  }

  lemma InsertionSteady(refs: seq<string>, dir: Direction, n: int)
    requires CanonicalRefs(refs) && n >= 1
    ensures Steady(refs, dir, n, 1)
  {
    hide AreaOf, MovedArea;
    forall k | 0 <= k < |refs|
      ensures !Collapsed(MovedArea(AreaOf(refs[k]), dir, n, 1))
    {
      ShiftedArea(AreaOf(refs[k]), dir, n);
    }
  }

  /** An insertion keeps areas canonical, and well-merged sheets well merged. */
  lemma InsertionKeepsMerges(refs: seq<string>, dir: Direction, n: int)
    requires CanonicalRefs(refs) && n >= 1
    ensures var refs' := MovedRefs(refs, dir, n, 1);
            && AdjustMerges(Some(refs), dir, n, 1) == (Some(refs'), Done)
            && CanonicalRefs(refs')
            && (forall k :: 0 <= k < |refs| ==> AreaOf(refs'[k]) == MovedArea(AreaOf(refs[k]), dir, n, 1))
            && (WellMerged(refs) ==> WellMerged(refs'))
  {
    hide AreaOf, MovedArea, CornersApart, CellName;
    InsertionSteady(refs, dir, n);
    MergesMove(refs, dir, n, 1);
    var refs' := MovedRefs(refs, dir, n, 1);
    forall k | 0 <= k < |refs|
      ensures CanonicalRef(refs'[k])
    {
      ShiftedArea(AreaOf(refs[k]), dir, n);
      RefParses(MovedArea(AreaOf(refs[k]), dir, n, 1));
    }
    if WellMerged(refs) {
      forall i, j | 0 <= i < j < |refs'|
        ensures CornersApart(AreaOf(refs'[i]), AreaOf(refs'[j]))
      {
        ShiftKeepsApart(AreaOf(refs[i]), AreaOf(refs[j]), dir, n);
      }
    }
  }

  /** Removing the line just inserted restores every area. */
  lemma RemovalUndoesMerges(refs: seq<string>, dir: Direction, n: int)
    requires CanonicalRefs(refs) && n >= 1
    ensures AdjustMerges(Some(MovedRefs(refs, dir, n, 1)), dir, n, -1) == (Some(refs), Done)
  {
    hide AreaOf, MovedArea, CellName, AdjustMerges, MovedRef;
    var refs' := MovedRefs(refs, dir, n, 1);
    InsertionKeepsMerges(refs, dir, n);
    forall k | 0 <= k < |refs|
      ensures MovedArea(AreaOf(refs'[k]), dir, n, -1) == AreaOf(refs[k])
    {
      ShiftedArea(AreaOf(refs[k]), dir, n);
    }
    MergesMove(refs', dir, n, -1);
    forall k | 0 <= k < |refs|
      ensures MovedRefs(refs', dir, n, -1)[k] == refs[k]
    {
      MovedBack(refs[k], refs'[k], dir, n);
    }
    assert MovedRefs(refs', dir, n, -1) == refs;
  }

  lemma MovedBack(ref: string, ref': string, dir: Direction, n: int)
    requires CanonicalRef(ref) && CanonicalRef(ref') && n >= 1
    requires MovedArea(AreaOf(ref'), dir, n, -1) == AreaOf(ref)
    ensures MovedRef(ref', dir, n, -1) == ref
  {
  }

  /** One area and one address, on the two sides of an insertion. */
  lemma AreaShifts(a: Area, p: Pos, dir: Direction, n: int)
    requires a.Valid() && p.Valid() && n >= 1
    ensures var b := MovedArea(a, dir, n, 1);
            && (b.Contains(ShiftPos(p, dir, n)) <==> a.Contains(p))
            && a.First().Valid() && b.First() == ShiftPos(a.First(), dir, n)
  {
  }

  /** Resolution commutes with an insertion. */
  lemma {:induction false} ResolveShifts(refs: seq<string>, i: nat, p: Pos, dir: Direction, n: int)
    requires i <= |refs| && CanonicalRefs(refs) && p.Valid() && n >= 1
    requires CanonicalRefs(MovedRefs(refs, dir, n, 1))
    requires forall k :: 0 <= k < |refs| ==>
               AreaOf(MovedRefs(refs, dir, n, 1)[k]) == MovedArea(AreaOf(refs[k]), dir, n, 1)
    ensures ShiftPos(p, dir, n).Valid()
    ensures ResolveAt(MovedRefs(refs, dir, n, 1), i, ShiftPos(p, dir, n)) == ShiftPos(ResolveAt(refs, i, p), dir, n)
    decreases |refs| - i
  {
    hide AreaOf, CanonicalRef, MovedRef, MovedArea;
    ShiftIsMove(p, dir, n);
    if i < |refs| {
      var a := AreaOf(refs[i]);
      ResolveCanonical(refs[i]);
      AreaShifts(a, p, dir, n);
      ResolveShifts(refs, i + 1, if a.Contains(p) then a.First() else p, dir, n);
    }
  }

  lemma PulledArea(a: Area, dir: Direction, n: int)
    requires a.Valid() && n >= 1 && !Collapsed(MovedArea(a, dir, n, -1))
    ensures MovedArea(a, dir, n, -1).Valid()
  {
  }

  // ---------- hyperlinks

  function PosOf(name: string): (p: Pos) { Pos(CoordsOf(name).0, CoordsOf(name).1) }

  /** The canonical spelling of a position. */
  predicate CanonicalName(name: string) {
    PosOf(name).Valid() && name == PosOf(name).Name()
  }

  predicate CanonicalLinks(links: seq<Hyperlink>) {
    forall k :: 0 <= k < |links| ==> CanonicalName(links[k].Ref)
  }

  lemma NamePos(p: Pos)
    requires p.Valid()
    ensures PosOf(p.Name()) == p && CanonicalName(p.Name())
  {
    CoordinatesRoundTrip(p.col, p.row);
  }

  lemma NamesDiffer(p: Pos, q: Pos)
    requires p.Valid() && q.Valid()
    ensures p.Name() == q.Name() <==> p == q
  {
    NamesDistinct(p.col, p.row, q.col, q.row);
  }

  lemma ShiftLinkRef(ref: string, dir: Direction, n: int)
    requires CanonicalName(ref) && n >= 1
    ensures ShiftPos(PosOf(ref), dir, n).Valid()
    ensures ShiftRef(ref, dir, n, 1) == ShiftPos(PosOf(ref), dir, n).Name()
    ensures CanonicalName(ShiftRef(ref, dir, n, 1))
    ensures !OnLine(ShiftRef(ref, dir, n, 1), dir, n)
    ensures ShiftRef(ShiftRef(ref, dir, n, 1), dir, n, -1) == ref
  {
    hide CellName, CellNameToCoordinates;
    var p := PosOf(ref);
    ShiftIsMove(p, dir, n);
    NamePos(p);
    NamePos(ShiftPos(p, dir, n));
  }

  lemma {:induction false} NoneOnLine(links: seq<Hyperlink>, i: nat, dir: Direction, n: int)
    requires i <= |links| && forall k :: 0 <= k < |links| ==> !OnLine(links[k].Ref, dir, n)
    ensures RemoveLinks(links, |links|, false, i, dir, n) == (Some(links), Done)
    decreases |links| - i
  {
    hide OnLine;
    if i < |links| { NoneOnLine(links, i + 1, dir, n); } else { assert links[..|links|] == links; }
  }

  /** An insertion moves every link with its cell, and removing the new line moves them back. */
  lemma LinksShift(links: seq<Hyperlink>, dir: Direction, n: int)
    requires CanonicalLinks(links) && n >= 1
    ensures AdjustLinks(Some(links), dir, n, 1) == (Some(ShiftLinks(links, dir, n, 1)), Done)
    ensures CanonicalLinks(ShiftLinks(links, dir, n, 1))
    ensures AdjustLinks(Some(ShiftLinks(links, dir, n, 1)), dir, n, -1) == (Some(links), Done)
  {
    hide OnLine, ShiftRef, CanonicalName;
    var links' := ShiftLinks(links, dir, n, 1);
    forall k | 0 <= k < |links|
      ensures CanonicalName(links'[k].Ref) && !OnLine(links'[k].Ref, dir, n)
      ensures ShiftRef(links'[k].Ref, dir, n, -1) == links[k].Ref
    {
      ShiftLinkRef(links[k].Ref, dir, n);
    }
    NoneOnLine(links', 0, dir, n);
    if links == [] {
      assert links' == [];
    } else {
      assert ShiftLinks(links', dir, n, -1) == links;
    }
  }

  function Retarget(link: Option<Hyperlink>, ref: string): (link': Option<Hyperlink>) {
    if link.None? then None else Some(link.value.(Ref := ref))
  }

  /** The link found at a shifted address is the link found before, under its new address. */
  lemma {:induction false} FirstLinkShifts(links: seq<Hyperlink>, p: Pos, dir: Direction, n: int)
    requires CanonicalLinks(links) && p.Valid() && n >= 1 && ShiftPos(p, dir, n).Valid()
    ensures FirstLink(ShiftLinks(links, dir, n, 1), ShiftPos(p, dir, n).Name()) ==
            Retarget(FirstLink(links, p.Name()), ShiftPos(p, dir, n).Name())
  {
    hide CellName, ShiftRef, CanonicalName;
    if links != [] {
      var rest := links[1..];
      FirstLinkShifts(rest, p, dir, n);
      assert ShiftLinks(links, dir, n, 1)[1..] == ShiftLinks(rest, dir, n, 1);
      FirstLinkShiftsHead(links[0].Ref, p, dir, n);
    }
  }

  lemma FirstLinkShiftsHead(ref: string, p: Pos, dir: Direction, n: int)
    requires CanonicalName(ref) && p.Valid() && n >= 1 && ShiftPos(p, dir, n).Valid()
    ensures ShiftRef(ref, dir, n, 1) == ShiftPos(p, dir, n).Name() <==> ref == p.Name()
  {
    hide CellName, CellNameToCoordinates;
    ShiftLinkRef(ref, dir, n);
    NamesDiffer(PosOf(ref), p);
    NamesDiffer(ShiftPos(PosOf(ref), dir, n), ShiftPos(p, dir, n));
  }

  // ---------- the auto filter

  /** A filter reference in canonical spelling; it may be a single cell. */
  predicate CanonicalFilter(ref: string) {
    AreaOf(ref).Placed() && ref == AreaOf(ref).Ref()
  }

  /** What adjustAutoFilter makes of the area: by columns only the last column moves. */
  function FilterArea(a: Area, dir: Direction, n: int, offset: int): (b: Area) {
    if dir.Rows? then
      Area(a.c1, if a.r1 >= n then a.r1 + offset else a.r1, a.c2, if a.r2 >= n then a.r2 + offset else a.r2)
    else
      a.(c2 := if a.c2 >= n then a.c2 + offset else a.c2)
  }

  predicate FilterCleared(a: Area, dir: Direction, n: int, offset: int) {
    (dir.Rows? && a.r1 == n && offset < 0) || (dir.Columns? && a.c1 == n && a.c2 == n)
  }

  /** The filter's new reference; a corner that falls off the sheet has no name. */
  function FilterRef(a: Area): (ref: string) { NameOf(a.c1, a.r1) + ":" + NameOf(a.c2, a.r2) }

  lemma FilterMoves(ref: string, rows: seq<Row>, dir: Direction, n: int, offset: int)
    requires CanonicalFilter(ref)
    ensures AdjustFilter(Some(ref), rows, dir, n, offset) ==
            if FilterCleared(AreaOf(ref), dir, n, offset) then (None, Unhide(rows, AreaOf(ref).r1, AreaOf(ref).r2), Done)
            else (Some(FilterRef(FilterArea(AreaOf(ref), dir, n, offset))), rows, Done)
  {
    hide CellName, CellNameToCoordinates, Unhide;
    RefParses(AreaOf(ref));
  }

  /** While both corners stay on the sheet the new reference stands for the moved area, otherwise for none. */
  lemma FilterMeans(a: Area)
    ensures CanonicalFilter(FilterRef(a)) <==> a.Placed()
    ensures a.Placed() ==> FilterRef(a) == a.Ref() && AreaOf(FilterRef(a)) == a
  {
    hide CellName, CellNameToCoordinates, AreaOf;
    if a.Placed() { RefParses(a); } else { NoCorner(a); }
  }

  lemma NoCorner(a: Area)
    requires !a.Placed()
    ensures !AreaOf(FilterRef(a)).Placed()
  {
    hide CellName, CellNameToCoordinates, NoColon;
    var x, y := NameOf(a.c1, a.r1), NameOf(a.c2, a.r2);
    NameNoColon(a.c1, a.r1);
    NameNoColon(a.c2, a.r2);
    SplitPair(x, y);
    assert CoordsOf("") == (-1, -1) by { EmptyName(); }
  }

  lemma NameNoColon(col: int, row: int)
    ensures NoColon(NameOf(col, row))
    ensures NameOf(col, row) == (if col >= 1 && row >= 1 then CellName(col, row) else "")
  {
    if col >= 1 && row >= 1 { NameCharacters(col, row); }
  }

  lemma EmptyName()
    ensures CellNameToCoordinates("").Err?
  {
  }

  /** An ordered filter never loses a corner to an edit of one line. */
  lemma FilterStaysPlaced(a: Area, dir: Direction, n: int, offset: int)
    requires a.Placed() && a.c1 <= a.c2 && a.r1 <= a.r2 && n >= 1 && (offset == 1 || offset == -1)
    requires !FilterCleared(a, dir, n, offset)
    ensures FilterArea(a, dir, n, offset).Placed()
  {
  }

  /** The filter holds after an edit exactly the surviving cells that it held before; a cleared one holds none. */
  predicate Holding(filter: Option<Area>, p: Pos) { filter.Some? && filter.value.Contains(p) }

  /**
   By rows a filter keeps covering its cells, unless its header goes while it has data rows. By
   columns its first column stays where it is, so it must not start right of the edited column, and
   an insertion at its only column clears it. (A filter with its corners in reverse order holds no
   cell, and must not come to hold one.)
   */
  predicate CoverageKept(a: Area, dir: Direction, n: int, offset: int) {
    if a.r1 > a.r2 || (dir.Rows? && a.c1 > a.c2) then true
    else if FilterCleared(a, dir, n, offset) then offset < 0 && (dir.Columns? || a.r2 == n)
    else if dir.Rows? then true
    else if a.c1 <= a.c2 then a.c1 <= n
    else !(offset > 0 && a.c2 >= n && a.c1 == a.c2 + 1)
  }

  /** Any filter with both corners on the sheet covers after the edit exactly the cells it covered if and only if so. */
  lemma FilterCovers(a: Area, dir: Direction, n: int, offset: int)
    requires a.Placed() && n >= 1 && (offset == 1 || offset == -1)
    ensures var b := if FilterCleared(a, dir, n, offset) then None else Some(FilterArea(a, dir, n, offset));
            (forall p: Pos :: p.Valid() ==>
               if offset > 0 then Holding(b, ShiftPos(p, dir, n)) <==> a.Contains(p)
               else Holding(b, p) <==> a.Contains(ShiftPos(p, dir, n))) <==>
            CoverageKept(a, dir, n, offset)
  {
    var b := if FilterCleared(a, dir, n, offset) then None else Some(FilterArea(a, dir, n, offset));
    if !CoverageKept(a, dir, n, offset) {
      var p :=
        if dir.Rows? then Pos(a.c1, n)
        else if FilterCleared(a, dir, n, offset) then Pos(n, a.r1)
        else Pos(a.c1 - 1, a.r1);
      assert p.Valid();
      assert offset > 0 ==> (Holding(b, ShiftPos(p, dir, n)) <==> !a.Contains(p));
      assert offset < 0 ==> (Holding(b, p) <==> !a.Contains(ShiftPos(p, dir, n)));
    }
  }
}
