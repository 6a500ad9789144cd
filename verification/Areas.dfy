/** Merged areas: what the stored references mean, which areas a sheet can come to hold, and how addresses resolve. */
module Areas {
  import opened Wrappers
  import opened Text
  import opened CellNames
  import opened SheetModel
  import opened CellSpec

  datatype Pos = Pos(col: int, row: int) {
    predicate Valid() { col >= 1 && row >= 1 }

    function Name(): (name: string)
      requires Valid()
    {
      CellName(col, row)
    }
  }

  /** An area by its first and last corner. */
  datatype Area = Area(c1: int, r1: int, c2: int, r2: int) {
    /** Ordered, and of more than one cell. */
    predicate Valid() { 1 <= c1 <= c2 && 1 <= r1 <= r2 && (c1 != c2 || r1 != r2) }

    predicate Contains(p: Pos) { c1 <= p.col <= c2 && r1 <= p.row <= r2 }

    function First(): (p: Pos) { Pos(c1, r1) }

    function Last(): (p: Pos) { Pos(c2, r2) }

    /** Both corners are positions. */
    predicate Placed() { First().Valid() && Last().Valid() }

    function Ref(): (ref: string)
      requires Placed()
    {
      CellName(c1, r1) + ":" + CellName(c2, r2)
    }
  }

  /** The area a two-corner reference stands for. */
  function AreaOf(ref: string): (a: Area) {
    var parts := SplitColon(ref);
    if |parts| == 2 then
      var ((c1, r1), (c2, r2)) := (CoordsOf(parts[0]), CoordsOf(parts[1]));
      Area(c1, r1, c2, r2)
    else Area(0, 0, 0, 0)
  }

  /** The reference of an ordered area of several cells, in canonical spelling. */
  predicate CanonicalRef(ref: string) {
    AreaOf(ref).Valid() && ref == AreaOf(ref).Ref()
  }

  predicate CanonicalRefs(refs: seq<string>) {
    forall k :: 0 <= k < |refs| ==> CanonicalRef(refs[k])
  }

  /** Neither has a first or last corner inside the other: all that MergeCell looks at. */
  predicate CornersApart(a: Area, b: Area) {
    && !a.Contains(b.First()) && !a.Contains(b.Last())
    && !b.Contains(a.First()) && !b.Contains(a.Last())
  }

  predicate Overlapping(a: Area, b: Area) {
    && Max(a.c1, b.c1) <= Min(a.c2, b.c2)
    && Max(a.r1, b.r1) <= Min(a.r2, b.r2)
  }

  /** The areas of a sheet built by MergeCell. */
  predicate WellMerged(refs: seq<string>) {
    && CanonicalRefs(refs)
    && (forall i, j :: 0 <= i < j < |refs| ==> CornersApart(AreaOf(refs[i]), AreaOf(refs[j])))
  }

  // ---------- reading references

  lemma RefParses(a: Area)
    requires a.Placed()
    ensures SplitColon(a.Ref()) == [a.First().Name(), a.Last().Name()]
    ensures CellNameToCoordinates(a.First().Name()) == Ok((a.c1, a.r1))
    ensures CellNameToCoordinates(a.Last().Name()) == Ok((a.c2, a.r2))
    ensures AreaOf(a.Ref()) == a && (a.Valid() ==> CanonicalRef(a.Ref()))
  {
    NameCharacters(a.c1, a.r1);
    NameCharacters(a.c2, a.r2);
    hide CellName, CellNameToCoordinates, NoColon;
    SplitPair(a.First().Name(), a.Last().Name());
    CoordinatesRoundTrip(a.c1, a.r1);
    CoordinatesRoundTrip(a.c2, a.r2);
  }

  /** The membership test on names is the geometric one. */
  lemma InAreaMeans(p: Pos, ref: string)
    requires p.Valid() && CanonicalRef(ref)
    ensures CellInArea(p.Name(), ref) == Ok(AreaOf(ref).Contains(p))
    ensures SplitColon(ref)[0] == AreaOf(ref).First().Name()
  {
    hide CellName, CellNameToCoordinates;
    CoordinatesRoundTrip(p.col, p.row);
    RefParses(AreaOf(ref));
  }

  // ---------- resolving addresses

  /** Resolution on positions. */
  function ResolveAt(refs: seq<string>, i: nat, p: Pos): (q: Pos)
    requires i <= |refs| && CanonicalRefs(refs) && p.Valid()
    ensures q.Valid()
    decreases |refs| - i
  {
    if i == |refs| then p
    else
      var a := AreaOf(refs[i]);
      ResolveAt(refs, i + 1, if a.Contains(p) then a.First() else p)
  }

  lemma {:induction false} ResolveMeans(refs: seq<string>, i: nat, p: Pos)
    requires i <= |refs| && CanonicalRefs(refs) && p.Valid()
    ensures ResolveFrom(refs, i, p.Name()) == Ok(ResolveAt(refs, i, p).Name())
    decreases |refs| - i
  {
    hide CellName, CellInArea, CanonicalRef, AreaOf;
    if i < |refs| {
      InAreaMeans(p, refs[i]);
      ResolveCanonical(refs[i]);
      var a := AreaOf(refs[i]);
      ResolveMeans(refs, i + 1, if a.Contains(p) then a.First() else p);
    }
  }

  lemma ResolveCanonical(ref: string)
    requires CanonicalRef(ref)
    ensures AreaOf(ref).Valid()
  {
  }

  /** The first area that holds p, from i on, or -1. */
  function FirstHolding(refs: seq<string>, i: nat, p: Pos): (k: int)
    requires i <= |refs|
    ensures k == -1 || i <= k < |refs|
    ensures k >= 0 ==> AreaOf(refs[k]).Contains(p)
    ensures forall j :: i <= j < (if k < 0 then |refs| else k) ==> !AreaOf(refs[j]).Contains(p)
    decreases |refs| - i
  {
    if i == |refs| then -1
    else if AreaOf(refs[i]).Contains(p) then i
    else FirstHolding(refs, i + 1, p)
  }

  lemma {:induction false} ResolveNowhere(refs: seq<string>, i: nat, p: Pos)
    requires i <= |refs| && CanonicalRefs(refs) && p.Valid()
    requires forall j :: i <= j < |refs| ==> !AreaOf(refs[j]).Contains(p)
    ensures ResolveAt(refs, i, p) == p
    decreases |refs| - i
  {
    hide CanonicalRef, AreaOf;
    if i < |refs| {
      ResolveCanonical(refs[i]);
      ResolveNowhere(refs, i + 1, p);
    }
  }

  /** In a well-merged sheet an address becomes the first corner of the first area that holds it. */
  lemma {:induction false} ResolveFirst(refs: seq<string>, i: nat, p: Pos)
    requires i <= |refs| && WellMerged(refs) && p.Valid()
    ensures ResolveAt(refs, i, p) ==
            var k := FirstHolding(refs, i, p); if k < 0 then p else AreaOf(refs[k]).First()
    decreases |refs| - i
  {
    hide CanonicalRef, AreaOf;
    if i < |refs| {
      ResolveCanonical(refs[i]);
      var a := AreaOf(refs[i]);
      if a.Contains(p) {
        forall j | i + 1 <= j < |refs|
          ensures !AreaOf(refs[j]).Contains(a.First())
        {
          assert CornersApart(a, AreaOf(refs[j]));
        }
        ResolveNowhere(refs, i + 1, a.First());
      } else {
        ResolveFirst(refs, i + 1, p);
      }
    }
  }

  /** Resolving twice is resolving once. */
  lemma ResolveIdempotent(refs: seq<string>, p: Pos)
    requires WellMerged(refs) && p.Valid()
    ensures ResolveAt(refs, 0, ResolveAt(refs, 0, p)) == ResolveAt(refs, 0, p)
  {
    hide CanonicalRef, AreaOf;
    ResolveFirst(refs, 0, p);
    var k := FirstHolding(refs, 0, p);
    if k >= 0 {
      var q := AreaOf(refs[k]).First();
      ResolveCanonical(refs[k]);
      assert AreaOf(refs[k]).Contains(q);
      var j := FirstHolding(refs, 0, q);
      forall i | 0 <= i < k
        ensures !AreaOf(refs[i]).Contains(q)
      {
        assert CornersApart(AreaOf(refs[i]), AreaOf(refs[k]));
      }
      ResolveFirst(refs, 0, q);
    }
  }

  /** mergeCellsParser on the spelling of an address: case is folded, then the position resolved. */
  lemma ResolveName(merges: Option<seq<string>>, p: Pos)
    requires p.Valid() && (merges.Some? ==> CanonicalRefs(merges.value))
    ensures Resolve(merges, p.Name()) ==
            Ok((if merges.None? then p else ResolveAt(merges.value, 0, p)).Name())
  {
    NameCharacters(p.col, p.row);
    if merges.Some? { ResolveMeans(merges.value, 0, p); }
  }

  // ---------- merging

  lemma ClashMeans(a: Area, ref: string)
    requires a.Valid() && CanonicalRef(ref)
    ensures |SplitColon(ref)| == 2
    ensures Clash(a.First().Name(), a.Last().Name(), ref) <==> !CornersApart(a, AreaOf(ref))
  {
    hide CellName, CellInArea, CellNameToCoordinates;
    var b := AreaOf(ref);
    InAreaMeans(a.First(), ref);
    InAreaMeans(a.Last(), ref);
    RefParses(a);
    RefParses(b);
    InAreaMeans(b.First(), a.Ref());
    InAreaMeans(b.Last(), a.Ref());
  }

  lemma {:induction false} ScanMeans(refs: seq<string>, i: nat, a: Area)
    requires i <= |refs| && CanonicalRefs(refs) && a.Valid()
    ensures ScanAreas(refs, i, a.First().Name(), a.Last().Name()) ==
            if forall j :: i <= j < |refs| ==> CornersApart(a, AreaOf(refs[j])) then Free else Overlaps
    decreases |refs| - i
  {
    hide CanonicalRef, AreaOf, CellName, Clash;
    if i < |refs| {
      ClashMeans(a, refs[i]);
      ScanMeans(refs, i + 1, a);
    }
  }

  /** The area between two corners given in any order. */
  function Between(p: Pos, q: Pos): (a: Area) {
    Area(Min(p.col, q.col), Min(p.row, q.row), Max(p.col, q.col), Max(p.row, q.row))
  }

  function StoredRefs(merges: Option<seq<string>>): (refs: seq<string>) {
    if merges.None? then [] else merges.value
  }

  predicate Mergeable(refs: seq<string>, p: Pos, q: Pos) {
    p != q && forall k :: 0 <= k < |refs| ==> CornersApart(Between(p, q), AreaOf(refs[k]))
  }

  lemma StoreArea(refs: seq<string>, a: Area)
    requires WellMerged(refs) && a.Valid() && forall k :: 0 <= k < |refs| ==> CornersApart(a, AreaOf(refs[k]))
    ensures WellMerged(refs + [a.Ref()])
  {
    hide CanonicalRef, AreaOf, CellName, CornersApart, CellNameToCoordinates;
    RefParses(a);
    var refs' := refs + [a.Ref()];
    forall i, j | 0 <= i < j < |refs'|
      ensures CornersApart(AreaOf(refs'[i]), AreaOf(refs'[j]))
    {
      if j == |refs| { ApartBothWays(a, AreaOf(refs[i])); }
    }
  }

  lemma ApartBothWays(a: Area, b: Area)
    ensures CornersApart(a, b) <==> CornersApart(b, a)
  {
  }

  /**
   MergeCell keeps a sheet well merged. It stores the area exactly when its corners are apart
   from those of every stored area, and otherwise leaves the sheet alone without an error.
   */
  lemma MergeKeeps(s: Sheet, hcell: string, vcell: string, p: Pos, q: Pos)
    requires WellMerged(StoredRefs(s.merges)) && p.Valid() && q.Valid()
    requires CellNameToCoordinates(hcell) == Ok((p.col, p.row))
    requires CellNameToCoordinates(vcell) == Ok((q.col, q.row))
    ensures p != q ==> Between(p, q).Valid()
    ensures !Mergeable(StoredRefs(s.merges), p, q) ==> MergeCell(s, hcell, vcell) == (s, Done)
    ensures Mergeable(StoredRefs(s.merges), p, q) ==>
              var refs := StoredRefs(s.merges) + [Between(p, q).Ref()];
              MergeCell(s, hcell, vcell) == (s.(merges := Some(refs)), Done) && WellMerged(refs)
  {
    hide CellNameToCoordinates, CellName, CanonicalRef, AreaOf, ScanAreas, CornersApart;
    var refs := StoredRefs(s.merges);
    if p != q {
      var a := Between(p, q);
      assert NameOf(a.c1, a.r1) == a.First().Name() && NameOf(a.c2, a.r2) == a.Last().Name();
      ScanMeans(refs, 0, a);
      assert s.merges.None? ==> refs + [a.Ref()] == [a.Ref()];
      if Mergeable(refs, p, q) { StoreArea(refs, a); }
    }
  }

  /**
   The overlaps that the corner test misses: the areas overlap, but their first corners lie in
   opposite order across and down, and so do their last corners.
   */
  lemma MissedOverlap(a: Area, b: Area)
    requires a.Valid() && b.Valid()
    ensures CornersApart(a, b) <==>
            || !Overlapping(a, b)
            || (&& ((a.c1 < b.c1 && b.r1 < a.r1) || (b.c1 < a.c1 && a.r1 < b.r1))
                && ((a.c2 < b.c2 && b.r2 < a.r2) || (b.c2 < a.c2 && a.r2 < b.r2)))
  {
  }

  lemma MergeOne(s: Sheet, a: Area)
    requires WellMerged(StoredRefs(s.merges)) && a.Valid()
    requires forall k :: 0 <= k < |StoredRefs(s.merges)| ==> CornersApart(a, AreaOf(StoredRefs(s.merges)[k]))
    ensures var refs := StoredRefs(s.merges) + [a.Ref()];
            MergeCell(s, a.First().Name(), a.Last().Name()) == (s.(merges := Some(refs)), Done) && WellMerged(refs)
  {
    hide CellName, CellNameToCoordinates, MergeCell, AreaOf, WellMerged, CornersApart;
    RefParses(a);
    MergeKeeps(s, a.First().Name(), a.Last().Name(), a.First(), a.Last());
    assert Between(a.First(), a.Last()) == a;
  }

  /** Any two areas with corners apart, overlapping or not, are stored one after the other. */
  lemma BothStored(a: Area, b: Area)
    requires a.Valid() && b.Valid() && CornersApart(a, b)
    ensures var s := MergeCell(EMPTY_SHEET, a.First().Name(), a.Last().Name()).0;
            MergeCell(s, b.First().Name(), b.Last().Name()) == (EMPTY_SHEET.(merges := Some([a.Ref(), b.Ref()])), Done)
  {
    hide CellName, CellNameToCoordinates, MergeCell, AreaOf, CornersApart, WellMerged, CanonicalRef, SplitColon;
    NoneMerged();
    MergeOne(EMPTY_SHEET, a);
    assert [] + [a.Ref()] == [a.Ref()] && [a.Ref()] + [b.Ref()] == [a.Ref(), b.Ref()];
    RefParses(a);
    ApartBothWays(a, b);
    MergeOne(EMPTY_SHEET.(merges := Some([a.Ref()])), b);
  }

  /** B1:B3 and A2:C2 cross, and both are stored. */
  lemma CrossIsAccepted()
    ensures Overlapping(Area(2, 1, 2, 3), Area(1, 2, 3, 2))
    ensures var s := MergeCell(EMPTY_SHEET, "B1", "B3").0;
            MergeCell(s, "A2", "C2") == (EMPTY_SHEET.(merges := Some(["B1:B3", "A2:C2"])), Done)
  {
    hide CellName, MergeCell;
    CrossNames();
    BothStored(Area(2, 1, 2, 3), Area(1, 2, 3, 2));
    assert Area(2, 1, 2, 3).Ref() == "B1:B3" && Area(1, 2, 3, 2).Ref() == "A2:C2";
  }

  lemma CrossNames()
    ensures CellName(2, 1) == "B1" && CellName(2, 3) == "B3" && CellName(1, 2) == "A2" && CellName(3, 2) == "C2"
  {
    assert ColumnName(0) == [];
    assert ColumnName(1) == "A" && ColumnName(2) == "B" && ColumnName(3) == "C";
    assert Itoa(1) == "1" && Itoa(2) == "2" && Itoa(3) == "3";
  }

  lemma NoneMerged()
    ensures WellMerged([])
  {
  }
}
