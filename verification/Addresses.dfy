/**
 Addresses in other than canonical spelling, such as "a5", "A05" or "A+5": all of them parse, so a
 write reaches the cell; but a read looks for a cell of that name. When the two agree.
 */
module Addresses {
  import opened Wrappers
  import opened Text
  import opened CellNames
  import opened SheetModel
  import opened CellSpec
  import opened Areas
  import opened References
  import opened Reads

  predicate Accepted(a: string) { CellNameToCoordinates(a).Ok? }

  // ---------- upper case parses alike

  lemma UpperAlpha(c: char)
    ensures IsAlpha(UpperChar(c)) <==> IsAlpha(c)
    ensures !IsAlpha(c) ==> UpperChar(c) == c
  {
  }

  lemma {:induction false} LastAlphaUpper(s: string)
    ensures LastAlpha(ToUpper(s)) == LastAlpha(s)
  {
    hide IsAlpha, UpperChar;
    if s != [] {
      var n := |s| - 1;
      UpperAlpha(s[n]);
      assert ToUpper(s)[..n] == ToUpper(s[..n]);
      LastAlphaUpper(s[..n]);
    }
  }

  lemma ColumnUpper(col: string)
    requires AllAlpha(col)
    ensures AllAlpha(ToUpper(col)) && ColumnValue(ToUpper(col)) == ColumnValue(col)
  {
    ColumnNameOfValue(col);
    ColumnValueOfName(ColumnValue(col));
  }

  lemma DigitsUpper(s: string)
    requires NoAlpha(s)
    ensures ToUpper(s) == s
  {
    hide IsAlpha, UpperChar;
    forall i | 0 <= i < |s|
      ensures UpperChar(s[i]) == s[i]
    {
      UpperAlpha(s[i]);
    }
  }

  lemma FirstLetter(a: string)
    ensures var i := LastAlpha(a);
            && (a != [] && IsAlpha(a[0]) ==> i >= 0)
            && (i >= 0 && AllAlpha(a[..i + 1]) ==> IsAlpha(a[0]))
  {
    hide IsAlpha, LastAlpha;
    LastAlphaFound(a);
    var i := LastAlpha(a);
    if i >= 0 { assert a[..i + 1][0] == a[0]; }
  }

  lemma NoNumeral()
    ensures Atoi([]) == None
  {
  }

  /** The address cut behind its last letter. */
  function Halves(a: string): (halves: (string, string)) {
    (a[..LastAlpha(a) + 1], a[LastAlpha(a) + 1..])
  }

  /** An accepted address is letters, then what Atoi reads as a positive number. */
  lemma Parts(a: string)
    ensures var (col, digits) := Halves(a);
            && (Accepted(a) <==> col != [] && AllAlpha(col) && Atoi(digits).Some? && Atoi(digits).value > 0)
            && (Accepted(a) ==> CellNameToCoordinates(a) == Ok((ColumnValue(col), Atoi(digits).value)))
  {
    hide IsAlpha, AllAlpha, ColumnValue, LastAlpha, Atoi;
    FirstLetter(a);
    NoNumeral();
    var i := LastAlpha(a);
    if i == |a| - 1 { assert a[i + 1..] == []; }
  }

  lemma UpperHalves(a: string, i: nat)
    requires i <= |a|
    ensures ToUpper(a)[..i] == ToUpper(a[..i]) && ToUpper(a)[i..] == ToUpper(a[i..])
  {
    hide UpperChar;
  }

  lemma UpperLetters(col: string)
    ensures AllAlpha(ToUpper(col)) <==> AllAlpha(col)
  {
    hide IsAlpha, UpperChar;
    forall i | 0 <= i < |col|
      ensures IsAlpha(ToUpper(col)[i]) <==> IsAlpha(col[i])
    {
      UpperAlpha(col[i]);
    }
    assert forall i :: 0 <= i < |col| ==> (IsAlpha(ToUpper(col)[i]) <==> IsAlpha(col[i]));
  }

  lemma HalvesUpper(a: string)
    ensures Halves(ToUpper(a)) == (ToUpper(Halves(a).0), Halves(a).1)
  {
    hide NoAlpha, ToUpper, LastAlpha;
    var i := LastAlpha(a);
    LastAlphaUpper(a);
    LastAlphaIsLast(a);
    UpperHalves(a, i + 1);
    DigitsUpper(a[i + 1..]);
  }

  /** An address is accepted exactly if its upper-case spelling is, and at the same position. */
  lemma UpperParses(a: string)
    ensures Accepted(ToUpper(a)) <==> Accepted(a)
    ensures Accepted(a) ==>
              && CellNameToCoordinates(ToUpper(a)) == CellNameToCoordinates(a)
              && PosOf(a).Valid() && PosOf(ToUpper(a)) == PosOf(a)
  {
    hide AllAlpha, ToUpper, ColumnValue, CellNameToCoordinates, Atoi, Halves;
    if Accepted(a) { AcceptedIsPositive(a); }
    Parts(a);
    Parts(ToUpper(a));
    HalvesUpper(a);
    var col := Halves(a).0;
    assert |ToUpper(col)| == |col|;
    UpperLetters(col);
    if AllAlpha(col) { ColumnUpper(col); }
  }

  /** Some area holds the position. */
  predicate Held(refs: seq<string>, i: nat, p: Pos) {
    exists k :: i <= k < |refs| && AreaOf(refs[k]).Contains(p)
  }

  /** The walk over the areas depends on the spelling only while no area holds the address. */
  lemma {:induction false} ResolveSpelled(refs: seq<string>, i: nat, u: string, p: Pos)
    requires i <= |refs| && CanonicalRefs(refs) && p.Valid() && CellNameToCoordinates(u) == Ok((p.col, p.row))
    ensures ResolveFrom(refs, i, u) == if Held(refs, i, p) then ResolveFrom(refs, i, p.Name()) else Ok(u)
    decreases |refs| - i
  {
    hide CellName, CellNameToCoordinates, AreaOf, CanonicalRef;
    if i < |refs| {
      InAreaMeans(p, refs[i]);
      CoordinatesRoundTrip(p.col, p.row);
      assert CellInArea(u, refs[i]) == CellInArea(p.Name(), refs[i]);
      ResolveSpelled(refs, i + 1, u, p);
      if AreaOf(refs[i]).Contains(p) {
        assert Held(refs, i, p);
      } else {
        assert Held(refs, i, p) <==> Held(refs, i + 1, p);
      }
    }
  }

  /** A reader that is given the address looks for the name of its anchor. */
  predicate Named(s: Sheet, a: string) {
    Canonical(ToUpper(a)) || Held(StoredRefs(s.merges), 0, PosOf(a))
  }

  /** What an accepted address resolves to. */
  lemma ResolveAccepted(s: Sheet, a: string)
    requires CanonicalRefs(StoredRefs(s.merges)) && Accepted(a)
    ensures PosOf(a).Valid()
    ensures var q := Anchor(s.merges, PosOf(a));
            Resolve(s.merges, a) == Ok(if Named(s, a) then q.Name() else ToUpper(a))
    ensures !Named(s, a) ==> Anchor(s.merges, PosOf(a)) == PosOf(a)
    ensures ToUpper(a) == PosOf(a).Name() <==> Canonical(ToUpper(a))
  {
    hide CellName, CellNameToCoordinates, AreaOf, CanonicalRef, Canonical, ResolveFrom;
    UpperParses(a);
    var u, p := ToUpper(a), PosOf(a);
    assert CellNameToCoordinates(u) == Ok((p.col, p.row)) by { Located(a); }
    Reprint(u);
    if s.merges.Some? {
      ResolveSpelled(s.merges.value, 0, u, p);
      ResolveMeans(s.merges.value, 0, p);
      if !Held(s.merges.value, 0, p) { ResolveNowhere(s.merges.value, 0, p); }
    }
  }

  lemma Located(a: string)
    requires Accepted(a)
    ensures CellNameToCoordinates(a) == Ok((PosOf(a).col, PosOf(a).row))
  {
  }

  // ---------- writing and reading

  /** Every write through prepareCell reaches the same cell under any accepted spelling. */
  lemma PrepareAccepted(s: Sheet, a: string)
    requires CanonicalRefs(StoredRefs(s.merges)) && Accepted(a)
    ensures PosOf(a).Valid() && PrepareCell(s, a) == PrepareCell(s, PosOf(a).Name())
  {
    hide CellName, CellNameToCoordinates, AreaOf, CanonicalRef, Canonical, Resolve, Prepare, Named;
    ResolveAccepted(s, a);
    UpperParses(a);
    var p := PosOf(a);
    ResolveName(s.merges, p);
    var q := Anchor(s.merges, p);
    CoordinatesRoundTrip(q.col, q.row);
    Located(a);
  }

  lemma SetCellAccepted(s: Sheet, a: string, kind: string, value: string, leadingSpace: bool)
    requires CanonicalRefs(StoredRefs(s.merges)) && Accepted(a)
    ensures PosOf(a).Valid() && SetCell(s, a, kind, value, leadingSpace) == SetCell(s, PosOf(a).Name(), kind, value, leadingSpace)
  {
    hide PrepareCell, CellName, CanonicalRefs;
    PrepareAccepted(s, a);
  }

  lemma {:induction false} NoSuchCell(C: seq<Cell>, j: nat, r: nat, u: string, formula: bool)
    requires j <= |C| && r >= 1 && !Canonical(u) && forall k :: 0 <= k < |C| ==> C[k].R == CellName(k + 1, r)
    ensures ScanCells(C[j..], u, formula) == None
    decreases |C| - j
  {
    hide CellName, Canonical;
    if j < |C| {
      CanonicalIsNamed(j + 1, r);
      assert C[j..][1..] == C[j + 1..];
      NoSuchCell(C, j + 1, r, u, formula);
    }
  }

  lemma {:induction false} NoSuchRow(rows: seq<Row>, i: nat, row: int, u: string, formula: bool)
    requires Dense(rows) && i <= |rows| && !Canonical(u)
    ensures ScanRows(rows[i..], row, u, formula) == None
    decreases |rows| - i
  {
    hide Canonical, ScanCells;
    if i < |rows| {
      assert DenseRow(rows[i], i + 1);
      assert rows[i..][1..] == rows[i + 1..] && rows[i].C[0..] == rows[i].C;
      NoSuchCell(rows[i].C, 0, i + 1, u, formula);
      NoSuchRow(rows, i + 1, row, u, formula);
    }
  }

  /** The scan under any accepted spelling: as under the canonical one, or nothing found. */
  lemma FindAccepted(s: Sheet, a: string, formula: bool)
    requires Dense(s.rows) && CanonicalRefs(StoredRefs(s.merges)) && Accepted(a)
    ensures PosOf(a).Valid()
    ensures Find(s, a, formula) == if Named(s, a) then Find(s, PosOf(a).Name(), formula) else Ok(None)
  {
    hide CellName, CellNameToCoordinates, AreaOf, CanonicalRef, Canonical, Resolve, Held, ScanRows, Dense, LastRowNumber;
    ResolveAccepted(s, a);
    var p := PosOf(a);
    ResolveName(s.merges, p);
    if !Named(s, a) {
      UpperParses(a);
      Located(a);
      NoSuchRow(s.rows, 0, p.row, ToUpper(a), formula);
      assert s.rows[0..] == s.rows;
    }
  }

  /**
   The value read at an accepted address is the one that stands at its anchor if and only if the
   address is canonical up to case, or lies in a merged area, or the value is empty.
   */
  lemma ReadsAnchor(s: Sheet, a: string)
    requires Dense(s.rows) && CanonicalRefs(StoredRefs(s.merges)) && Accepted(a)
    ensures PosOf(a).Valid()
    ensures var q := Anchor(s.merges, PosOf(a));
            GetCellValue(s, a) == Ok(At(s.rows, q.col, q.row).V) <==> Named(s, a) || At(s.rows, q.col, q.row).V == ""
    ensures !Named(s, a) ==> GetCellValue(s, a) == Ok("") && GetCellFormula(s, a) == Ok("")
    ensures Named(s, a) ==> GetCellValue(s, a) == GetCellValue(s, PosOf(a).Name()) &&
                            GetCellFormula(s, a) == GetCellFormula(s, PosOf(a).Name())
  {
    hide CellName, AreaOf, CanonicalRef, Find, Named, At;
    FindAccepted(s, a, false);
    FindAccepted(s, a, true);
    ReadsAreAt(s, PosOf(a));
  }

  /** Reading back under any accepted spellings; in particular a write under a itself reads back exactly if a is named. */
  lemma WriteThenReadAccepted(s: Sheet, a: string, kind: string, value: string, leadingSpace: bool, b: string)
    requires Dense(s.rows) && CanonicalRefs(StoredRefs(s.merges)) && Accepted(a) && Accepted(b)
    ensures PosOf(a).Valid() && PosOf(b).Valid()
    ensures var s' := SetCell(s, a, kind, value, leadingSpace).0;
            && GetCellValue(s', b) ==
               (if !Named(s, b) then Ok("")
                else if Anchor(s.merges, PosOf(b)) == Anchor(s.merges, PosOf(a)) then Ok(value)
                else GetCellValue(s, b))
            && GetCellFormula(s', b) == GetCellFormula(s, b)
  {
    hide CellName, AreaOf, CanonicalRef, Canonical, Held, SetCell, GetCellValue, GetCellFormula, Dense, At, ColumnStyle;
    SetCellAccepted(s, a, kind, value, leadingSpace);
    ReadsAnchor(s, b);
    WriteThenRead(s, PosOf(a), kind, value, leadingSpace, PosOf(b));
    SetCellWrites(s, PosOf(a), kind, value, leadingSpace);
    ReadsAnchor(SetCell(s, a, kind, value, leadingSpace).0, b);
  }

  // ---------- what the writers write

  /** Every accepted address that is named and has the same anchor as axis reads text, every other as before. */
  ghost predicate Wrote(s': Sheet, s: Sheet, axis: string, text: string)
    requires CanonicalRefs(StoredRefs(s.merges)) && PosOf(axis).Valid()
  {
    forall b :: Accepted(b) ==>
      && PosOf(b).Valid()
      && GetCellFormula(s', b) == GetCellFormula(s, b)
      && GetCellValue(s', b) ==
         (if Named(s, b) && Anchor(s.merges, PosOf(b)) == Anchor(s.merges, PosOf(axis)) then Ok(text)
          else GetCellValue(s, b))
  }

  /** What a write promises on a dense sheet with canonical areas: text reads back, or the address is refused. */
  ghost predicate Writes(s': Sheet, o: Outcome, s: Sheet, axis: string, text: string) {
    Dense(s.rows) && CanonicalRefs(StoredRefs(s.merges)) ==>
      if Accepted(axis) then o == Done && PosOf(axis).Valid() && Wrote(s', s, axis, text) else s' == s && o.Failed?
  }

  lemma SetCellRefuses(s: Sheet, axis: string, kind: string, value: string, leadingSpace: bool)
    requires !Accepted(axis)
    ensures var (s', o) := SetCell(s, axis, kind, value, leadingSpace); s' == s && o.Failed?
  {
    hide CellNameToCoordinates, ColumnStyle, PutAt, Prepare;
    UpperParses(axis);
  }

  lemma SetCellReadsBack(s: Sheet, axis: string, kind: string, value: string, leadingSpace: bool)
    ensures var (s', o) := SetCell(s, axis, kind, value, leadingSpace);
            Writes(s', o, s, axis, value)
  {
    hide SetCell, CanonicalRefs, Dense, Accepted, Named, GetCellValue, GetCellFormula, CellName, ColumnStyle;
    if !Accepted(axis) {
      SetCellRefuses(s, axis, kind, value, leadingSpace);
    } else if Dense(s.rows) && CanonicalRefs(StoredRefs(s.merges)) {
      SetCellAccepted(s, axis, kind, value, leadingSpace);
      SetCellWrites(s, PosOf(axis), kind, value, leadingSpace);
      forall b | Accepted(b)
        ensures PosOf(b).Valid()
        ensures var s' := SetCell(s, axis, kind, value, leadingSpace).0;
                && GetCellFormula(s', b) == GetCellFormula(s, b)
                && GetCellValue(s', b) ==
                   (if Named(s, b) && Anchor(s.merges, PosOf(b)) == Anchor(s.merges, PosOf(axis)) then Ok(value)
                    else GetCellValue(s, b))
      {
        WriteThenReadAccepted(s, axis, kind, value, leadingSpace, b);
        ReadsAnchor(s, b);
      }
    }
  }

  /** The decimal that SetCellInt writes is that of its number. */
  lemma DecimalReads(n: int)
    ensures Atoi(ItoaInt(n)) == Some(n)
  {
    hide Itoa, DigitsValue;
    if n < 0 {
      DigitsValueItoa(-n);
      assert ("-" + Itoa(-n))[1..] == Itoa(-n);
    } else {
      AtoiItoa(n);
    }
  }
}
