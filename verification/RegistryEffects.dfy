/** What deleting, adding and renaming do to each sheet's index and path: sheet.go, over consistent workbooks. */
module RegistryEffects {
  import opened Wrappers
  import opened Registry

  // ---------- index, path and name of a sheet

  /** A sheet's index is its number, and its path is made of it. */
  lemma IndexOfSheet(b: Book, k: nat)
    requires Good(b) && k < |b.sheets|
    ensures GetSheetIndex(b, b.sheets[k].Name) == b.sheets[k].SheetID && b.sheets[k].SheetID >= 1
    ensures b.sheets[k].Name in b.sheetMap && b.sheetMap[b.sheets[k].Name] == SheetPath(b.sheets[k].SheetID)
  {
    hide SheetIndexFrom, DistinctSheets, DistinctRels, DistinctParts, PartsKnown, PathsKnown, AllLinked, SheetPath, SheetTarget,
         PartName, RelFrom;
    LinkedSheet(b, k);
    IndexFound(b, 0, k);
  }

  lemma {:induction false} NameMissing(b: Book, j: nat, index: int)
    requires AllLinked(b) && DistinctRels(b.rels) && j <= |b.rels|
    requires forall k :: 0 <= k < |b.sheets| ==> b.sheets[k].SheetID != index
    ensures SheetNameFrom(b, j, index) == ""
    decreases |b.rels| - j
  {
    hide TargetNumber, AllLinked, DistinctRels, Linked, RelFrom;
    if j < |b.rels| {
      var i := SheetWithRel(b.sheets, 0, b.rels[j].ID);
      if i >= 0 {
        LinkedSheet(b, i);
        LinkedRel(b, b.sheets[i]);
        SameRel(b.rels, j, b.sheets[i].ID);
      }
      NameMissing(b, j + 1, index);
    }
  }

  /** The name at an index is that of the sheet with the number, and empty if there is none. */
  lemma NameAt(b: Book, index: int)
    requires Good(b)
    ensures forall k :: 0 <= k < |b.sheets| && b.sheets[k].SheetID == index ==> GetSheetName(b, index) == b.sheets[k].Name
    ensures (forall k :: 0 <= k < |b.sheets| ==> b.sheets[k].SheetID != index) ==> GetSheetName(b, index) == ""
  {
    hide SheetNameFrom, DistinctSheets, DistinctRels, DistinctParts, PartsKnown, PathsKnown, AllLinked, Linked, RelFrom, TargetNumber;
    forall k | 0 <= k < |b.sheets| && b.sheets[k].SheetID == index
      ensures GetSheetName(b, index) == b.sheets[k].Name
    {
      LinkedSheet(b, k);
      LinkedRel(b, b.sheets[k]);
      NameFound(b, 0, k);
    }
    if forall k :: 0 <= k < |b.sheets| ==> b.sheets[k].SheetID != index { NameMissing(b, 0, index); }
  }

  /** The sheet's index and path are the same in both workbooks, or it is in neither. */
  ghost predicate SameSheet(b': Book, b: Book, name: string) {
    && GetSheetIndex(b', name) == GetSheetIndex(b, name)
    && (name in b'.sheetMap <==> name in b.sheetMap)
    && (name in b.sheetMap ==> b'.sheetMap[name] == b.sheetMap[name])
  }

  /** Consistent workbooks that agree on a sheet's number agree on the sheet. */
  lemma SameNumber(b': Book, b: Book, j: nat, k: nat)
    requires Good(b') && Good(b) && j < |b'.sheets| && k < |b.sheets|
    requires b'.sheets[j].Name == b.sheets[k].Name && b'.sheets[j].SheetID == b.sheets[k].SheetID
    ensures SameSheet(b', b, b.sheets[k].Name)
  {
    hide Good, GetSheetIndex;
    IndexOfSheet(b', j);
    IndexOfSheet(b, k);
  }

  lemma InNeither(b': Book, b: Book, name: string)
    requires Good(b') && Good(b) && !HasName(b'.sheets, name) && !HasName(b.sheets, name)
    ensures SameSheet(b', b, name)
  {
    hide SheetIndexFrom, AllLinked, DistinctSheets, DistinctRels, DistinctParts, PartsKnown;
    IndexMissing(b', 0, name);
    IndexMissing(b, 0, name);
  }

  lemma Prefixes()
    ensures "xl/" + SHEET_PREFIX == "xl/worksheets/sheet" && "/xl/" + SHEET_PREFIX == "/xl/worksheets/sheet"
  {
  }

  lemma Joined(a: string, b: string, c: string, d: string)
    ensures a + (b + c + d) == (a + b) + c + d
  {
  }

  /** A sheet's file and part are numbered with it. */
  lemma PathsSpelled(id: nat)
    ensures SheetPath(id) == "xl/worksheets/sheet" + Text.Itoa(id) + ".xml"
    ensures PartName(SheetTarget(id)) == "/xl/worksheets/sheet" + Text.Itoa(id) + ".xml"
  {
    hide Text.Itoa;
    Prefixes();
    Joined("xl/", SHEET_PREFIX, Text.Itoa(id), XML_SUFFIX);
    Joined("/xl/", SHEET_PREFIX, Text.Itoa(id), XML_SUFFIX);
  }

  /** A new workbook has the one sheet Sheet1, at index 1. */
  lemma FirstSheet()
    ensures GetSheetIndex(NEW_FILE, "Sheet1") == 1 && GetSheetName(NEW_FILE, 1) == "Sheet1"
    ensures forall name :: name != "Sheet1" ==> GetSheetIndex(NEW_FILE, name) == 0
  {
    hide Good, GetSheetIndex, GetSheetName, SheetTarget, SheetPath, PartName, RelID;
    NewFileIsGood();
    IndexOfSheet(NEW_FILE, 0);
    NameAt(NEW_FILE, 1);
    forall name | name != "Sheet1"
      ensures GetSheetIndex(NEW_FILE, name) == 0
    {
      NameOfIndex(NEW_FILE, name);
    }
  }

  // ---------- renaming

  /**
   Renaming a known sheet to a name not in use: the new name has the old one's index and path, the
   old name is gone, and every other sheet is as before.
   */
  lemma RenameMoves(b: Book, oldName: string, newName: string)
    requires Good(b) && HasName(b.sheets, TrimSheetName(oldName)) && !HasName(b.sheets, TrimSheetName(newName))
    ensures var b', o, n := SetSheetName(b, oldName, newName), TrimSheetName(oldName), TrimSheetName(newName);
            && GetSheetIndex(b', n) == GetSheetIndex(b, o) != 0
            && GetSheetIndex(b', o) == 0 && o !in b'.sheetMap
            && n in b'.sheetMap && o in b.sheetMap && b'.sheetMap[n] == b.sheetMap[o]
            && (forall name :: name != o && name != n ==> SameSheet(b', b, name))
            && b'.rels == b.rels && b'.overrides == b.overrides && b'.sheetCount == b.sheetCount
  {
    hide TrimSheetName, Good, GetSheetIndex, Renamed, SameSheet, DistinctSheets, AllLinked, DistinctRels, DistinctParts, PartsKnown,
         PathsKnown, RenameFrom;
    var o, n := TrimSheetName(oldName), TrimSheetName(newName);
    SetSheetNameKeeps(b, oldName, newName);
    GoodParts(b);
    var k :| 0 <= k < |b.sheets| && b.sheets[k].Name == o;
    RenameOne(b, 0, k, n);
    RenamedFields(b, k, n);
    RenamedSheet(b, k, n);
    forall name | name != o && name != n
      ensures SameSheet(Renamed(b, k, n), b, name)
    {
      OtherUnderRename(b, k, n, name);
    }
  }

  /** Sheet k under its new name. */
  lemma RenamedSheet(b: Book, k: nat, n: string)
    requires Good(b) && k < |b.sheets| && Good(Renamed(b, k, n)) && n != b.sheets[k].Name
    ensures var b', o := Renamed(b, k, n), b.sheets[k].Name;
            && GetSheetIndex(b', n) == GetSheetIndex(b, o) && GetSheetIndex(b, o) != 0 && GetSheetIndex(b', o) == 0
            && n in b'.sheetMap && o in b.sheetMap && b'.sheetMap[n] == b.sheetMap[o]
  {
    hide Good, GetSheetIndex, Renamed, SheetPath, DistinctSheets, HasName;
    var b' := Renamed(b, k, n);
    RenamedFields(b, k, n);
    IndexOfSheet(b, k);
    IndexOfSheet(b', k);
    GoodParts(b);
    OldNameGone(b, k, n);
    NameOfIndex(b', b.sheets[k].Name);
  }

  lemma RenamedFields(b: Book, k: nat, name: string)
    requires k < |b.sheets|
    ensures var b', v := Renamed(b, k, name), b.sheets[k];
            && b'.rels == b.rels && b'.overrides == b.overrides && b'.sheetCount == b.sheetCount
            && |b'.sheets| == |b.sheets| && b'.sheets[k] == v.(Name := name)
            && v.Name !in b'.sheetMap
  {
  }

  lemma OtherUnderRename(b: Book, k: nat, n: string, name: string)
    requires Good(b) && k < |b.sheets| && Good(Renamed(b, k, n)) && name != n && name != b.sheets[k].Name
    ensures SameSheet(Renamed(b, k, n), b, name)
  {
    hide Good, SameSheet;
    if i :| 0 <= i < |b.sheets| && b.sheets[i].Name == name {
      SameNumber(Renamed(b, k, n), b, i, i);
    } else {
      InNeither(Renamed(b, k, n), b, name);
    }
  }

  lemma OldNameGone(b: Book, k: nat, name: string)
    requires DistinctSheets(b.sheets) && k < |b.sheets| && name != b.sheets[k].Name
    ensures !HasName(Renamed(b, k, name).sheets, b.sheets[k].Name)
  {
  }

  lemma RenameUnknown(b: Book, oldName: string, newName: string)
    requires !HasName(b.sheets, TrimSheetName(oldName))
    ensures SetSheetName(b, oldName, newName) == b
  {
    hide TrimSheetName;
    RenameNothing(b, 0, TrimSheetName(oldName), TrimSheetName(newName));
  }

  // ---------- deleting

  /** The index of a name does not depend on the paths. */
  lemma {:induction false} IndexIgnoresPaths(b: Book, b': Book, i: nat, name: string)
    requires i <= |b.sheets| && b'.sheets == b.sheets && b'.rels == b.rels
    ensures SheetIndexFrom(b', i, name) == SheetIndexFrom(b, i, name)
    decreases |b.sheets| - i
  {
    hide TargetNumber, RelFrom;
    if i < |b.sheets| { IndexIgnoresPaths(b, b', i + 1, name); }
  }

  /** With sheet k taken out, every other sheet is as before. */
  lemma OthersStay(b: Book, k: nat)
    requires Good(b) && k < |b.sheets| && |b.sheets| >= 2
    ensures var b' := Without(b, k, b.sheets[k].Name);
            && Good(b') && !HasName(b'.sheets, b.sheets[k].Name)
            && (forall name :: name != b.sheets[k].Name ==> SameSheet(b', b, name))
  {
    hide Good, TrimSheetName, Without, SameSheet, HasName, DistinctSheets;
    var t := b.sheets[k].Name;
    SheetIsTrimmed(b, k);
    WithoutKeeps(b, k, t);
    WithoutSheets(b, k, t);
    GoodParts(b);
    NameGone(b.sheets, k);
    forall name | name != t
      ensures SameSheet(Without(b, k, t), b, name)
    {
      OtherUnderDeletion(b, k, name);
    }
  }

  lemma OtherUnderDeletion(b: Book, k: nat, name: string)
    requires Good(b) && k < |b.sheets| && name != b.sheets[k].Name && Good(Without(b, k, b.sheets[k].Name))
    ensures SameSheet(Without(b, k, b.sheets[k].Name), b, name)
  {
    hide Good, SameSheet, Without;
    var b' := Without(b, k, b.sheets[k].Name);
    WithoutSheets(b, k, b.sheets[k].Name);
    if i :| 0 <= i < |b.sheets| && b.sheets[i].Name == name {
      var j := if i < k then i else i - 1;
      assert b'.sheets[j] == b.sheets[i];
      SameNumber(b', b, j, i);
    } else {
      NotLeft(b, k, name);
      InNeither(b', b, name);
    }
  }

  lemma NotLeft(b: Book, k: nat, name: string)
    requires k < |b.sheets| && !HasName(b.sheets, name)
    ensures !HasName(b.sheets[..k] + b.sheets[k + 1..], name)
  {
  }

  lemma SheetIsTrimmed(b: Book, k: nat)
    requires Good(b) && k < |b.sheets|
    ensures TrimSheetName(b.sheets[k].Name) == b.sheets[k].Name
  {
    hide TrimSheetName, RelFrom, SheetTarget, PartName, SheetPath, DistinctSheets, DistinctRels, DistinctParts, PartsKnown, PathsKnown;
    LinkedSheet(b, k);
    TrimIdempotent(b.sheets[k].Name);
  }

  /** The spelling of the name matters to the paths only. */
  lemma WithoutSpelled(b: Book, k: nat, name: string, other: string)
    requires k < |b.sheets|
    ensures Without(b, k, name) == Without(b, k, other).(sheetMap := b.sheetMap - {name})
  {
  }

  /** Deleting one of several sheets: it is gone from the index, and every other sheet has the index and path it had. */
  lemma DeleteTakesOne(b: Book, name: string)
    requires Good(b) && HasName(b.sheets, TrimSheetName(name)) && |b.sheets| >= 2
    ensures var t := TrimSheetName(name);
            && DeleteSheet(b, name).Some?
            && var b' := DeleteSheet(b, name).value;
               && |b'.sheets| == |b.sheets| - 1 && b'.sheetCount == b.sheetCount - 1
               && GetSheetIndex(b', t) == 0
               && (forall x :: x != t ==> SameSheet(b', b, x))
  {
    hide TrimSheetName, Good, Without, GetSheetIndex, DeleteLoop, SameSheet, DistinctSheets, DistinctRels, DistinctParts, PartsKnown,
         PathsKnown, AllLinked;
    var t := TrimSheetName(name);
    GoodParts(b);
    var k :| 0 <= k < |b.sheets| && b.sheets[k].Name == t;
    DeleteOne(b, 0, k, name);
    TakenOut(b, k);
    WithoutSheets(b, k, name);
    Counted(b, k, name);
    SameIndex(b, k, name, t);
    forall x | x != t
      ensures SameSheet(Without(b, k, name), b, x)
    {
      OtherSpelled(b, k, name, x);
    }
  }

  lemma TakenOut(b: Book, k: nat)
    requires Good(b) && k < |b.sheets| && |b.sheets| >= 2
    ensures GetSheetIndex(Without(b, k, b.sheets[k].Name), b.sheets[k].Name) == 0
  {
    hide Good, Without, GetSheetIndex, SameSheet, HasName;
    OthersStay(b, k);
    NameOfIndex(Without(b, k, b.sheets[k].Name), b.sheets[k].Name);
  }

  lemma OtherSpelled(b: Book, k: nat, name: string, x: string)
    requires Good(b) && k < |b.sheets| && |b.sheets| >= 2 && b.sheets[k].Name == TrimSheetName(name) && x != b.sheets[k].Name
    ensures SameSheet(Without(b, k, name), b, x)
  {
    hide TrimSheetName, Good, Without, GetSheetIndex, SameSheet, HasName;
    OthersStay(b, k);
    SameIndex(b, k, name, x);
    Paths(b, k, name);
    Spelled(b, k, name, x);
  }

  lemma SameIndex(b: Book, k: nat, name: string, x: string)
    requires k < |b.sheets|
    ensures GetSheetIndex(Without(b, k, name), x) == GetSheetIndex(Without(b, k, b.sheets[k].Name), x)
  {
    hide Without, SheetIndexFrom;
    WithoutSpelled(b, k, name, b.sheets[k].Name);
    IndexIgnoresPaths(Without(b, k, b.sheets[k].Name), Without(b, k, name), 0, x);
  }

  lemma Spelled(b: Book, k: nat, name: string, x: string)
    requires k < |b.sheets|
    requires SameSheet(Without(b, k, b.sheets[k].Name), b, x)
    requires GetSheetIndex(Without(b, k, name), x) == GetSheetIndex(Without(b, k, b.sheets[k].Name), x)
    requires x in Without(b, k, name).sheetMap <==> x in b.sheetMap
    requires x in b.sheetMap ==> Without(b, k, name).sheetMap[x] == b.sheetMap[x]
    ensures SameSheet(Without(b, k, name), b, x)
  {
    hide Without, GetSheetIndex;
  }

  lemma Counted(b: Book, k: nat, name: string)
    requires k < |b.sheets|
    ensures Without(b, k, name).sheetCount == b.sheetCount - 1
    ensures Without(b, k, name).sheetMap == b.sheetMap - {name}
  {
  }

  /** Called with another spelling, the deletion takes no path away. */
  lemma Paths(b: Book, k: nat, name: string)
    requires Good(b) && k < |b.sheets| && b.sheets[k].Name == TrimSheetName(name)
    ensures forall x :: x != b.sheets[k].Name ==>
              (x in Without(b, k, name).sheetMap <==> x in b.sheetMap) &&
              (x in b.sheetMap ==> Without(b, k, name).sheetMap[x] == b.sheetMap[x])
  {
    hide TrimSheetName, Good, Without;
    Counted(b, k, name);
    if name != TrimSheetName(name) { UntrimmedUnknown(b, name); }
  }

  // ---------- adding

  /** The number that a new sheet gets is one more than the largest. */
  lemma {:induction false} LargestReached(sheets: seq<SheetEntry>)
    requires sheets != []
    ensures exists k :: 0 <= k < |sheets| && (sheets[k].SheetID == MaxSheetID(sheets) || MaxSheetID(sheets) == 0)
  {
    var last := |sheets| - 1;
    var front := sheets[..last];
    if front != [] {
      LargestReached(front);
      var k :| 0 <= k < |front| && (front[k].SheetID == MaxSheetID(front) || MaxSheetID(front) == 0);
      if sheets[last].SheetID <= MaxSheetID(front) { assert sheets[k] == front[k]; } else { assert sheets[last].SheetID == MaxSheetID(sheets); }
    } else {
      assert sheets[0].SheetID == MaxSheetID(sheets) || MaxSheetID(sheets) == 0;
    }
  }

  lemma AddedSheet(b: Book, name: string)
    requires Good(b) && !HasName(b.sheets, TrimSheetName(name))
    ensures var b', t, r := AddSheet(b, name), TrimSheetName(name), MaxSheetID(b.sheets) + 1;
            && Good(b') && GetSheetIndex(b', t) == r && t in b'.sheetMap && b'.sheetMap[t] == SheetPath(r)
            && (forall x :: x != t ==> SameSheet(b', b, x))
  {
    hide TrimSheetName, Good, GetSheetIndex, SheetIndexFrom, MaxSheetID, MaxRelNumber, RelID, SheetPath, SheetTarget, PartName;
    var b', t := AddSheet(b, name), TrimSheetName(name);
    AddSheetKeeps(b, name);
    IndexOfSheet(b', |b.sheets|);
    forall x | x != t
      ensures SameSheet(b', b, x)
    {
      if i :| 0 <= i < |b.sheets| && b.sheets[i].Name == x {
        SameNumber(b', b, i, i);
      } else {
        NotAdded(b, name, x);
        InNeither(b', b, x);
      }
    }
  }

  lemma NotAdded(b: Book, name: string, x: string)
    requires !HasName(b.sheets, x) && x != TrimSheetName(name)
    ensures !HasName(AddSheet(b, name).sheets, x)
  {
    hide TrimSheetName;
  }

  /** Sheet t has the number r, one more than the largest other, and every other sheet is as in b. */
  ghost predicate SheetAdded(b': Book, r: int, b: Book, t: string) {
    && r >= 1 && r == GetSheetIndex(b', t) && t in b'.sheetMap && b'.sheetMap[t] == SheetPath(r)
    && (forall x :: x != t ==> SameSheet(b', b, x))
    && (forall k :: 0 <= k < |b'.sheets| && b'.sheets[k].Name != t ==> b'.sheets[k].SheetID < r)
    && (exists k :: 0 <= k < |b'.sheets| && b'.sheets[k].SheetID == r - 1)
  }

  /**
   A new sheet's index is the result, one more than the largest number left, with the path made of
   it; every other sheet is as before. (Exactly the calls that keep the workbook consistent.)
   */
  lemma NewSheetAdds(b: Book, name: string)
    requires Good(b) && !HasName(b.sheets, name)
    requires !HasName(b.sheets, TrimSheetName(name)) || |b.sheets| > 1
    ensures var t := TrimSheetName(name);
            && NewSheet(b, name).Some?
            && var (b', r) := NewSheet(b, name).value;
               Good(b') && SheetAdded(b', r, b, t)
  {
    hide TrimSheetName, Good, GetSheetIndex, DeleteSheet, AddSheet, Without, SheetPath, MaxSheetID, SameSheet, OneLess, HasName;
    var t := TrimSheetName(name);
    NameOfIndex(b, name);
    TrimIdempotent(name);
    if HasName(b.sheets, t) {
      var base := OneLess(b, name);
      ReplacesAs(b, name);
      AddedSheet(base, t);
      Numbers(base, t);
      SameThrough(AddSheet(base, t), base, b, t);
    } else {
      NewName(b, name);
      AddedSheet(b, t);
      Numbers(b, t);
    }
  }

  lemma NewName(b: Book, name: string)
    requires Good(b) && !HasName(b.sheets, name) && !HasName(b.sheets, TrimSheetName(name))
    ensures NewSheet(b, name) == Some((AddSheet(b, TrimSheetName(name)), MaxSheetID(b.sheets) + 1))
  {
    hide TrimSheetName, Good, GetSheetIndex, DeleteSheet, MaxSheetID, MaxRelNumber, SheetPath, HasName;
    NameOfIndex(b, name);
    TrimIdempotent(name);
    DeleteSheetKeeps(b, name);
  }

  /** The workbook with the sheet that the name trims to taken out. */
  ghost function OneLess(b: Book, name: string): (b': Book)
    requires HasName(b.sheets, TrimSheetName(name))
  {
    var k :| 0 <= k < |b.sheets| && b.sheets[k].Name == TrimSheetName(name);
    Without(b, k, TrimSheetName(name))
  }

  lemma ReplacesAs(b: Book, name: string)
    requires Good(b) && !HasName(b.sheets, name) && HasName(b.sheets, TrimSheetName(name)) && |b.sheets| > 1
    ensures var t, base := TrimSheetName(name), OneLess(b, name);
            && NewSheet(b, name) == Some((AddSheet(base, t), MaxSheetID(base.sheets) + 1))
            && Good(base) && !HasName(base.sheets, t) && base.sheets != []
            && (forall x :: x != t ==> SameSheet(base, b, x))
  {
    hide TrimSheetName, Good, SheetIndexFrom, AddSheet, Without, DeleteLoop, MaxSheetID, SameSheet;
    var t := TrimSheetName(name);
    TrimIdempotent(name);
    NameOfIndex(b, name);
    var k :| 0 <= k < |b.sheets| && b.sheets[k].Name == t && OneLess(b, name) == Without(b, k, t);
    DeleteOne(b, 0, k, name);
    UntrimmedUnknown(b, name);
    TrimmedDeleteThenAdd(b, k, name);
    OthersStay(b, k);
    WithoutSheets(b, k, t);
    WithoutSheets(b, k, name);
  }

  lemma Numbers(b: Book, name: string)
    requires Good(b) && name == TrimSheetName(name)
    ensures var b', r := AddSheet(b, name), MaxSheetID(b.sheets) + 1;
            && (forall k :: 0 <= k < |b'.sheets| && b'.sheets[k].Name != name ==> b'.sheets[k].SheetID < r)
            && (exists k :: 0 <= k < |b'.sheets| && b'.sheets[k].SheetID == r - 1)
  {
    hide TrimSheetName, DistinctSheets, DistinctRels, DistinctParts, PartsKnown, PathsKnown, AllLinked, MaxRelNumber, RelID,
         MaxSheetID, SheetPath, SheetTarget, PartName;
    LargestReached(b.sheets);
    var k :| 0 <= k < |b.sheets| && (b.sheets[k].SheetID == MaxSheetID(b.sheets) || MaxSheetID(b.sheets) == 0);
    IndexOfSheet(b, k);
    assert AddSheet(b, name).sheets[k] == b.sheets[k];
  }

  lemma SameThrough(b2: Book, b1: Book, b: Book, t: string)
    requires forall x :: x != t ==> SameSheet(b2, b1, x)
    requires forall x :: x != t ==> SameSheet(b1, b, x)
    ensures forall x :: x != t ==> SameSheet(b2, b, x)
  {
    hide GetSheetIndex;
    forall x | x != t
      ensures SameSheet(b2, b, x)
    {
      assert SameSheet(b2, b1, x) && SameSheet(b1, b, x);
    }
  }
}
