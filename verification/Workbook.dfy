/** The workbook part of the File object: the registry operations of sheet.go as they run. */
module Workbooks {
  import opened AdjustSpec
  import opened Registry

  class Workbook {
    var sheets: seq<SheetEntry>
    var rels: seq<Relation>
    var overrides: seq<string>
    var sheetMap: map<string, string>
    var sheetCount: int

    function State(): (b: Book)
      reads this
    {
      Book(sheets, rels, overrides, sheetMap, sheetCount)
    }

    /** NewFile. */
    constructor ()
      ensures State() == NEW_FILE && Good(State())
    {
      sheets, rels, overrides := NEW_FILE.sheets, NEW_FILE.rels, NEW_FILE.overrides;
      sheetMap, sheetCount := NEW_FILE.sheetMap, NEW_FILE.sheetCount;
      new;
      NewFileIsGood();
    }

    method GetSheetIndex(name: string) returns (index: int)
      ensures index == Registry.GetSheetIndex(State(), name)
    {
      hide TargetNumber;
      for i := 0 to |sheets|
        invariant SheetIndexFrom(State(), i, name) == SheetIndexFrom(State(), 0, name)
      {
        if sheets[i].Name == name {
          for k := 0 to |rels|
            invariant RelFrom(rels, k, sheets[i].ID) == RelFrom(rels, 0, sheets[i].ID)
          {
            if sheets[i].ID == rels[k].ID {
              return TargetNumber(rels[k].Target);
            }
          }
        }
      }
      return 0;
    }

    method GetSheetName(index: int) returns (name: string)
      ensures name == Registry.GetSheetName(State(), index)
    {
      hide TargetNumber;
      for k := 0 to |rels|
        invariant SheetNameFrom(State(), k, index) == SheetNameFrom(State(), 0, index)
      {
        if TargetNumber(rels[k].Target) == index {
          for i := 0 to |sheets|
            invariant SheetWithRel(sheets, i, rels[k].ID) == SheetWithRel(sheets, 0, rels[k].ID)
          {
            if sheets[i].ID == rels[k].ID {
              return sheets[i].Name;
            }
          }
        }
      }
      return "";
    }

    /** The next relationship number is one more than the largest in use. */
    method AddXlsxWorkbookRels(sheet: nat) returns (rid: nat)
      modifies `rels
      ensures rid == MaxRelNumber(old(rels)) + 1
      ensures rels == old(rels) + [Relation(RelID(rid), SheetTarget(sheet))]
    {
      hide RelNumber;
      rid := 0;
      for i := 0 to |rels|
        invariant rid == MaxRelNumber(rels[..i])
      {
        assert rels[..i + 1][..i] == rels[..i];
        var t := RelNumber(rels[i].ID);
        if t > rid {
          rid := t;
        }
      }
      assert rels[..|rels|] == rels;
      rid := rid + 1;
      rels := rels + [Relation(RelID(rid), SheetTarget(sheet))];
    }

    method DeleteSheetFromWorkbookRels(id: string) returns (target: string)
      modifies `rels
      ensures (rels, target) == DeleteRel(old(rels), id)
    {
      for k := 0 to |rels|
        invariant rels == old(rels) && RelFrom(rels, k, id) == RelFrom(rels, 0, id)
      {
        if rels[k].ID == id {
          target := rels[k].Target;
          rels := rels[..k] + rels[k + 1..];
          return;
        }
      }
      return "";
    }

    /** False stands for a run-time panic. */
    method DeleteSheetFromContentTypes(target: string) returns (ok: bool)
      modifies `overrides
      ensures var all := old(overrides);
              var dropped := DropOverrides(all, |all|, 0, PartName(target));
              ok == dropped.Some? && (ok ==> overrides == dropped.value)
    {
      hide PartName;
      var store := overrides;
      var len: nat := |store|;
      assert store[..len] == store;
      for k := 0 to |store|
        invariant |store| == |old(overrides)| && len <= |store| && overrides == store[..len]
        invariant DropOverrides(store, len, k, PartName(target)) ==
                  DropOverrides(old(overrides), |old(overrides)|, 0, PartName(target))
      {
        if store[k] == PartName(target) {
          if k >= len {
            return false;
          }
          store := Delete(store, len, k);
          len := len - 1;
          overrides := store[..len];
        }
      }
      return true;
    }

    /** False stands for a run-time panic. */
    method DeleteSheet(name: string) returns (ok: bool)
      modifies this
      ensures var after := Registry.DeleteSheet(old(State()), name);
              ok == after.Some? && (ok ==> State() == after.value)
    {
      hide TrimSheetName, DeleteRel, DropOverrides, PartName;
      var store := sheets;
      var len: nat := |store|;
      assert store[..len] == store;
      ghost var expected := Registry.DeleteSheet(State(), name);
      ghost var b := State();
      for k := 0 to |store|
        invariant |store| == |old(sheets)| && len <= |store|
        invariant State() == b.(sheets := store[..len])
        invariant DeleteLoop(b, store, len, k, name) == expected
      {
        var v := store[k];
        if v.Name == TrimSheetName(name) && len > 1 {
          if k >= len {
            return false;
          }
          store := Delete(store, len, k);
          len := len - 1;
          sheets := store[..len];
          var target := DeleteSheetFromWorkbookRels(v.ID);
          var fine := DeleteSheetFromContentTypes(target);
          if !fine {
            return false;
          }
          sheetMap := sheetMap - {name};
          sheetCount := sheetCount - 1;
          b := b.(rels := rels, overrides := overrides, sheetMap := sheetMap, sheetCount := sheetCount);
        }
      }
      return true;
    }

    method LargestSheetID() returns (sheetID: nat)
      ensures sheetID == MaxSheetID(sheets)
    {
      sheetID := 0;
      for i := 0 to |sheets|
        invariant sheetID == MaxSheetID(sheets[..i])
      {
        assert sheets[..i + 1][..i] == sheets[..i];
        if sheets[i].SheetID > sheetID {
          sheetID := sheets[i].SheetID;
        }
      }
      assert sheets[..|sheets|] == sheets;
    }

    method NewSheet(name: string) returns (ok: bool, result: int)
      modifies this
      ensures var after := Registry.NewSheet(old(State()), name);
              ok == after.Some? && (ok ==> (State(), result) == after.value)
    {
      hide Registry.GetSheetIndex, Registry.DeleteSheet, MaxSheetID, MaxRelNumber, TrimSheetName, SheetTarget, SheetPath, PartName, RelID;
      var index := GetSheetIndex(name);
      if index != 0 {
        return true, sheetCount;
      }
      var deleted := DeleteSheet(name);
      if !deleted {
        return false, 0;
      }
      sheetCount := sheetCount + 1;
      var sheetID: nat := LargestSheetID();
      sheetID := sheetID + 1;
      overrides := overrides + [PartName(SheetTarget(sheetID))];
      sheetMap := sheetMap[TrimSheetName(name) := SheetPath(sheetID)];
      var rid := AddXlsxWorkbookRels(sheetID);
      sheets := sheets + [SheetEntry(TrimSheetName(name), sheetID, RelID(rid))];
      return true, sheetID;
    }

    method SetSheetName(oldName: string, newName: string)
      modifies `sheets, `sheetMap
      ensures State() == Registry.SetSheetName(old(State()), oldName, newName)
    {
      hide TrimSheetName;
      var o, n := TrimSheetName(oldName), TrimSheetName(newName);
      for k := 0 to |sheets|
        invariant |sheets| == |old(sheets)|
        invariant RenameFrom(State(), k, o, n) == RenameFrom(old(State()), 0, o, n)
      {
        if sheets[k].Name == o {
          var path := if o in sheetMap then sheetMap[o] else "";
          sheets := sheets[k := sheets[k].(Name := n)];
          sheetMap := sheetMap[n := path] - {o};
        }
      }
    }

    /** trimSheetName, with its test and its loop. */
    static method TrimName(name: string) returns (trimmed: string)
      ensures trimmed == TrimSheetName(name)
    {
      if (exists i :: 0 <= i < |name| && Forbidden(name[i])) || |name| > 31 {
        var r := "";
        assert name[0..] == name;
        for i := 0 to |name|
          invariant KeepAllowed(name[i..], r) == KeepAllowed(name, "") && |r| < 31
        {
          assert name[i..][1..] == name[i + 1..];
          if !Forbidden(name[i]) {
            r := r + [name[i]];
          }
          if |r| == 31 {
            return r;
          }
        }
        return r;
      }
      return name;
    }
  }
}
